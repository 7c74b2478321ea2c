/** A receipt captured from an owned hierarchy is one the decoder accepts: what the typed
    configuration makes volatile is what the raw values say, and the raw values rebuild the
    capture they came from. */
module CapturedReceipts {
  import opened Outcomes
  import opened Paths
  import opened KernelTree
  import opened Config
  import opened TuningGoals
  import opened SysfsModel
  import opened Restoration
  import opened Snapshots
  import opened Hierarchy
  import opened Updates
  import opened OnlineUpdates
  import opened Receipts

  // ---------- writable values ----------

  predicate OrdinaryNames(p: Path) {
    p != [] && forall k | 0 <= k < |p| :: p[k] != "" && p[k] != "." && p[k] != ".."
  }

  /** The captured values relative to the admin root: `writable_values`. */
  function WritableValues(root: Path, entries: seq<Entry>): (values: seq<Entry>)
    requires forall e | e in entries :: root <= e.path
    ensures |values| == |entries|
    ensures forall k | 0 <= k < |entries| :: values[k] == Entry(entries[k].path[|root|..], entries[k].value)
  {
    seq(|entries|, k requires 0 <= k < |entries| => Entry(entries[k].path[|root|..], entries[k].value))
  }

  /** No two of the first `n` values share a path. */
  ghost predicate DistinctPaths(values: seq<Entry>) {
    forall i, j | 0 <= i < j < |values| :: values[i].path != values[j].path
  }

  function Rooted(root: Path, v: Entry): Entry {
    Entry(root + v.path, v.value)
  }

  /** `from_writable_values`: joins, sorts and refuses duplicates. */
  method FromWritableValues(root: Path, values: seq<Entry>) returns (r: Result<seq<Entry>>)
    ensures r.Ok? <==> (forall v | v in values :: OrdinaryNames(v.path)) && DistinctPaths(values)
    ensures r.Ok? ==> Sorted(r.value) && |r.value| == |values| && forall e :: e in r.value <==> exists v | v in values :: e == Rooted(root, v)
    ensures r.Err? ==> r.error == InvalidReceipt
  {
    hide Sorted, OrdinaryNames, DistinctPaths, Rooted, PathsOf;
    var entries: seq<Entry> := [];
    NothingRebuilt();
    for n := 0 to |values|
      invariant forall m | 0 <= m < n :: OrdinaryNames(values[m].path)
      invariant DistinctPaths(values[..n]) && Sorted(entries) && |entries| == n
      invariant forall e :: e in entries <==> exists v | v in values[..n] :: e == Rooted(root, v)
    {
      var v := values[n];
      if !OrdinaryNames(v.path) {
        assert v in values;
        return Err(InvalidReceipt);
      }
      var k := PartitionPoint(entries, root + v.path);
      if k < |entries| && entries[k].path == root + v.path {
        Duplicate(root, values, n, entries, k);
        return Err(InvalidReceipt);
      }
      NewPath(root, values, n, entries, k);
      entries := entries[..k] + [Rooted(root, v)] + entries[k..];
    }
    assert values[..|values|] == values;
    r := Ok(entries);
  }

  lemma NothingRebuilt()
    ensures DistinctPaths([]) && Sorted([])
  {
  }

  lemma Duplicate(root: Path, values: seq<Entry>, n: nat, entries: seq<Entry>, k: nat)
    requires n < |values| && k < |entries| && entries[k].path == root + values[n].path
    requires forall e :: e in entries <==> exists v | v in values[..n] :: e == Rooted(root, v)
    ensures !DistinctPaths(values)
  {
    assert entries[k] in entries;
    var v :| v in values[..n] && entries[k] == Rooted(root, v);
    var m :| 0 <= m < n && values[m] == v;
    assert root + v.path == root + values[n].path;
    assert v.path == (root + v.path)[|root|..] && values[n].path == (root + values[n].path)[|root|..];
  }

  lemma NewPath(root: Path, values: seq<Entry>, n: nat, entries: seq<Entry>, k: nat)
    requires n < |values| && k <= |entries| && Sorted(entries) && DistinctPaths(values[..n])
    requires forall e :: e in entries <==> exists v | v in values[..n] :: e == Rooted(root, v)
    requires forall i | 0 <= i < k :: PathLess(entries[i].path, root + values[n].path)
    requires forall i | k <= i < |entries| :: !PathLess(entries[i].path, root + values[n].path)
    requires k < |entries| ==> entries[k].path != root + values[n].path
    ensures DistinctPaths(values[..n + 1]) && root + values[n].path !in PathsOf(entries)
    ensures Sorted(entries[..k] + [Rooted(root, values[n])] + entries[k..])
    ensures forall e :: e in entries[..k] + [Rooted(root, values[n])] + entries[k..] <==> exists v | v in values[..n + 1] :: e == Rooted(root, v)
  {
    var new', path := Rooted(root, values[n]), root + values[n].path;
    assert values[..n + 1] == values[..n] + [values[n]];
    assert entries == entries[..k] + entries[k..];
    forall i | k <= i < |entries| ensures PathLess(path, entries[i].path) {
      PathOrderTotal(path, entries[i].path);
      if i > k { PathOrderTotal(entries[k].path, path); }
    }
    PathOrderTotal(path, path);
    forall m | 0 <= m < n ensures values[m].path != values[n].path {
      assert values[m] in values[..n];
      assert Rooted(root, values[m]) in entries;
      var i :| 0 <= i < |entries| && entries[i] == Rooted(root, values[m]);
    }
    forall e ensures e in entries[..k] + [new'] + entries[k..] <==> exists v | v in values[..n + 1] :: e == Rooted(root, v) {
      assert e in entries[..k] + [new'] + entries[k..] <==> e in entries || e == new';
      if exists v | v in values[..n + 1] :: e == Rooted(root, v) {
        var v :| v in values[..n + 1] && e == Rooted(root, v);
      }
      if e == new' { assert values[n] in values[..n + 1]; }
    }
    InsertKeepsSorted(entries, k, new');
  }

  lemma RootedMembers(root: Path, entries: seq<Entry>, e: Entry)
    requires forall e | e in entries :: root <= e.path
    ensures e in entries <==> exists v | v in WritableValues(root, entries) :: e == Rooted(root, v)
  {
    var values := WritableValues(root, entries);
    forall k | 0 <= k < |entries| ensures Rooted(root, values[k]) == entries[k] {
      assert entries[k] in entries && entries[k].path == root + entries[k].path[|root|..];
    }
    if e in entries {
      var k :| 0 <= k < |entries| && entries[k] == e;
      assert values[k] in values;
    }
    if exists v | v in values :: e == Rooted(root, v) {
      var v :| v in values && e == Rooted(root, v);
      var k :| 0 <= k < |values| && values[k] == v;
    }
  }

  /** Whatever `from_writable_values` makes of a capture's own writable values is that capture. */
  lemma WritableValuesInvert(root: Path, entries: seq<Entry>, rebuilt: seq<Entry>)
    requires Sorted(entries) && forall e | e in entries :: root <= e.path
    requires Sorted(rebuilt) && forall e :: e in rebuilt <==> exists v | v in WritableValues(root, entries) :: e == Rooted(root, v)
    ensures rebuilt == entries
  {
    forall e ensures e in rebuilt <==> e in entries {
      RootedMembers(root, entries, e);
    }
    CaptureIsUnique(rebuilt, entries);
  }

  /** A capture's writable values are accepted: relative, ordinary and distinct. */
  lemma WritableValuesAccepted(root: Path, entries: seq<Entry>)
    requires Sorted(entries) && forall e | e in entries :: root <= e.path && OrdinaryNames(e.path[|root|..])
    ensures forall v | v in WritableValues(root, entries) :: OrdinaryNames(v.path)
    ensures DistinctPaths(WritableValues(root, entries))
  {
    var values := WritableValues(root, entries);
    forall v | v in values ensures OrdinaryNames(v.path) {
      var k :| 0 <= k < |values| && values[k] == v;
      assert entries[k] in entries;
    }
    forall i, j | 0 <= i < j < |values| ensures values[i].path != values[j].path {
      assert entries[i] in entries && entries[j] in entries;
      assert entries[i].path == root + values[i].path && entries[j].path == root + values[j].path;
      PathOrderTotal(entries[i].path, entries[j].path);
    }
  }

  // ---------- volatile paths ----------

  /** Names of the DAMON hierarchy that are no indices, and where its counts sit. */
  ghost predicate DamonNames(K: Schema) {
    && K.base == ["kdamonds"] && K.topName == "nr_kdamonds"
    && (forall name | name in {"kdamonds", "contexts", "monitoring_attrs", "intervals", "intervals_goal", "aggrs", "nr_contexts"} :: !K.IsIndex(name))
    && forall k: nat :: K.counter(KdamondDir(K, k) + ["contexts"]) == Some("nr_contexts")
  }

  ghost predicate SameNumbers(platform: Platform, K: Schema) {
    forall s: string :: platform.index(s) == K.number(s) && platform.number(s) == K.number(s)
  }

  /** A captured leaf's deepest index is printed canonically and within its directory's count. */
  lemma DeepestIndex(K: Schema, t: Tree, q: Path, k: nat) returns (i: nat, count: Path)
    requires K.Lawful() && Consistent(K, t) && q in t
    requires k < |q| && K.IsIndex(q[k]) && K.NoIndex(q[k + 1..])
    ensures q[k] == K.decimal(i) && K.counter(q[..k]).Some? && count == q[..k] + [K.counter(q[..k]).value]
    ensures count in t && K.Rebuilds(count) && i < CountOf(K, t, count)
  {
    assert q !in K.roots by { assert !K.NoIndex(q); }
    var r;
    count, i, r := SupportedParts(K, t, q);
    LastIndexUnique(K, q, k);
    assert Dir(count) == q[..k];
  }

  /** A captured path that looks like a tuning goal is the tuning goal of a context the counts call for. */
  lemma GoalLeafIsCounted(K: Schema, t: Tree, q: Path) returns (k: nat, c: nat)
    requires K.Lawful() && Consistent(K, t) && DamonNames(K) && q in t
    requires |q| == 8 && q[0] == "kdamonds" && K.IsIndex(q[1]) && q[2] == "contexts" && K.IsIndex(q[3]) && q[4..] == GOAL_SUFFIX
    ensures k < CountOf(K, t, K.top) && c < CountOf(K, t, ContextCount(K, k)) && q == GoalAggregations(K, k, c)
  {
    hide Consistent, Schema.Lawful, CountOf, DamonNames;
    var count;
    SuffixHasNoIndex(K);
    c, count := DeepestIndex(K, t, q, 3);
    k := KdamondIsCounted(K, t, count);
    ComposeGoal(K, q, k, c);
  }

  lemma ComposeGoal(K: Schema, q: Path, k: nat, c: nat)
    requires K.base == ["kdamonds"] && |q| == 8
    requires q[..3] == KdamondDir(K, k) + ["contexts"] && q[3] == K.decimal(c) && q[4..] == GOAL_SUFFIX
    ensures q == GoalAggregations(K, k, c)
  {
    assert q == q[..3] + [q[3]] + q[4..];
    assert KdamondDir(K, k) + ["contexts"] + [K.decimal(c)] == KdamondDir(K, k) + ["contexts", K.decimal(c)];
  }

  lemma SuffixHasNoIndex(K: Schema)
    requires DamonNames(K)
    ensures K.NoIndex(GOAL_SUFFIX)
  {
    assert GOAL_SUFFIX == ["monitoring_attrs", "intervals", "intervals_goal", "aggrs"];
  }

  lemma KdamondIsCounted(K: Schema, t: Tree, count: Path) returns (k: nat)
    requires K.Lawful() && Consistent(K, t) && DamonNames(K) && count in t && K.Rebuilds(count)
    requires |count| == 4 && count[0] == "kdamonds" && K.IsIndex(count[1]) && count[2] == "contexts"
    ensures k < CountOf(K, t, K.top) && count == ContextCount(K, k) && K.base == ["kdamonds"]
    ensures count[..3] == KdamondDir(K, k) + ["contexts"]
  {
    var top;
    CountNoIndex(K, count);
    k, top := DeepestIndex(K, t, count, 1);
    assert count[..1] == K.base == Dir(K.top);
    TopIsCounter(K);
    hide Consistent, CountOf;
    assert top == K.top;
    assert Dir(count) == KdamondDir(K, k) + ["contexts"];
    assert count == Dir(count) + [Name(count)];
  }

  lemma CountNoIndex(K: Schema, count: Path)
    requires K.Lawful() && DamonNames(K) && K.Rebuilds(count) && |count| == 4 && count[2] == "contexts"
    ensures K.NoIndex(count[2..])
  {
    assert !K.IsIndex(Name(count));
  }

  lemma TopIsCounter(K: Schema)
    requires K.Lawful()
    ensures K.counter(K.base) == Some(K.topName)
  {
    assert Dir(K.top) == K.base && Name(K.top) == K.topName;
  }

  lemma GoalPathShape(platform: Platform, K: Schema, n: nat, k: nat, c: nat)
    requires K.Lawful() && DamonNames(K) && SameNumbers(platform, K) && k < n
    ensures var q := GoalAggregations(K, k, c);
            && TunedIntervals(platform, q, n) == Some(q[..6])
            && q[..6] + ["sample_us"] == IntervalLeaf(K, k, c, "sample_us") && q[..6] + ["aggr_us"] == IntervalLeaf(K, k, c, "aggr_us")
  {
    var q := GoalAggregations(K, k, c);
    assert q[1] == K.decimal(k) && q[3] == K.decimal(c) && q[4..] == GOAL_SUFFIX;
    assert platform.index(q[1]) == Some(k) && platform.index(q[3]) == Some(c);
  }

  /** The tuned contexts of the typed view, told from the raw values. */
  lemma TunesExactly(platform: Platform, K: Schema, entries: seq<Entry>, config: DamonConfig, e: Entry) returns (k: nat, c: nat)
    requires K.Lawful() && DamonNames(K) && SameNumbers(platform, K) && Sorted(entries)
    requires Consistent(K, Values(entries)) && ViewsGoals(K, Values(entries), config)
    requires e in entries && TunedIntervals(platform, e.path, |config.kdamonds|).Some?
    ensures k < |config.kdamonds| && c < |config.kdamonds[k].contexts| && e.path == GoalAggregations(K, k, c)
    ensures platform.number(e.value) == Some(config.kdamonds[k].contexts[c].intervalsGoal.aggregations)
  {
    k, c := GoalLeafIsCounted(K, Values(entries), e.path);
  }

  lemma CapturedLeaf(entries: seq<Entry>, p: Path)
    requires Sorted(entries) && p in Values(entries)
    ensures HasPath(entries, p)
  {
    assert p in PathsOf(entries);
  }

  lemma GoalsAreReadable(platform: Platform, K: Schema, entries: seq<Entry>, config: DamonConfig)
    requires K.Lawful() && DamonNames(K) && SameNumbers(platform, K) && Sorted(entries)
    requires Consistent(K, Values(entries)) && ViewsGoals(K, Values(entries), config)
    ensures GoalsReadable(platform, entries, |config.kdamonds|)
  {
    forall e | e in entries ensures GoalReadable(platform, entries, e, |config.kdamonds|) {
      if TunedIntervals(platform, e.path, |config.kdamonds|).Some? {
        var k, c := TunesExactly(platform, K, entries, config, e);
        GoalPathShape(platform, K, |config.kdamonds|, k, c);
        CapturedLeaf(entries, IntervalLeaf(K, k, c, "sample_us"));
        CapturedLeaf(entries, IntervalLeaf(K, k, c, "aggr_us"));
      }
    }
  }

  /** The leaves the typed configuration makes volatile are those the raw values make volatile. */
  lemma VolatileFromRawValues(platform: Platform, K: Schema, entries: seq<Entry>, config: DamonConfig)
    requires K.Lawful() && DamonNames(K) && SameNumbers(platform, K) && Sorted(entries)
    requires Consistent(K, Values(entries)) && ViewsGoals(K, Values(entries), config)
    ensures ExpectedVolatile(platform, entries, |config.kdamonds|) == VolatilePaths(K, config)
  {
    var n := |config.kdamonds|;
    forall p | p in ExpectedVolatile(platform, entries, n) ensures p in VolatilePaths(K, config) {
      var e :| e in entries && TunesIntervals(platform, e, n) && (p == e.path[..6] + ["aggr_us"] || p == e.path[..6] + ["sample_us"]);
      RawIsTyped(platform, K, entries, config, e);
    }
    forall k, c | 0 <= k < n && 0 <= c < |config.kdamonds[k].contexts| && config.kdamonds[k].contexts[c].Tuned()
      ensures IntervalLeaf(K, k, c, "sample_us") in ExpectedVolatile(platform, entries, n)
      ensures IntervalLeaf(K, k, c, "aggr_us") in ExpectedVolatile(platform, entries, n)
    {
      TypedIsRaw(platform, K, entries, config, k, c);
    }
    hide ViewsGoals, Consistent, Schema.Lawful, DamonNames, SameNumbers, IntervalLeaf, TunesIntervals;
  }

  lemma RawIsTyped(platform: Platform, K: Schema, entries: seq<Entry>, config: DamonConfig, e: Entry)
    requires K.Lawful() && DamonNames(K) && SameNumbers(platform, K) && Sorted(entries)
    requires Consistent(K, Values(entries)) && ViewsGoals(K, Values(entries), config)
    requires e in entries && TunesIntervals(platform, e, |config.kdamonds|)
    ensures e.path[..6] + ["sample_us"] in VolatilePaths(K, config) && e.path[..6] + ["aggr_us"] in VolatilePaths(K, config)
  {
    var k, c := TunesExactly(platform, K, entries, config, e);
    GoalPathShape(platform, K, |config.kdamonds|, k, c);
    hide Consistent, Schema.Lawful, DamonNames, SameNumbers, ViewsGoals, GoalAggregations, IntervalLeaf;
    assert config.kdamonds[k].contexts[c].Tuned();
  }

  lemma TypedIsRaw(platform: Platform, K: Schema, entries: seq<Entry>, config: DamonConfig, k: nat, c: nat)
    requires K.Lawful() && DamonNames(K) && SameNumbers(platform, K) && Sorted(entries) && ViewsGoals(K, Values(entries), config)
    requires k < |config.kdamonds| && c < |config.kdamonds[k].contexts| && config.kdamonds[k].contexts[c].Tuned()
    ensures IntervalLeaf(K, k, c, "sample_us") in ExpectedVolatile(platform, entries, |config.kdamonds|)
    ensures IntervalLeaf(K, k, c, "aggr_us") in ExpectedVolatile(platform, entries, |config.kdamonds|)
  {
    var q := GoalAggregations(K, k, c);
    GoalPathShape(platform, K, |config.kdamonds|, k, c);
    assert q in PathsOf(entries);
    var e :| e in entries && e.path == q;
    assert Values(entries)[q] == e.value;
    hide Schema.Lawful, DamonNames, GoalAggregations, IntervalLeaf, TunedIntervals;
    assert TunesIntervals(platform, e, |config.kdamonds|);
  }

  /** A receipt for a capture that shows the given tuning satisfies every cross-field check of
      the decoder, for exactly the volatile paths and the count that go with it. */
  lemma TunedReceiptIsConsistent(platform: Platform, K: Schema, entries: seq<Entry>, values: seq<WritableValue>, volatile: seq<ByteString>, count: nat)
    requires K.Lawful() && DamonNames(K) && SameNumbers(platform, K) && Sorted(entries) && Consistent(K, Values(entries))
    requires Entries(values) == entries
    requires Increasing(PathList(volatile)) && TunedAs(K, Values(entries), Elements(PathList(volatile)), count)
    ensures ValidConfiguration(platform, values, volatile, count)
  {
    var config :| ViewsGoals(K, Values(entries), config) && Elements(PathList(volatile)) == VolatilePaths(K, config) && count == |config.kdamonds|;
    GoalsAreReadable(platform, K, entries, config);
    VolatileFromRawValues(platform, K, entries, config);
    CountIsRecorded(platform, K, entries);
  }

  /** A hierarchy read back as the request, retuned intervals apart, gives such a receipt. */
  lemma CapturedReceiptIsConsistent(platform: Platform, K: Schema, entries: seq<Entry>, readback: DamonConfig, request: DamonConfig, previous: Option<DamonConfig>,
                                    values: seq<WritableValue>, volatile: seq<ByteString>)
    requires K.Lawful() && DamonNames(K) && SameNumbers(platform, K) && Sorted(entries)
    requires Consistent(K, Values(entries)) && ViewsGoals(K, Values(entries), readback)
    requires EquivalentAfterKernelNormalization(request, AdoptTuned(request, previous, readback))
    requires Entries(values) == entries
    requires Increasing(PathList(volatile)) && Elements(PathList(volatile)) == Ownership(K, entries, request).volatile
    ensures ValidConfiguration(platform, values, volatile, Ownership(K, entries, request).count)
  {
    ReadBackIsTuned(K, Values(entries), request, previous, readback);
    TunedReceiptIsConsistent(platform, K, entries, values, volatile, |request.kdamonds|);
  }

  /** Whatever a session in step owns - after opening, restaging, updating online or changing
      quota goals, and also after any of these was undone - makes a receipt the decoder accepts. */
  lemma OwnedReceiptIsConsistent(platform: Platform, h: ManagedHierarchy, values: seq<WritableValue>, volatile: seq<ByteString>)
    requires h.Valid() && h.sys.exclusive && h.InStep()
    requires DamonNames(h.sys.schema) && SameNumbers(platform, h.sys.schema)
    requires Entries(values) == h.staged.entries
    requires Increasing(PathList(volatile)) && Elements(PathList(volatile)) == h.staged.volatile
    ensures ValidConfiguration(platform, values, volatile, h.staged.count)
  {
    var K, entries := h.sys.schema, h.staged.entries;
    OwnedCapture(h);
    assert K.Lawful();
    hide ManagedHierarchy.Valid, SysfsModel.Sysfs.Valid, Schema.Lawful, OwnedIn, InStepIn, TunedAs, DamonNames,
         SameNumbers, ValidConfiguration;
    TunedReceiptIsConsistent(platform, K, entries, values, volatile, h.staged.count);
  }

  /** The owned capture itself shows the tuning the kernel shows. */
  lemma OwnedCapture(h: ManagedHierarchy)
    requires h.Valid() && h.sys.exclusive && h.InStep()
    ensures IsCapture(h.sys.schema, h.staged.entries) && TunedAs(h.sys.schema, Values(h.staged.entries), h.staged.volatile, h.staged.count)
  {
    var K, entries, ignored := h.sys.schema, h.staged.entries, h.staged.volatile + h.sys.retuned;
    assert K.Valid() && NoCounts(ignored) && OnlyIntervals(h.sys.retuned) && Consistent(K, h.sys.files);
    TunedLeavesAreIntervals(K, h.sys.files, h.staged);
    hide ManagedHierarchy.Valid, SysfsModel.Sysfs.Valid, Schema.Lawful, Agrees, Consistent, Values, TunedAs, InStepIn,
         Calm, SameTuning;
    AgreementFixesShape(K, entries, ignored, h.sys.files);
    CalmWidens(ignored, ignored, Values(entries), h.sys.files);
    CalmIsSameTuning(K, ignored, h.sys.files, Values(entries));
    TunedAsKept(K, h.sys.files, Values(entries), h.staged.volatile, h.staged.count);
  }

  lemma CountIsRecorded(platform: Platform, K: Schema, entries: seq<Entry>)
    requires K.Lawful() && DamonNames(K) && SameNumbers(platform, K) && Sorted(entries) && Consistent(K, Values(entries))
    ensures exists e | e in entries :: e.path == COUNT_PATH && platform.number(e.value) == Some(CountOf(K, Values(entries), K.top))
  {
    assert K.top == COUNT_PATH && K.top in Values(entries) && K.top in PathsOf(entries);
    var e :| e in entries && e.path == K.top;
    assert K.number(Values(entries)[K.top]).Some?;
  }
}
