/** The online update of selected running kdamonds: stage, verify, commit, and on any
    failure put everything back. */
module Updates {
  import opened Outcomes
  import opened Paths
  import opened KernelTree
  import opened Restoration
  import opened Config
  import opened TuningGoals
  import opened SysfsModel
  import opened TargetLeaves
  import opened RunningState
  import opened Traces
  import opened Snapshots
  import opened Retries
  import opened Hierarchy
  import opened StagingRecords

  // ---------- the leaves the kernel retunes ----------

  lemma VolatileIsPlain(K: Schema, config: DamonConfig)
    ensures NoCounts(VolatilePaths(K, config)) && NoTargets(K, VolatilePaths(K, config))
  {
    forall p | p in VolatilePaths(K, config) ensures !IsReconstructionCount(p) && !IsTargetLeaf(K, p) {
      assert p[|K.base| + 3] == "monitoring_attrs" && (Name(p) == "sample_us" || Name(p) == "aggr_us");
      assert "nr_"[0] == 'n';
    }
  }

  function Ownership(K: Schema, entries: seq<Entry>, config: DamonConfig): StagedOwnership {
    StagedOwnership(entries, VolatilePaths(K, config), |config.kdamonds|)
  }

  // ---------- which kdamonds an update may name ----------

  /** In range, distinct, and in the order given - or the reason why not. */
  method ValidateSelectedIndices(requested: seq<nat>, managed: nat, described: nat) returns (r: Result<seq<nat>>)
    ensures r.Ok? <==> described == managed && (forall i | i in requested :: i < managed)
                       && (forall i, j | 0 <= i < j < |requested| :: requested[i] != requested[j])
    ensures r.Ok? ==> r.value == requested
    ensures r.Err? ==> r.error == InvalidConfiguration || r.error == IndexOutOfBounds
  {
    if described != managed { return Err(InvalidConfiguration); }
    var seen: set<nat> := {};
    for n := 0 to |requested|
      invariant seen == set i | 0 <= i < n :: requested[i]
      invariant forall i | 0 <= i < n :: requested[i] < managed
      invariant forall i, j | 0 <= i < j < n :: requested[i] != requested[j]
    {
      if requested[n] >= managed {
        assert requested[n] in requested;
        return Err(IndexOutOfBounds);
      }
      if requested[n] in seen { return Err(InvalidConfiguration); }
      seen := seen + {requested[n]};
    }
    r := Ok(requested);
  }

  // ---------- staging while kdamonds run ----------

  /** The path lies below one of the named kdamonds. */
  ghost predicate BelowSome(K: Schema, allowed: set<nat>, p: Path) {
    exists i | i in allowed :: KdamondDir(K, i) <= p
  }

  /** Everything journalled since `base` was captured lies below the kdamonds in `allowed`,
      and accounts for how the staged tree differs from it. */
  ghost predicate Tracked(sys: Sysfs, base: Tree, allowed: set<nat>)
    reads sys
  {
    sys.exclusive ==>
      && Covered(sys.schema, base, sys.retuned, sys.files, Elements(sys.journal))
      && forall w | w in sys.journal :: BelowSome(sys.schema, allowed, w)
  }

  /** As many kdamonds as before, and the same threads. */
  ghost predicate KdamondsKept(sys: Sysfs, files0: Tree, threads0: map<nat, Thread>, files: Tree, threads: map<nat, Thread>) {
    && CountOf(sys.schema, files, sys.schema.top) == CountOf(sys.schema, files0, sys.schema.top)
    && (sys.steady ==> threads == threads0)
  }

  lemma KdamondsKeptTransitive(sys: Sysfs, files0: Tree, threads0: map<nat, Thread>, files1: Tree, threads1: map<nat, Thread>, files: Tree, threads: map<nat, Thread>)
    requires KdamondsKept(sys, files0, threads0, files1, threads1) && KdamondsKept(sys, files1, threads1, files, threads)
    ensures KdamondsKept(sys, files0, threads0, files, threads)
  {
  }

  lemma DriftKeepsKdamonds(sys: Sysfs, files0: Tree, threads0: map<nat, Thread>)
    requires sys.Valid() && Calm(sys.retuned, files0, sys.files) && (sys.steady ==> sys.threads == threads0)
    ensures KdamondsKept(sys, files0, threads0, sys.files, sys.threads)
  {
    assert IsReconstructionCount(sys.schema.top);
  }

  lemma WriteKeepsKdamonds(sys: Sysfs, t: Tree, p: Path, v: string, threads0: map<nat, Thread>)
    requires sys.Valid() && Consistent(sys.schema, t) && Legal(sys.schema, t, p, v) && p != sys.schema.top
    requires Calm(sys.retuned, AfterWrite(sys.schema, t, p, v), sys.files) && (sys.steady ==> sys.threads == threads0)
    ensures KdamondsKept(sys, t, threads0, sys.files, sys.threads)
  {
    WriteKeepsCount(sys.schema, t, p, v);
    assert IsReconstructionCount(sys.schema.top);
  }

  /** Nobody else acts, nothing fails of itself or is retuned, and every kdamond is in the state
      the session left it. */
  ghost predicate Undisputed(h: ManagedHierarchy, files: Tree, threads: map<nat, Thread>)
    reads h
  {
    && h.sys.exclusive && h.sys.steady && h.sys.retuned == {} && AllFit(h.states, threads)
    && CountOf(h.sys.schema, files, h.sys.schema.top) == |h.states|
  }

  lemma UndisputedKept(h: ManagedHierarchy, files0: Tree, threads0: map<nat, Thread>, files: Tree, threads: map<nat, Thread>)
    requires h.sys.exclusive ==> KdamondsKept(h.sys, files0, threads0, files, threads)
    ensures Undisputed(h, files0, threads0) ==> Undisputed(h, files, threads)
  {
  }

  lemma UndisputedIsAlive(h: ManagedHierarchy)
    requires Undisputed(h, h.sys.files, h.sys.threads)
    ensures h.Alive() && CountOf(h.sys.schema, h.sys.files, h.sys.schema.top) == |h.states|
  {
  }

  method TrackedWrite(h: ManagedHierarchy, p: Path, v: string, ghost base: Tree, ghost allowed: set<nat>) returns (r: Result<()>)
    requires h.Valid() && Tracked(h.sys, base, allowed)
    requires h.sys.exclusive ==> BelowSome(h.sys.schema, allowed, p) && p != h.sys.schema.top
    modifies h.sys
    ensures h.Valid() && Tracked(h.sys, base, allowed) && Uncommanded(old(h.sys.trace), h.sys.trace)
    ensures h.sys.exclusive ==> h.sys.active == old(h.sys.active)
    ensures h.sys.exclusive ==> KdamondsKept(h.sys, old(h.sys.files), old(h.sys.threads), h.sys.files, h.sys.threads)
    ensures h.sys.exclusive && IsTargetLeaf(h.sys.schema, p) ==> SameElsewhere(h.sys.schema, h.sys.retuned, old(h.sys.files), h.sys.files)
    ensures r.Err? ==> r.error.IsAccessFailure()
  {
    hide ManagedHierarchy.Valid, Covered, Calm, AfterWrite, Legal, BelowSome, Uncommanded, SameElsewhere,
         IsTargetLeaf, KdamondsKept;
    ghost var sys, t0, j0, threads0 := h.sys, h.sys.files, h.sys.journal, h.sys.threads;
    r := WriteLeaf(h, p, v);
    if sys.exclusive {
      if r.Ok? {
        CoveredNow(sys.schema, base, sys.retuned, t0, j0, p, v, sys.files);
        if IsTargetLeaf(sys.schema, p) { TargetWritten(h, t0, p, v); }
      } else {
        CalmIsSameElsewhere(sys.schema, sys.retuned, t0, sys.files);
        CoveredByDrift(sys.schema, base, sys.retuned, t0, Elements(j0), sys.files);
      }
    }
  }

  /** One write below the kdamonds. */
  method WriteLeaf(h: ManagedHierarchy, p: Path, v: string) returns (r: Result<()>)
    requires h.Valid() && (h.sys.exclusive ==> p != h.sys.schema.top)
    modifies h.sys
    ensures h.Valid() && Uncommanded(old(h.sys.trace), h.sys.trace)
    ensures h.sys.exclusive ==> h.sys.active == old(h.sys.active)
    ensures h.sys.exclusive ==> KdamondsKept(h.sys, old(h.sys.files), old(h.sys.threads), h.sys.files, h.sys.threads)
    ensures r.Ok? ==> h.sys.journal == old(h.sys.journal) + [p] && Legal(h.sys.schema, old(h.sys.files), p, v)
    ensures r.Ok? && h.sys.exclusive ==> Calm(h.sys.retuned, AfterWrite(h.sys.schema, old(h.sys.files), p, v), h.sys.files)
    ensures r.Err? ==> h.sys.journal == old(h.sys.journal) && (h.sys.exclusive ==> Calm(h.sys.retuned, old(h.sys.files), h.sys.files))
    ensures h.sys.steady && p != h.sys.schema.top && Legal(h.sys.schema, old(h.sys.files), p, v) ==> r.Ok?
    ensures r.Err? ==> r.error.IsAccessFailure()
  {
    hide SysfsModel.Sysfs.Valid, RunInvariant, Sorted, Calm, AfterWrite, Legal, Uncommanded, KdamondsKept, NoCounts,
         NoTargets;
    ghost var t0, threads0 := h.sys.files, h.sys.threads;
    ValidIsConsistent(h.sys);
    r := h.sys.Write(p, v);
    ghost var event := if r.Ok? then Wrote(p) else WriteFailed(p);
    AccessKeepsInvariant(h.states, old(h.sys.trace), event);
    UncommandedNothing(old(h.sys.trace));
    WriteUncommanded(old(h.sys.trace), old(h.sys.trace), event);
    if h.sys.exclusive {
      if r.Ok? { WriteKeepsKdamonds(h.sys, t0, p, v, threads0); } else { DriftKeepsKdamonds(h.sys, t0, threads0); }
    }
  }

  lemma ValidIsConsistent(sys: Sysfs)
    requires sys.Valid()
    ensures Consistent(sys.schema, sys.files)
  {
  }

  lemma TargetWritten(h: ManagedHierarchy, t: Tree, p: Path, v: string)
    requires h.Valid() && Legal(h.sys.schema, t, p, v) && IsTargetLeaf(h.sys.schema, p)
    requires Calm(h.sys.retuned, AfterWrite(h.sys.schema, t, p, v), h.sys.files)
    ensures SameElsewhere(h.sys.schema, h.sys.retuned, t, h.sys.files)
  {
    hide Consistent, ReadersLawful, AfterWrite, Legal;
    TargetWriteStaysBelow(h.sys.schema, t, p, v);
  }

  /** Reading moves nothing that is tracked. */
  lemma TrackedByDrift(sys: Sysfs, base: Tree, allowed: set<nat>, t0: Tree, j0: seq<Path>)
    requires sys.exclusive ==>
               && Covered(sys.schema, base, sys.retuned, t0, Elements(j0))
               && forall w | w in j0 :: BelowSome(sys.schema, allowed, w)
    requires sys.exclusive ==> Calm(sys.retuned, t0, sys.files)
    requires sys.journal == j0
    ensures Tracked(sys, base, allowed)
  {
    if sys.exclusive { CoveredByDrift(sys.schema, base, sys.retuned, t0, Elements(j0), sys.files); }
  }

  /** A kdamond observed to be as requested, its targets perhaps apart. */
  predicate OnlyTargetsDiffer(requested: KdamondConfig, observed: Option<KdamondConfig>) {
    observed.Some? && requested.refreshInterval == observed.value.refreshInterval
    && |requested.contexts| == |observed.value.contexts|
    && forall c | 0 <= c < |requested.contexts| ::
         requested.contexts[c].(targets := observed.value.contexts[c].targets) == observed.value.contexts[c]
  }

  /** One kdamond's staging, which may write any of its leaves any number of times, or give
      up at any point for a reason of its own. What is observed to be as requested is not
      written: where only targets differ, only target leaves are. */
  method StageKdamond(h: ManagedHierarchy, i: nat, requested: KdamondConfig, observed: Option<KdamondConfig>, ghost base: Tree, ghost allowed: set<nat>)
    returns (r: Result<()>)
    requires h.Valid() && Tracked(h.sys, base, allowed) && (h.sys.exclusive ==> i in allowed)
    modifies h.sys
    ensures h.Valid() && Tracked(h.sys, base, allowed) && Uncommanded(old(h.sys.trace), h.sys.trace)
    ensures h.sys.exclusive ==> h.sys.active == old(h.sys.active)
    ensures h.sys.exclusive ==> KdamondsKept(h.sys, old(h.sys.files), old(h.sys.threads), h.sys.files, h.sys.threads)
    ensures h.sys.exclusive && OnlyTargetsDiffer(requested, observed) ==>
              SameElsewhere(h.sys.schema, h.sys.retuned, old(h.sys.files), h.sys.files)
    ensures r.Err? ==> !r.error.Rollback?
  {
    SameNow(h.sys.schema, h.sys.retuned, h.sys.files);
    hide SysfsModel.Sysfs.Valid, RunInvariant, Sorted, Tracked, Uncommanded, SameElsewhere, OnlyTargetsDiffer,
         IsTargetLeaf, CountOf;
    UncommandedNothing(h.sys.trace);
    var steps: int := *;
    while steps > 0
      invariant h.Valid() && Tracked(h.sys, base, allowed) && Uncommanded(old(h.sys.trace), h.sys.trace)
      invariant h.sys.exclusive ==> h.sys.active == old(h.sys.active)
      invariant h.sys.exclusive ==> KdamondsKept(h.sys, old(h.sys.files), old(h.sys.threads), h.sys.files, h.sys.threads)
      invariant h.sys.exclusive && OnlyTargetsDiffer(requested, observed) ==>
                  SameElsewhere(h.sys.schema, h.sys.retuned, old(h.sys.files), h.sys.files)
    {
      steps := steps - 1;
      var p: Path := *;
      var v: string := *;
      var narrow := OnlyTargetsDiffer(requested, observed);
      if KdamondDir(h.sys.schema, i) <= p && p != h.sys.schema.top && (!narrow || IsTargetLeaf(h.sys.schema, p)) {
        ghost var before, files := h.sys.trace, h.sys.files;
        r := TrackedWrite(h, p, v, base, allowed);
        UncommandedTransitive(old(h.sys.trace), before, h.sys.trace);
        if h.sys.exclusive && narrow {
          SameElsewhereTransitive(h.sys.schema, h.sys.retuned, old(h.sys.files), files, h.sys.files);
        }
        if r.Err? { return; }
      }
    }
    var unsupported: bool := *;
    r := if unsupported then Err(UnsupportedFeature) else Ok(());
  }

  /** Whether two descriptions of the hierarchy differ only in the named kdamonds. */
  ghost predicate DifferOnlyIn(config: DamonConfig, observed: Option<DamonConfig>, allowed: set<nat>) {
    observed.Some? && |observed.value.kdamonds| == |config.kdamonds|
    && forall i | 0 <= i < |config.kdamonds| && config.kdamonds[i] != observed.value.kdamonds[i] :: i in allowed
  }

  lemma SameNow(K: Schema, loose: set<Path>, t: Tree)
    ensures SameElsewhere(K, loose, t, t)
  {
  }

  /** Two descriptions that differ in targets alone. */
  predicate TargetsOnly(config: DamonConfig, observed: Option<DamonConfig>) {
    observed.Some? && |observed.value.kdamonds| == |config.kdamonds|
    && forall i | 0 <= i < |config.kdamonds| :: OnlyTargetsDiffer(config.kdamonds[i], Some(observed.value.kdamonds[i]))
  }

  /** Kdamond `i` of a request, unless it was observed to be as requested. */
  method StageListed(h: ManagedHierarchy, config: DamonConfig, observed: Option<DamonConfig>, i: nat, ghost base: Tree, ghost allowed: set<nat>)
    returns (r: Result<()>)
    requires h.Valid() && Tracked(h.sys, base, allowed) && i < |config.kdamonds|
    requires h.sys.exclusive ==> DifferOnlyIn(config, observed, allowed)
    modifies h.sys
    ensures h.Valid() && Tracked(h.sys, base, allowed) && Uncommanded(old(h.sys.trace), h.sys.trace)
    ensures h.sys.exclusive ==> h.sys.active == old(h.sys.active)
    ensures h.sys.exclusive ==> KdamondsKept(h.sys, old(h.sys.files), old(h.sys.threads), h.sys.files, h.sys.threads)
    ensures h.sys.exclusive && TargetsOnly(config, observed) ==> SameElsewhere(h.sys.schema, h.sys.retuned, old(h.sys.files), h.sys.files)
    ensures r.Err? ==> !r.error.Rollback?
  {
    SameNow(h.sys.schema, h.sys.retuned, h.sys.files);
    hide SysfsModel.Sysfs.Valid, RunInvariant, Sorted, Covered, BelowSome, Uncommanded, SameElsewhere,
         OnlyTargetsDiffer;
    UncommandedNothing(h.sys.trace);
    if observed.Some? && |observed.value.kdamonds| == |config.kdamonds| && observed.value.kdamonds[i] == config.kdamonds[i] {
      return Ok(());
    }
    var seen := if observed.Some? && |observed.value.kdamonds| == |config.kdamonds| then Some(observed.value.kdamonds[i]) else None;
    r := StageKdamond(h, i, config.kdamonds[i], seen, base, allowed);
  }

  /** Staging of a whole hierarchy from an observation: a kdamond observed to be as
      requested is not touched at all. */
  method StageObserved(h: ManagedHierarchy, config: DamonConfig, observed: Option<DamonConfig>, ghost base: Tree, ghost allowed: set<nat>)
    returns (r: Result<()>)
    requires h.Valid() && Tracked(h.sys, base, allowed)
    requires h.sys.exclusive ==>
               DifferOnlyIn(config, observed, allowed) && CountOf(h.sys.schema, h.sys.files, h.sys.schema.top) == |config.kdamonds|
    modifies h.sys
    ensures h.Valid() && Tracked(h.sys, base, allowed) && Uncommanded(old(h.sys.trace), h.sys.trace)
    ensures h.sys.exclusive ==> h.sys.active == old(h.sys.active)
    ensures h.sys.exclusive ==> KdamondsKept(h.sys, old(h.sys.files), old(h.sys.threads), h.sys.files, h.sys.threads)
    ensures h.sys.exclusive && TargetsOnly(config, observed) ==> SameElsewhere(h.sys.schema, h.sys.retuned, old(h.sys.files), h.sys.files)
    ensures r.Err? ==> !r.error.Rollback?
  {
    SameNow(h.sys.schema, h.sys.retuned, h.sys.files);
    ghost var threads0 := h.sys.threads;
    assert KdamondsKept(h.sys, h.sys.files, threads0, h.sys.files, threads0);
    hide SysfsModel.Sysfs.Valid, RunInvariant, Sorted, Covered, Looked, BelowSome, Uncommanded, SameElsewhere,
         TargetsOnly, DifferOnlyIn, KdamondsKept, CountOf;
    UncommandedNothing(h.sys.trace);
    if observed == Some(config) { return Ok(()); }
    ghost var t0, j0 := h.sys.files, h.sys.journal;
    var count := h.ReadCountLooking();
    LookedIsUncommanded(old(h.sys.trace), h.sys.trace);
    TrackedByDrift(h.sys, base, allowed, t0, j0);
    if h.sys.exclusive {
      CalmIsSameElsewhere(h.sys.schema, h.sys.retuned, t0, h.sys.files);
      DriftKeepsKdamonds(h.sys, t0, threads0);
    }
    if count.Err? { return Err(count.error); }
    if count.value != |config.kdamonds| {
      ghost var before := h.sys.trace;
      r := TrackedWrite(h, h.sys.schema.top, h.sys.schema.decimal(|config.kdamonds|), base, allowed);
      UncommandedTransitive(old(h.sys.trace), before, h.sys.trace);
      if r.Err? { return; }
    }
    for i := 0 to |config.kdamonds|
      invariant h.Valid() && Tracked(h.sys, base, allowed) && Uncommanded(old(h.sys.trace), h.sys.trace)
      invariant h.sys.exclusive ==> h.sys.active == old(h.sys.active)
      invariant h.sys.exclusive ==> KdamondsKept(h.sys, old(h.sys.files), old(h.sys.threads), h.sys.files, h.sys.threads)
      invariant h.sys.exclusive && TargetsOnly(config, observed) ==> SameElsewhere(h.sys.schema, h.sys.retuned, old(h.sys.files), h.sys.files)
    {
      ghost var before, files, threads := h.sys.trace, h.sys.files, h.sys.threads;
      r := StageListed(h, config, observed, i, base, allowed);
      UncommandedTransitive(old(h.sys.trace), before, h.sys.trace);
      if h.sys.exclusive { KdamondsKeptTransitive(h.sys, old(h.sys.files), threads0, files, threads, h.sys.files, h.sys.threads); }
      if h.sys.exclusive && TargetsOnly(config, observed) {
        SameElsewhereTransitive(h.sys.schema, h.sys.retuned, old(h.sys.files), files, h.sys.files);
      }
      if r.Err? { return; }
    }
    r := Ok(());
  }

  /** The same, on record. */
  method StageFrom(h: ManagedHierarchy, config: DamonConfig, observed: Option<DamonConfig>, ghost base: Tree, ghost allowed: set<nat>)
    returns (r: Result<()>)
    requires h.Valid() && Tracked(h.sys, base, allowed)
    requires h.sys.exclusive ==>
               DifferOnlyIn(config, observed, allowed) && CountOf(h.sys.schema, h.sys.files, h.sys.schema.top) == |config.kdamonds|
    modifies h.sys
    ensures h.Valid() && Tracked(h.sys, base, allowed) && Uncommanded(old(h.sys.trace), h.sys.trace)
    ensures h.sys.exclusive ==> h.sys.active == old(h.sys.active)
    ensures h.sys.exclusive ==> KdamondsKept(h.sys, old(h.sys.files), old(h.sys.threads), h.sys.files, h.sys.threads)
    ensures h.sys.exclusive && TargetsOnly(config, observed) ==> SameElsewhere(h.sys.schema, h.sys.retuned, old(h.sys.files), h.sys.files)
    ensures StagingEnds(h.sys.trace, |old(h.sys.trace)|, config, observed, r)
    ensures r.Err? ==> !r.error.Rollback?
  {
    hide ManagedHierarchy.Valid, Covered, BelowSome, Uncommanded, SameElsewhere, TargetsOnly, DifferOnlyIn,
         KdamondsKept, CountOf;
    r := StageObserved(h, config, observed, base, allowed);
    UncommandedExtends(old(h.sys.trace), h.sys.trace);
    WriteUncommanded(old(h.sys.trace), h.sys.trace, StagingDone(config, observed, r));
    h.NoteStaging(config, observed, r);
  }

  lemma CoveredNow(K: Schema, base: Tree, loose: set<Path>, t: Tree, journal: seq<Path>, p: Path, v: string, u: Tree)
    requires Covered(K, base, loose, t, Elements(journal)) && Legal(K, t, p, v) && Calm(loose, AfterWrite(K, t, p, v), u)
    ensures Covered(K, base, loose, u, Elements(journal + [p]))
  {
    CoveredByWrite(K, base, loose, t, Elements(journal), p, v);
    assert Elements(journal + [p]) == Elements(journal) + {p};
    CoveredByDrift(K, base, loose, AfterWrite(K, t, p, v), Elements(journal + [p]), u);
  }

  // ---------- committing ----------

  lemma SparesNothing(active: map<nat, Tree>, listed: seq<nat>)
    ensures SparesOthers(active, active, listed)
  {
  }

  /** Commits the listed kdamonds one after another, checking each identity around its commit. */
  method CommitSelected(h: ManagedHierarchy, listed: seq<nat>) returns (r: Result<()>)
    requires h.Valid()
    modifies h.sys
    ensures h.Valid() && h.sys.journal == old(h.sys.journal)
    ensures h.sys.exclusive ==> Calm(h.sys.retuned, old(h.sys.files), h.sys.files)
    ensures h.sys.exclusive ==> SparesOthers(old(h.sys.active), h.sys.active, listed)
    ensures old(h.sys.trace) <= h.sys.trace
    ensures r.Ok? ==> forall i | i in listed :: h.OwnedPidOf(i).Some? && ConfirmedCommit(h.sys.trace, |old(h.sys.trace)|, i, h.OwnedPidOf(i).value, Commit)
    ensures r.Ok? && h.sys.exclusive ==>
              forall i | i in listed :: RunsAsStaged(h.sys.schema, h.sys.retuned, h.sys.active, h.sys.files, i)
    ensures h.sys.exclusive ==> KdamondsKept(h.sys, old(h.sys.files), old(h.sys.threads), h.sys.files, h.sys.threads)
    ensures Undisputed(h, old(h.sys.files), old(h.sys.threads)) && (forall i | i in listed :: h.OwnedPidOf(i).Some?) ==> r.Ok?
    ensures r.Err? ==> !r.error.Rollback? && r.error.ClearsValues()
  {
    hide SysfsModel.Sysfs.Valid, RunInvariant, Sorted, RunsAsStaged, Looked, ConfirmedCommit, KdamondsKept, Undisputed;
    NothingChanges(h.sys);
    for n := 0 to |listed|
      invariant h.Valid() && h.sys.journal == old(h.sys.journal)
      invariant h.sys.exclusive ==> Calm(h.sys.retuned, old(h.sys.files), h.sys.files)
      invariant h.sys.exclusive ==> SparesOthers(old(h.sys.active), h.sys.active, listed)
      invariant h.sys.exclusive ==> KdamondsKept(h.sys, old(h.sys.files), old(h.sys.threads), h.sys.files, h.sys.threads)
      invariant old(h.sys.trace) <= h.sys.trace
      invariant forall m | 0 <= m < n :: h.OwnedPidOf(listed[m]).Some? && ConfirmedCommit(h.sys.trace, |old(h.sys.trace)|, listed[m], h.OwnedPidOf(listed[m]).value, Commit)
      invariant h.sys.exclusive ==>
                  forall m | 0 <= m < n :: RunsAsStaged(h.sys.schema, h.sys.retuned, h.sys.active, h.sys.files, listed[m])
    {
      ghost var files0, active0, trace0, threads0 := h.sys.files, h.sys.active, h.sys.trace, h.sys.threads;
      UndisputedKept(h, old(h.sys.files), old(h.sys.threads), files0, threads0);
      r := CommitOne(h, listed[n]);
      if h.sys.exclusive { KdamondsKeptTransitive(h.sys, old(h.sys.files), old(h.sys.threads), files0, threads0, h.sys.files, h.sys.threads); }
      if r.Ok? {
        ConfirmedCommitExtends(h.sys.trace, h.sys.trace, |trace0|, |old(h.sys.trace)|, listed[n], h.OwnedPidOf(listed[n]).value, Commit);
        forall m | 0 <= m < n ensures ConfirmedCommit(h.sys.trace, |old(h.sys.trace)|, listed[m], h.OwnedPidOf(listed[m]).value, Commit) {
          ConfirmedCommitExtends(trace0, h.sys.trace, |old(h.sys.trace)|, |old(h.sys.trace)|, listed[m], h.OwnedPidOf(listed[m]).value, Commit);
        }
      }
      if h.sys.exclusive && r.Ok? {
        forall m | 0 <= m < n ensures RunsAsStaged(h.sys.schema, h.sys.retuned, h.sys.active, h.sys.files, listed[m]) {
          if listed[m] != listed[n] {
            RunsElsewhere(h.sys.schema, h.sys.retuned, active0, h.sys.active, files0, h.sys.files, listed[m], [listed[n]]);
          }
        }
      }
      if r.Err? { return; }
    }
    r := Ok(());
  }

  lemma NothingChanges(sys: Sysfs)
    ensures KdamondsKept(sys, sys.files, sys.threads, sys.files, sys.threads)
  {
  }

  lemma RunsElsewhere(K: Schema, loose: set<Path>, before: map<nat, Tree>, after: map<nat, Tree>, t: Tree, u: Tree, i: nat, others: seq<nat>)
    requires RunsAsStaged(K, loose, before, t, i) && Calm(loose, t, u)
    requires SparesOthers(before, after, others) && i !in others
    ensures RunsAsStaged(K, loose, after, u, i)
  {
    RunsByDrift(K, loose, before, t, u, i);
  }

  /** Checks the identity, sends a commit of either kind, and checks the identity again.
      `handed` is the tree the kernel took the configuration from. */
  method SendCommit(h: ManagedHierarchy, i: nat, command: Command) returns (r: Result<()>, ghost accepted: bool, ghost handed: Tree)
    requires h.Valid() && IsCommit(command)
    modifies h.sys
    ensures h.Valid() && h.sys.journal == old(h.sys.journal) && old(h.sys.trace) <= h.sys.trace
    ensures h.sys.exclusive ==> Calm(h.sys.retuned, old(h.sys.files), handed) && Calm(h.sys.retuned, handed, h.sys.files)
    ensures h.sys.exclusive ==>
              h.sys.active == if accepted then Activated(h.sys.schema, old(h.sys.active), handed, i, command) else old(h.sys.active)
    ensures r.Ok? ==> accepted && h.OwnedPidOf(i).Some? && ConfirmedCommit(h.sys.trace, |old(h.sys.trace)|, i, h.OwnedPidOf(i).value, command)
    ensures h.sys.exclusive ==> KdamondsKept(h.sys, old(h.sys.files), old(h.sys.threads), h.sys.files, h.sys.threads)
    ensures Undisputed(h, old(h.sys.files), old(h.sys.threads)) && h.OwnedPidOf(i).Some? ==> r.Ok?
    ensures r.Err? ==> !r.error.Rollback? && r.error.ClearsValues()
  {
    hide SysfsModel.Sysfs.Valid, IsCapture, RunInvariant, Sorted, Looked, ConfirmedCommit, Activated, ReadsOfPid,
         AttemptsAt, KdamondsKept, AllFit, Undisputed;
    accepted, handed := false, h.sys.files;
    ghost var files0, threads0 := h.sys.files, h.sys.threads;
    h.NoteCommit(i);
    ghost var began := h.sys.trace;
    r := CheckIdentity(h, i);
    LookedExtends(began, h.sys.trace);
    if r.Err? { handed := h.sys.files; return; }
    ghost var t0, owned := h.sys.trace, h.OwnedPidOf(i).value;
    UndisputedKept(h, files0, threads0, h.sys.files, h.sys.threads);
    if Undisputed(h, files0, threads0) { UndisputedIsOn(h, i); }
    var committed, taken := RetryOrder(h.sys, i, command);
    accepted, handed := committed.Ok?, taken;
    ghost var t1 := h.sys.trace;
    AttemptsExtend(t0, t1, i, command, accepted);
    CommittingKeepsInvariant(h.states, old(h.sys.trace), began + [CountRead(Ok(|h.states|))], t0, t1, i, owned, |h.states|, command, accepted);
    if h.sys.exclusive {
      CalmTransitive(h.sys.retuned, files0, taken, h.sys.files);
      DriftKeepsKdamonds(h.sys, files0, threads0);
    }
    UndisputedKept(h, files0, threads0, h.sys.files, h.sys.threads);
    if committed.Err? { return Err(committed.error), accepted, handed; }
    r := CheckIdentity(h, i);
    LookedExtends(t1, h.sys.trace);
    if h.sys.exclusive { DriftKeepsKdamonds(h.sys, files0, threads0); }
    if r.Ok? {
      CommitThenPid(t0, t1, h.sys.trace, i, owned, |h.states|, command);
      ConfirmedCommitExtends(h.sys.trace, h.sys.trace, |t0|, |old(h.sys.trace)|, i, owned, command);
    }
  }

  /** The identity check around a commit. */
  method CheckIdentity(h: ManagedHierarchy, i: nat) returns (r: Result<()>)
    requires h.Valid()
    modifies h.sys
    ensures h.Valid() && h.sys.Still() && Looked(old(h.sys.trace), h.sys.trace)
    ensures h.sys.exclusive ==> KdamondsKept(h.sys, old(h.sys.files), old(h.sys.threads), h.sys.files, h.sys.threads)
    ensures Undisputed(h, old(h.sys.files), old(h.sys.threads)) && h.OwnedPidOf(i).Some? ==> r.Ok?
    ensures r.Ok? ==> h.OwnedPidOf(i).Some? && ReadsOfPid(old(h.sys.trace) + [CountRead(Ok(|h.states|))], h.sys.trace, i, Ok(h.OwnedPidOf(i)))
    ensures r.Err? ==> !r.error.Rollback? && r.error.ClearsValues()
  {
    hide ManagedHierarchy.InStep, RunInvariant, Sorted, Looked, ReadsOfPid, AllFit, KdamondsKept;
    ghost var files0, threads0 := h.sys.files, h.sys.threads;
    r := h.VerifyRunningIdentityOnly(i);
    if h.sys.exclusive { DriftKeepsKdamonds(h.sys, files0, threads0); }
  }

  lemma UndisputedIsOn(h: ManagedHierarchy, i: nat)
    requires Undisputed(h, h.sys.files, h.sys.threads) && h.OwnedPidOf(i).Some?
    ensures h.sys.steady && i in h.sys.threads && h.sys.threads[i].state == On
  {
    FitsAt(h.states, h.sys.threads, i);
  }

  lemma AttemptsExtend(earlier: seq<Event>, later: seq<Event>, i: nat, c: Command, accepted: bool)
    requires AttemptsAt(earlier, later, i, c, accepted)
    ensures earlier <= later
  {
  }

  method CommitOne(h: ManagedHierarchy, i: nat) returns (r: Result<()>)
    requires h.Valid()
    modifies h.sys
    ensures h.Valid() && h.sys.journal == old(h.sys.journal)
    ensures h.sys.exclusive ==> Calm(h.sys.retuned, old(h.sys.files), h.sys.files)
    ensures h.sys.exclusive ==> SparesOthers(old(h.sys.active), h.sys.active, [i])
    ensures old(h.sys.trace) <= h.sys.trace
    ensures r.Ok? ==> h.OwnedPidOf(i).Some? && ConfirmedCommit(h.sys.trace, |old(h.sys.trace)|, i, h.OwnedPidOf(i).value, Commit)
    ensures r.Ok? && h.sys.exclusive ==> RunsAsStaged(h.sys.schema, h.sys.retuned, h.sys.active, h.sys.files, i)
    ensures h.sys.exclusive ==> KdamondsKept(h.sys, old(h.sys.files), old(h.sys.threads), h.sys.files, h.sys.threads)
    ensures Undisputed(h, old(h.sys.files), old(h.sys.threads)) && h.OwnedPidOf(i).Some? ==> r.Ok?
    ensures r.Err? ==> !r.error.Rollback? && r.error.ClearsValues()
  {
    hide SysfsModel.Sysfs.Valid, IsCapture, RunInvariant, Sorted, RunsAsStaged, ConfirmedCommit, KdamondsKept,
         Undisputed;
    ghost var accepted, handed;
    r, accepted, handed := SendCommit(h, i, Commit);
    if h.sys.exclusive && accepted { HandedOver(h.sys.schema, h.sys.retuned, h.sys.active, handed, h.sys.files, i); }
  }

  // ---------- stage, verify, commit ----------

  /** Re-reading what was just captured: nothing moved in between. */
  method ReadBack(h: ManagedHierarchy, config: DamonConfig, observed: Option<DamonConfig>) returns (r: Result<seq<Entry>>, ghost seen: Tree)
    requires h.Valid()
    modifies h.sys
    ensures h.Valid() && h.sys.Still() && Looked(old(h.sys.trace), h.sys.trace)
    ensures r.Ok? ==> ReadRealised(old(h.sys.trace), h.sys.trace, config, observed)
    ensures r.Ok? ==> Sorted(r.value) && Realises(h.sys, config, observed, seen)
    ensures r.Ok? && h.sys.exclusive ==>
              Calm(h.sys.retuned, seen, h.sys.files) && Calm(h.sys.retuned, Values(r.value), h.sys.files)
    ensures r.Ok? ==> Consistent(h.sys.schema, Values(r.value))
    ensures Undisputed(h, old(h.sys.files), old(h.sys.threads)) && r.Err? ==> Misread(old(h.sys.trace), h.sys.trace, config, observed, true)
    ensures r.Err? ==> !r.error.Rollback?
  {
    hide SysfsModel.Sysfs.Valid, RunInvariant, Sorted, Values, Consistent, Looked, Misread, AllFit, Agrees,
         EquivalentAfterKernelNormalization, AdoptTuned;
    seen := map[];
    ghost var t0 := h.sys.trace;
    var snapshot := RetryCapture(h.sys);
    LookingKeepsInvariant(h.states, old(h.sys.trace), h.sys.trace);
    if snapshot.Err? { return Err(snapshot.error), seen; }
    ghost var t1 := h.sys.trace;
    var config', seen' := RetryConfiguration(h.sys);
    seen := seen';
    LookingKeepsInvariant(h.states, t1, h.sys.trace);
    LookedTransitive(t0, t1, h.sys.trace);
    LookedExtends(t0, t1);
    if config'.Err? || !EquivalentAfterKernelNormalization(config, AdoptTuned(config, observed, config'.value)) {
      MisreadNow(t0, h.sys.trace, h.sys.trace, config', config, observed, true);
    }
    if config'.Err? { return Err(config'.error), seen; }
    if !EquivalentAfterKernelNormalization(config, AdoptTuned(config, observed, config'.value)) {
      return Err(ConfigurationMismatch), seen;
    }
    if h.sys.exclusive && h.sys.retuned == {} { CapturedStill(h.sys, snapshot.value); }
    var matches := RetryMatchesExcept(h.sys, snapshot.value, {});
    if h.sys.exclusive && h.sys.retuned == {} { CapturedStill(h.sys, snapshot.value); }
    if matches.Err? { return Err(matches.error), seen; }
    if !matches.value { return Err(OwnershipLost(ValuesChanged)), seen; }
    assert RealisedAt(t0, h.sys.trace, config, observed, |h.sys.trace| - 1);
    r := Ok(snapshot.value);
  }

  lemma CapturedStill(sys: Sysfs, entries: seq<Entry>)
    requires Sorted(entries) && sys.retuned == {} && Calm(sys.retuned, Values(entries), sys.files)
    ensures Agrees(entries, {}, sys.files)
  {
    CalmIsEqual(Values(entries), sys.files);
    CaptureAgreesNow(sys, entries);
  }

  /** Since `earlier` the staged tree was read as the request, wherever intervals are not being tuned. */
  ghost predicate ReadRealised(earlier: seq<Event>, later: seq<Event>, config: DamonConfig, observed: Option<DamonConfig>) {
    exists m: nat :: RealisedAt(earlier, later, config, observed, m)
  }

  ghost predicate RealisedAt(earlier: seq<Event>, later: seq<Event>, config: DamonConfig, observed: Option<DamonConfig>, m: nat) {
    && |earlier| <= m < |later| && later[m].ConfigurationRead? && later[m].config.Ok?
    && EquivalentAfterKernelNormalization(config, AdoptTuned(config, observed, later[m].config.value))
  }

  /** A record at whose end the request may be committed: no command was sent, the staged tree
      was read back as the request, and since then nothing was written and every kdamond was
      seen as the session left it. */
  ghost predicate MayCommit(states: seq<SessionState>, earlier: seq<Event>, later: seq<Event>, config: DamonConfig, observed: Option<DamonConfig>) {
    && Uncommanded(earlier, later)
    && exists m: nat :: RealisedAt(earlier, later, config, observed, m) && SettledSince(states, later, m)
  }

  ghost predicate SettledSince(states: seq<SessionState>, trace: seq<Event>, m: nat) {
    && (forall n | m < n < |trace| :: trace[n].Passive())
    && forall i: nat | i < |states| :: !states[i].UnidentifiedRunning? && SeenAs(trace, m, i, states[i].OwnedPid(), false)
  }

  /** Commands are sent, if at all, only after such a record. */
  ghost predicate CommitsFollowCheck(states: seq<SessionState>, earlier: seq<Event>, later: seq<Event>, config: DamonConfig, observed: Option<DamonConfig>) {
    earlier <= later
    && (Uncommanded(earlier, later)
        || exists checked: seq<Event> :: checked <= later && MayCommit(states, earlier, checked, config, observed))
  }

  lemma CheckedNow(states: seq<SessionState>, t0: seq<Event>, t1: seq<Event>, t2: seq<Event>, t3: seq<Event>, config: DamonConfig, observed: Option<DamonConfig>)
    requires Uncommanded(t0, t1) && Looked(t1, t2) && Looked(t2, t3) && ReadRealised(t1, t2, config, observed)
    requires forall i: nat | i < |states| :: !states[i].UnidentifiedRunning? && SeenAs(t3, |t2|, i, states[i].OwnedPid(), false)
    ensures MayCommit(states, t0, t3, config, observed)
  {
    hide SeenAs, EquivalentAfterKernelNormalization, AdoptTuned;
    LookedTransitive(t1, t2, t3);
    LookedIsUncommanded(t1, t3);
    UncommandedTransitive(t0, t1, t3);
    var m: nat :| RealisedAt(t1, t2, config, observed, m);
    assert t3[m] == t2[m] && RealisedAt(t0, t3, config, observed, m);
    assert forall n | |t1| <= n < |t3| :: t3[n].Passive();
    forall i: nat | i < |states| ensures SeenAs(t3, m, i, states[i].OwnedPid(), false) {
      SeenAsExtends(t3, t3, |t2|, m, i, states[i].OwnedPid(), false);
    }
    assert SettledSince(states, t3, m);
  }

  lemma FollowsExtends(states: seq<SessionState>, t0: seq<Event>, t1: seq<Event>, config: DamonConfig, observed: Option<DamonConfig>)
    requires CommitsFollowCheck(states, t0, t1, config, observed)
    ensures t0 <= t1
  {
  }

  lemma FollowsUncommanded(states: seq<SessionState>, t0: seq<Event>, t1: seq<Event>, t2: seq<Event>, config: DamonConfig, observed: Option<DamonConfig>)
    requires CommitsFollowCheck(states, t0, t1, config, observed) && Uncommanded(t1, t2)
    ensures CommitsFollowCheck(states, t0, t2, config, observed)
  {
    hide MayCommit;
    if Uncommanded(t0, t1) { UncommandedTransitive(t0, t1, t2); }
    UncommandedExtends(t1, t2);
    if checked: seq<Event> :| checked <= t1 && MayCommit(states, t0, checked, config, observed) {
      assert checked <= t2;
    }
  }

  lemma LookingFirst(states: seq<SessionState>, t0: seq<Event>, t1: seq<Event>, t2: seq<Event>, config: DamonConfig, observed: Option<DamonConfig>)
    requires Looked(t0, t1) && CommitsFollowCheck(states, t1, t2, config, observed)
    ensures CommitsFollowCheck(states, t0, t2, config, observed)
  {
    hide SettledSince, EquivalentAfterKernelNormalization, AdoptTuned;
    LookedIsUncommanded(t0, t1);
    LookedExtends(t0, t1);
    if Uncommanded(t1, t2) { UncommandedTransitive(t0, t1, t2); }
    if checked: seq<Event> :| checked <= t2 && MayCommit(states, t1, checked, config, observed) {
      UncommandedTransitive(t0, t1, checked);
      var m: nat :| RealisedAt(t1, checked, config, observed, m) && SettledSince(states, checked, m);
      assert RealisedAt(t0, checked, config, observed, m);
      assert MayCommit(states, t0, checked, config, observed);
    }
  }

  /** The tree `seen` reads back as the request, wherever intervals are not being tuned. */
  ghost predicate Realises(sys: Sysfs, config: DamonConfig, observed: Option<DamonConfig>, seen: Tree) {
    sys.reader(seen).Some?
    && EquivalentAfterKernelNormalization(config, AdoptTuned(config, observed, sys.reader(seen).value))
  }

  /** `config` is what some tree equal to `t`, retuned leaves apart, reads as. */
  ghost predicate ReadFrom(sys: Sysfs, t: Tree, config: DamonConfig) {
    exists seen: Tree :: Calm(sys.retuned, t, seen) && sys.reader(seen) == Some(config)
  }

  method RetryStageFrom(h: ManagedHierarchy, config: DamonConfig, observed: Option<DamonConfig>, ghost base: Tree, ghost allowed: set<nat>)
    returns (r: Result<()>)
    requires h.Valid() && Tracked(h.sys, base, allowed) && |config.kdamonds| == |h.states|
    requires h.sys.exclusive ==> DifferOnlyIn(config, observed, allowed)
    modifies h.sys
    ensures h.Valid() && Tracked(h.sys, base, allowed) && Uncommanded(old(h.sys.trace), h.sys.trace)
    ensures h.sys.exclusive ==> h.sys.active == old(h.sys.active)
    ensures h.sys.exclusive && TargetsOnly(config, observed) ==> SameElsewhere(h.sys.schema, h.sys.retuned, old(h.sys.files), h.sys.files)
    ensures h.sys.exclusive ==> KdamondsKept(h.sys, old(h.sys.files), old(h.sys.threads), h.sys.files, h.sys.threads)
    ensures Undisputed(h, old(h.sys.files), old(h.sys.threads)) ==> StagingEnds(h.sys.trace, |old(h.sys.trace)|, config, observed, r)
    ensures r.Err? ==> !r.error.Rollback?
  {
    hide SysfsModel.Sysfs.Valid, RunInvariant, Sorted, Tracked, DifferOnlyIn, Uncommanded, SameElsewhere, TargetsOnly,
         KdamondsKept, Undisputed;
    var retries := 0;
    r := StageOnce(h, config, observed, base, allowed);
    while r.Err? && r.error.Busy? && retries < MAX_RETRIES
      invariant h.Valid() && Tracked(h.sys, base, allowed) && Uncommanded(old(h.sys.trace), h.sys.trace)
      invariant h.sys.exclusive ==> h.sys.active == old(h.sys.active)
      invariant h.sys.exclusive && TargetsOnly(config, observed) ==> SameElsewhere(h.sys.schema, h.sys.retuned, old(h.sys.files), h.sys.files)
      invariant h.sys.exclusive ==> KdamondsKept(h.sys, old(h.sys.files), old(h.sys.threads), h.sys.files, h.sys.threads)
      invariant Undisputed(h, old(h.sys.files), old(h.sys.threads)) ==> StagingEnds(h.sys.trace, |old(h.sys.trace)|, config, observed, r)
      invariant r.Err? ==> !r.error.Rollback?
      decreases MAX_RETRIES - retries
    {
      ghost var before, files, threads := h.sys.trace, h.sys.files, h.sys.threads;
      UndisputedKept(h, old(h.sys.files), old(h.sys.threads), files, threads);
      r := StageOnce(h, config, observed, base, allowed);
      UncommandedTransitive(old(h.sys.trace), before, h.sys.trace);
      UncommandedExtends(old(h.sys.trace), before);
      if h.sys.exclusive { KdamondsKeptTransitive(h.sys, old(h.sys.files), old(h.sys.threads), files, threads, h.sys.files, h.sys.threads); }
      if h.sys.exclusive && TargetsOnly(config, observed) {
        SameElsewhereTransitive(h.sys.schema, h.sys.retuned, old(h.sys.files), files, h.sys.files);
      }
      retries := retries + 1;
    }
  }

  /** Every attempt begins by checking that the running kdamonds are still this session's. */
  method StageOnce(h: ManagedHierarchy, config: DamonConfig, observed: Option<DamonConfig>, ghost base: Tree, ghost allowed: set<nat>)
    returns (r: Result<()>)
    requires h.Valid() && Tracked(h.sys, base, allowed) && |config.kdamonds| == |h.states|
    requires h.sys.exclusive ==> DifferOnlyIn(config, observed, allowed)
    modifies h.sys
    ensures h.Valid() && Tracked(h.sys, base, allowed) && Uncommanded(old(h.sys.trace), h.sys.trace)
    ensures h.sys.exclusive ==> h.sys.active == old(h.sys.active)
    ensures h.sys.exclusive && TargetsOnly(config, observed) ==> SameElsewhere(h.sys.schema, h.sys.retuned, old(h.sys.files), h.sys.files)
    ensures h.sys.exclusive ==> KdamondsKept(h.sys, old(h.sys.files), old(h.sys.threads), h.sys.files, h.sys.threads)
    ensures Undisputed(h, old(h.sys.files), old(h.sys.threads)) ==> StagingEnds(h.sys.trace, |old(h.sys.trace)|, config, observed, r)
    ensures r.Err? ==> !r.error.Rollback?
  {
    hide RunInvariant, Sorted, Covered, BelowSome, DifferOnlyIn, Looked, Consistent, Schema.Valid, Uncommanded,
         SeenAs, SameElsewhere, TargetsOnly, ReadersLawful, KdamondsKept, AllFit;
    ghost var t0, j0, threads0 := h.sys.files, h.sys.journal, h.sys.threads;
    if Undisputed(h, t0, threads0) { UndisputedIsAlive(h); }
    r := h.VerifyOwnedIdentitiesOnly();
    ghost var checked := h.sys.trace;
    LookedIsUncommanded(old(h.sys.trace), checked);
    TrackedByDrift(h.sys, base, allowed, t0, j0);
    if h.sys.exclusive {
      CalmIsSameElsewhere(h.sys.schema, h.sys.retuned, t0, h.sys.files);
      DriftKeepsKdamonds(h.sys, t0, threads0);
    }
    LookedExtends(old(h.sys.trace), checked);
    if r.Err? { return; }
    if h.sys.exclusive { CountByDrift(h.sys, t0); }
    ghost var files, threads := h.sys.files, h.sys.threads;
    r := StageFrom(h, config, observed, base, allowed);
    UncommandedTransitive(old(h.sys.trace), checked, h.sys.trace);
    if h.sys.exclusive { KdamondsKeptTransitive(h.sys, t0, threads0, files, threads, h.sys.files, h.sys.threads); }
    if h.sys.exclusive && TargetsOnly(config, observed) {
      SameElsewhereTransitive(h.sys.schema, h.sys.retuned, t0, files, h.sys.files);
    }
  }

  lemma CountByDrift(sys: Sysfs, t: Tree)
    requires sys.Valid() && Calm(sys.retuned, t, sys.files)
    ensures CountOf(sys.schema, t, sys.schema.top) == CountOf(sys.schema, sys.files, sys.schema.top)
  {
    assert IsReconstructionCount(sys.schema.top);
  }

  /** The configuration left staged: without the targets the commit removed. */
  function Settled(config: DamonConfig, selected: seq<nat>): (settled: DamonConfig)
    requires forall i | i in selected :: i < |config.kdamonds|
    ensures |settled.kdamonds| == |config.kdamonds|
  {
    if ContainsObsolete(config, selected) then WithoutObsolete(config, selected) else config
  }

  /** What a successful update leaves behind. The kdamonds selected run what `seen` staged
      for them, which reads back as the request; the hierarchy now staged reads back as
      the request without its obsolete targets, and differs from what was committed in
      target leaves at most. */
  ghost predicate Updated(sys: Sysfs, config: DamonConfig, observed: Option<DamonConfig>, selected: seq<nat>, seen: Tree, final: Tree, ownership: StagedOwnership)
    requires forall i | i in selected :: i < |config.kdamonds|
    reads sys
  {
    && Realises(sys, config, observed, seen)
    && Realises(sys, Settled(config, selected), if ContainsObsolete(config, selected) then Some(config) else observed, final)
    && IsCapture(sys.schema, ownership.entries)
    && ownership == Ownership(sys.schema, ownership.entries, Settled(config, selected))
    && (!ContainsObsolete(config, selected) ==> final == seen)
    && (sys.exclusive ==>
          && (forall i | i in selected :: RunsAsStaged(sys.schema, sys.retuned, sys.active, seen, i))
          && SameElsewhere(sys.schema, sys.retuned, seen, final)
          && Calm(sys.retuned, final, sys.files)
          && Agrees(ownership.entries, ownership.volatile + sys.retuned, sys.files))
  }

  /** `StagedOwnership::verify` for an ownership about to be adopted. */
  method VerifyOwnership(h: ManagedHierarchy, ownership: StagedOwnership) returns (r: Result<()>)
    requires h.Valid()
    modifies h.sys
    ensures h.Valid() && h.sys.Still() && Looked(old(h.sys.trace), h.sys.trace)
    ensures r.Ok? && h.sys.exclusive ==> Agrees(ownership.entries, ownership.volatile + h.sys.retuned, h.sys.files)
    ensures (r.Err? && h.sys.exclusive && h.sys.retuned <= ownership.volatile
             && old(Agrees(ownership.entries, ownership.volatile + h.sys.retuned, h.sys.files))) ==> r.error.ClearsValues()
    ensures (h.sys.steady && h.sys.exclusive && h.sys.retuned == {} && old(Agrees(ownership.entries, ownership.volatile + h.sys.retuned, h.sys.files))
             && CountOf(h.sys.schema, old(h.sys.files), h.sys.schema.top) == ownership.count) ==> r.Ok?
    ensures r.Err? ==> !r.error.Rollback?
  {
    hide SysfsModel.Sysfs.Valid, RunInvariant, Sorted, Looked;
    ghost var f0 := h.sys.files;
    var count := h.ReadCountLooking();
    if count.Err? { return Err(count.error); }
    if count.value != ownership.count { return Err(OwnershipLost(CountChanged)); }
    if h.sys.exclusive && Agrees(ownership.entries, ownership.volatile + h.sys.retuned, f0) {
      AgreesByDrift(ownership.entries, ownership.volatile + h.sys.retuned, h.sys.retuned, f0, h.sys.files);
    }
    var matches := MatchesCurrentExcept(h.sys, ownership.entries, ownership.volatile);
    r := if matches.Err? then Err(matches.error)
         else if !matches.value then Err(OwnershipLost(ValuesChanged))
         else Ok(());
  }

  /** Stages the request, checks the readback and the running identities, and commits. Whatever
      interferes, nothing is committed unless that check came first and nothing was written after it. */
  method StageAndCommit(h: ManagedHierarchy, config: DamonConfig, observed: Option<DamonConfig>, selected: seq<nat>, ghost base: Tree, ghost allowed: set<nat>)
    returns (r: Result<()>, snapshot: seq<Entry>, ghost seen: Tree)
    requires h.Valid() && Tracked(h.sys, base, allowed) && |config.kdamonds| == |h.states|
    requires h.sys.exclusive ==> DifferOnlyIn(config, observed, allowed)
    modifies h.sys
    ensures h.Valid() && Tracked(h.sys, base, allowed)
    ensures h.sys.exclusive ==> SparesOthers(old(h.sys.active), h.sys.active, selected)
    ensures CommitsFollowCheck(h.states, old(h.sys.trace), h.sys.trace, config, observed)
    ensures r.Ok? ==> Realises(h.sys, config, observed, seen) && IsCapture(h.sys.schema, snapshot)
    ensures r.Ok? && h.sys.exclusive ==>
              && Calm(h.sys.retuned, seen, h.sys.files) && Calm(h.sys.retuned, Values(snapshot), h.sys.files)
              && forall i | i in selected :: RunsAsStaged(h.sys.schema, h.sys.retuned, h.sys.active, seen, i)
    ensures h.sys.exclusive ==> KdamondsKept(h.sys, old(h.sys.files), old(h.sys.threads), h.sys.files, h.sys.threads)
    ensures Undisputed(h, old(h.sys.files), old(h.sys.threads)) && (forall i | i in selected :: h.OwnedPidOf(i).Some?) && StagedWell(h.sys.trace, |old(h.sys.trace)|, true) ==>
              r.Ok?
    ensures r.Err? ==> !r.error.Rollback?
  {
    hide SysfsModel.Sysfs.Valid, RunInvariant, Sorted, Covered, BelowSome, DifferOnlyIn, Looked, Realises,
         RunsAsStaged, Consistent, Values, Uncommanded, SeenAs, ConfirmedCommit, ReadRealised, MayCommit,
         SparesOthers, AllFit, KdamondsKept, Undisputed, StagedWell, Misread, StagingEnds;
    ghost var f0, th0 := h.sys.files, h.sys.threads;
    NothingChanges(h.sys);
    if Undisputed(h, f0, th0) { UndisputedIsAlive(h); }
    snapshot, seen := [], map[];
    SparesNothing(h.sys.active, selected);
    ghost var start := h.sys.trace;
    r := h.VerifyOwnedIdentitiesOnly();
    LookedIsUncommanded(start, h.sys.trace);
    UncommandedExtends(start, h.sys.trace);
    TrackedByDrift(h.sys, base, allowed, old(h.sys.files), old(h.sys.journal));
    if h.sys.exclusive { DriftKeepsKdamonds(h.sys, f0, th0); }
    UndisputedKept(h, f0, th0, h.sys.files, h.sys.threads);
    if r.Err? { return; }
    ghost var began, fb, thb := h.sys.trace, h.sys.files, h.sys.threads;
    r := RetryStageFrom(h, config, observed, base, allowed);
    UncommandedTransitive(start, began, h.sys.trace);
    UncommandedExtends(start, h.sys.trace);
    ghost var files0, journal0, threads0, staged, outcome := h.sys.files, h.sys.journal, h.sys.threads, h.sys.trace, r;
    UncommandedExtends(start, began);
    if h.sys.exclusive { KdamondsKeptTransitive(h.sys, f0, th0, fb, thb, files0, threads0); }
    UndisputedKept(h, f0, th0, files0, threads0);
    LookedNothing(staged);
    if r.Err? {
      if Undisputed(h, f0, th0) {
        StagingEndsEarlier(staged, |start|, |began|, config, observed, r);
        StagedBadly(|start|, staged, staged, config, observed, r, true);
      }
      return;
    }
    snapshot, seen, r := CheckStaged(h, config, observed, start);
    TrackedByDrift(h.sys, base, allowed, files0, journal0);
    ghost var checked := h.sys.trace;
    UncommandedExtends(start, checked);
    if h.sys.exclusive {
      DriftKeepsKdamonds(h.sys, files0, threads0);
      KdamondsKeptTransitive(h.sys, f0, th0, files0, threads0, h.sys.files, h.sys.threads);
    }
    UndisputedKept(h, f0, th0, h.sys.files, h.sys.threads);
    if r.Err? {
      if Undisputed(h, f0, th0) {
        StagingEndsEarlier(staged, |start|, |began|, config, observed, outcome);
        StagedBadly(|start|, staged, checked, config, observed, outcome, true);
      }
      return;
    }
    ghost var files2, threads2 := h.sys.files, h.sys.threads;
    r := CommitSelected(h, selected);
    assert checked <= h.sys.trace;
    if h.sys.exclusive { KdamondsKeptTransitive(h.sys, f0, th0, files2, threads2, h.sys.files, h.sys.threads); }
    TrackedByDrift(h.sys, base, allowed, files0, journal0);
    if r.Ok? && h.sys.exclusive {
      forall i | i in selected ensures RunsAsStaged(h.sys.schema, h.sys.retuned, h.sys.active, seen, i) {
        CalmWidens(h.sys.retuned, h.sys.retuned, seen, h.sys.files);
        RunsByDrift(h.sys.schema, h.sys.retuned, h.sys.active, h.sys.files, seen, i);
      }
    }
  }

  /** The readback and identity checks between staging and committing. */
  method CheckStaged(h: ManagedHierarchy, config: DamonConfig, observed: Option<DamonConfig>, ghost start: seq<Event>)
    returns (snapshot: seq<Entry>, ghost seen: Tree, r: Result<()>)
    requires h.Valid() && Uncommanded(start, h.sys.trace)
    modifies h.sys
    ensures h.Valid() && h.sys.Still() && Uncommanded(start, h.sys.trace)
    ensures r.Ok? ==> MayCommit(h.states, start, h.sys.trace, config, observed)
    ensures r.Ok? ==> Realises(h.sys, config, observed, seen) && IsCapture(h.sys.schema, snapshot)
    ensures r.Ok? && h.sys.exclusive ==> Calm(h.sys.retuned, seen, h.sys.files) && Calm(h.sys.retuned, Values(snapshot), h.sys.files)
    ensures Looked(old(h.sys.trace), h.sys.trace)
    ensures Undisputed(h, old(h.sys.files), old(h.sys.threads)) && r.Err? ==> Misread(old(h.sys.trace), h.sys.trace, config, observed, true)
    ensures r.Err? ==> !r.error.Rollback?
  {
    hide SysfsModel.Sysfs.Valid, RunInvariant, Sorted, Looked, Realises, Consistent, Values, Uncommanded, SeenAs,
         ReadRealised, MayCommit, Misread, AllFit, KdamondsKept, Undisputed;
    ghost var files0, threads0 := h.sys.files, h.sys.threads;
    if Undisputed(h, files0, threads0) { UndisputedIsAlive(h); }
    snapshot, seen := [], map[];
    ghost var t0 := h.sys.trace;
    r := h.VerifyOwnedIdentitiesOnly();
    ghost var t1 := h.sys.trace;
    LookedIsUncommanded(t0, t1);
    UncommandedTransitive(start, t0, t1);
    if h.sys.exclusive { DriftKeepsKdamonds(h.sys, files0, threads0); }
    UndisputedKept(h, files0, threads0, h.sys.files, h.sys.threads);
    if r.Err? { return; }
    var captured, seen' := ReadBack(h, config, observed);
    seen := seen';
    ghost var t2 := h.sys.trace;
    LookedIsUncommanded(t1, t2);
    LookedTransitive(t0, t1, t2);
    LookedExtends(t0, t1);
    if h.sys.exclusive { DriftKeepsKdamonds(h.sys, files0, threads0); }
    UndisputedKept(h, files0, threads0, h.sys.files, h.sys.threads);
    UncommandedTransitive(start, t1, t2);
    if captured.Err? && Misread(t1, t2, config, observed, true) { MisreadEarlier(t0, t1, t2, t2, config, observed, true); }
    if captured.Err? { return snapshot, seen, Err(captured.error); }
    snapshot := captured.value;
    if Undisputed(h, h.sys.files, h.sys.threads) { UndisputedIsAlive(h); }
    r := h.VerifyOwnedIdentitiesOnly();
    LookedIsUncommanded(t2, h.sys.trace);
    LookedTransitive(t0, t2, h.sys.trace);
    UncommandedTransitive(start, t2, h.sys.trace);
    if r.Ok? { CheckedNow(h.states, start, t1, t2, h.sys.trace, config, observed); }
  }

  /** A capture agrees with the tree it was just taken from. */
  lemma CaptureAgrees(sys: Sysfs, entries: seq<Entry>, ignored: set<Path>)
    requires Sorted(entries) && Calm(sys.retuned, Values(entries), sys.files) && sys.retuned <= ignored
    ensures Agrees(entries, ignored, sys.files)
  {
    forall e | e in entries && e.path !in ignored ensures e.path in sys.files && sys.files[e.path] == e.value {
      assert Values(entries)[e.path] == e.value;
    }
  }

  lemma CleanedDiffersOnlyIn(config: DamonConfig, selected: seq<nat>)
    requires forall i | i in selected :: i < |config.kdamonds|
    ensures DifferOnlyIn(WithoutObsolete(config, selected), Some(config), set i | i in selected)
    ensures TargetsOnly(WithoutObsolete(config, selected), Some(config))
  {
  }

  /** After the commit: rebuilds the targets that remain, so that no marker stays staged. */
  method StageCleaned(h: ManagedHierarchy, config: DamonConfig, selected: seq<nat>, ghost base: Tree, ghost allowed: set<nat>)
    returns (r: Result<StagedOwnership>, ghost final: Tree)
    requires h.Valid() && Tracked(h.sys, base, allowed) && |config.kdamonds| == |h.states|
    requires (forall i | i in selected :: i < |config.kdamonds|) && allowed == set i | i in selected
    modifies h.sys
    ensures h.Valid() && Tracked(h.sys, base, allowed) && Uncommanded(old(h.sys.trace), h.sys.trace)
    ensures h.sys.exclusive ==> h.sys.active == old(h.sys.active)
    ensures r.Ok? && h.sys.exclusive ==> SameElsewhere(h.sys.schema, h.sys.retuned, old(h.sys.files), final)
    ensures r.Ok? ==>
              && Realises(h.sys, WithoutObsolete(config, selected), Some(config), final) && IsCapture(h.sys.schema, r.value.entries)
              && r.value == Ownership(h.sys.schema, r.value.entries, WithoutObsolete(config, selected))
    ensures r.Ok? && h.sys.exclusive ==>
              && Calm(h.sys.retuned, final, h.sys.files)
              && Agrees(r.value.entries, r.value.volatile + h.sys.retuned, h.sys.files)
    ensures h.sys.exclusive ==> KdamondsKept(h.sys, old(h.sys.files), old(h.sys.threads), h.sys.files, h.sys.threads)
    ensures Undisputed(h, old(h.sys.files), old(h.sys.threads)) && StagedWell(h.sys.trace, |old(h.sys.trace)|, true) ==> r.Ok?
    ensures r.Err? ==> !r.error.Rollback?
  {
    CleanedDiffersOnlyIn(config, selected);
    var cleaned := WithoutObsolete(config, selected);
    hide SysfsModel.Sysfs.Valid, RunInvariant, Sorted, Covered, BelowSome, DifferOnlyIn, Realises, Agrees, Consistent,
         Values, WithoutObsolete, VolatilePaths, Uncommanded, MayCommit, SameElsewhere, TargetsOnly, KdamondsKept,
         Undisputed, StagedWell, StagingEnds, Misread, Looked;
    ghost var f0, th0 := h.sys.files, h.sys.threads;
    final := map[];
    ghost var start := h.sys.trace;
    var staged := RetryStageFrom(h, cleaned, Some(config), base, allowed);
    ghost var files0, journal0, threads0, middle, outcome := h.sys.files, h.sys.journal, h.sys.threads, h.sys.trace, staged;
    LookedNothing(middle);
    UndisputedKept(h, f0, th0, files0, threads0);
    if staged.Err? {
      if Undisputed(h, f0, th0) { StagedBadly(|start|, middle, middle, cleaned, Some(config), staged, true); }
      return Err(staged.error), final;
    }
    var snapshot;
    snapshot, final, staged := CheckStaged(h, cleaned, Some(config), start);
    TrackedByDrift(h.sys, base, allowed, files0, journal0);
    if h.sys.exclusive {
      DriftKeepsKdamonds(h.sys, files0, threads0);
      KdamondsKeptTransitive(h.sys, f0, th0, files0, threads0, h.sys.files, h.sys.threads);
    }
    UndisputedKept(h, f0, th0, h.sys.files, h.sys.threads);
    if staged.Err? {
      if Undisputed(h, f0, th0) { StagedBadly(|start|, middle, h.sys.trace, cleaned, Some(config), outcome, true); }
      return Err(staged.error), final;
    }
    ghost var files1, threads1 := h.sys.files, h.sys.threads;
    if h.sys.exclusive {
      CaptureAgrees(h.sys, snapshot, VolatilePaths(h.sys.schema, cleaned) + h.sys.retuned);
      CalmWidens(h.sys.retuned, h.sys.retuned, final, h.sys.files);
      CalmTransitive(h.sys.retuned, files0, h.sys.files, final);
      CalmIsSameElsewhere(h.sys.schema, h.sys.retuned, files0, final);
      SameElsewhereTransitive(h.sys.schema, h.sys.retuned, old(h.sys.files), files0, final);
    }
    ghost var checked := h.sys.trace;
    r := Conclude(h, cleaned, snapshot);
    if h.sys.exclusive { KdamondsKeptTransitive(h.sys, f0, th0, files1, threads1, h.sys.files, h.sys.threads); }
    LookedIsUncommanded(checked, h.sys.trace);
    UncommandedTransitive(start, checked, h.sys.trace);
    TrackedByDrift(h.sys, base, allowed, files0, journal0);
  }

  method Conclude(h: ManagedHierarchy, config: DamonConfig, snapshot: seq<Entry>) returns (r: Result<StagedOwnership>)
    requires h.Valid()
    modifies h.sys
    ensures h.Valid() && h.sys.Still() && Looked(old(h.sys.trace), h.sys.trace)
    ensures r.Ok? ==> r.value == Ownership(h.sys.schema, snapshot, config)
    ensures r.Ok? && h.sys.exclusive ==> Agrees(r.value.entries, r.value.volatile + h.sys.retuned, h.sys.files)
    ensures (r.Err? && h.sys.exclusive && h.sys.retuned <= VolatilePaths(h.sys.schema, config)
             && old(Agrees(snapshot, VolatilePaths(h.sys.schema, config) + h.sys.retuned, h.sys.files))) ==> r.error.ClearsValues()
    ensures (Undisputed(h, old(h.sys.files), old(h.sys.threads)) && |config.kdamonds| == |h.states| && old(Agrees(snapshot, VolatilePaths(h.sys.schema, config) + h.sys.retuned, h.sys.files))) ==>
              r.Ok?
    ensures h.sys.exclusive ==> KdamondsKept(h.sys, old(h.sys.files), old(h.sys.threads), h.sys.files, h.sys.threads)
    ensures r.Err? ==> !r.error.Rollback?
  {
    hide SysfsModel.Sysfs.Valid, RunInvariant, Sorted, VolatilePaths, Agrees, AllFit;
    ghost var files0, threads0 := h.sys.files, h.sys.threads;
    var ownership := Ownership(h.sys.schema, snapshot, config);
    var verified := VerifyOwnership(h, ownership);
    if h.sys.exclusive { DriftKeepsKdamonds(h.sys, files0, threads0); }
    r := if verified.Ok? then Ok(ownership) else Err(verified.error);
  }

  method StageAndCommitRunning(h: ManagedHierarchy, config: DamonConfig, observed: DamonConfig, selected: seq<nat>, ghost base: Tree, ghost allowed: set<nat>)
    returns (r: Result<StagedOwnership>, ghost seen: Tree, ghost final: Tree)
    requires h.Valid() && Tracked(h.sys, base, allowed) && |config.kdamonds| == |h.states|
    requires (forall i | i in selected :: i < |config.kdamonds|) && allowed == set i | i in selected
    requires DifferOnlyIn(config, Some(observed), allowed)
    modifies h.sys
    ensures h.Valid() && Tracked(h.sys, base, allowed)
    ensures h.sys.exclusive ==> SparesOthers(old(h.sys.active), h.sys.active, selected)
    ensures CommitsFollowCheck(h.states, old(h.sys.trace), h.sys.trace, config, Some(observed))
    ensures r.Ok? ==> Updated(h.sys, config, Some(observed), selected, seen, final, r.value)
    ensures h.sys.exclusive ==> KdamondsKept(h.sys, old(h.sys.files), old(h.sys.threads), h.sys.files, h.sys.threads)
    ensures Undisputed(h, old(h.sys.files), old(h.sys.threads)) && (forall i | i in selected :: h.OwnedPidOf(i).Some?) && StagedWell(h.sys.trace, |old(h.sys.trace)|, true) ==>
              r.Ok?
    ensures old(h.sys.trace) <= h.sys.trace
    ensures r.Err? ==> !r.error.Rollback?
  {
    hide SysfsModel.Sysfs.Valid, RunInvariant, Sorted, Covered, BelowSome, DifferOnlyIn, Looked, Realises,
         RunsAsStaged, Agrees, Consistent, Values, WithoutObsolete, ContainsObsolete, VolatilePaths, Uncommanded,
         CommitsFollowCheck, SameElsewhere, KdamondsKept, Undisputed, StagedWell, AllFit;
    final := map[];
    ghost var f0, th0 := h.sys.files, h.sys.threads;
    ghost var start := h.sys.trace;
    var committed, snapshot, seen' := StageAndCommit(h, config, Some(observed), selected, base, allowed);
    seen := seen';
    ghost var middle, files1, threads1 := h.sys.trace, h.sys.files, h.sys.threads;
    FollowsExtends(h.states, start, middle, config, Some(observed));
    if committed.Err? { return Err(committed.error), seen, final; }
    UndisputedKept(h, f0, th0, files1, threads1);
    if h.sys.exclusive { CalmIsSameElsewhere(h.sys.schema, h.sys.retuned, seen, files1); }
    SameNow(h.sys.schema, h.sys.retuned, seen);
    if ContainsObsolete(config, selected) {
      var cleaned, final' := StageCleaned(h, config, selected, base, allowed);
      r, final := cleaned, final';
      if r.Ok? && h.sys.exclusive { SameElsewhereTransitive(h.sys.schema, h.sys.retuned, seen, files1, final); }
    } else {
      ghost var files0, journal0 := h.sys.files, h.sys.journal;
      final := seen;
      if h.sys.exclusive { CaptureAgrees(h.sys, snapshot, VolatilePaths(h.sys.schema, config) + h.sys.retuned); }
      r := Conclude(h, config, snapshot);
      LookedIsUncommanded(middle, h.sys.trace);
      TrackedByDrift(h.sys, base, allowed, files0, journal0);
    }
    FollowsUncommanded(h.states, start, middle, h.sys.trace, config, Some(observed));
    FollowsExtends(h.states, start, h.sys.trace, config, Some(observed));
    if StagedWell(h.sys.trace, |start|, true) { StagedWellEarlier(h.sys.trace, h.sys.trace, |start|, |middle|, true); }
    if h.sys.exclusive { KdamondsKeptTransitive(h.sys, f0, th0, files1, threads1, h.sys.files, h.sys.threads); }
  }
}
