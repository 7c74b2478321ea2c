/** On-demand snapshots: a private query is committed online, materialized and taken out again
    by a second online update. */
module SnapshotQueries {
  import opened Outcomes
  import opened Paths
  import opened KernelTree
  import opened Config
  import opened TuningGoals
  import opened SysfsModel
  import opened Traces
  import opened Snapshots
  import opened Hierarchy
  import opened Updates
  import opened OnlineUpdates
  import opened Equivalence
  import opened Readbacks
  import opened StagingRecords
  import opened Validity
  import opened Transactions
  import opened Sessions
  import opened RuntimeBatches
  import opened Standing

  datatype Scope = TargetScope(index: nat, pid: Option<nat>) | SchemeScope

  datatype Descriptor = Descriptor(schemeIndex: nat, scope: Scope)

  datatype ScopedSnapshot = ScopedSnapshot(scope: Scope, regions: seq<Region>)

  // ---------- the query configuration ----------

  const NO_QUOTA: QuotaConfig := QuotaConfig(0, 0, 0, Weights(0, 0, 0), [], ConsistentTuner, 0, 0)
  const NO_WATERMARKS: WatermarksConfig := WatermarksConfig("none", 0, 0, 0, 0)

  /** A statistics scheme that matches every region. */
  function QueryScheme(applyInterval: nat): SchemeConfig {
    SchemeConfig(Stat, AccessPattern(0, U64_MAX, (0, U32_MAX), (0, U32_MAX)), applyInterval, None, NO_QUOTA, NO_WATERMARKS, [], [], 0)
  }

  function TargetFilter(index: nat): FilterConfig {
    FilterConfig(Adaptive, TargetIndex, false, false, None, None, None, Some(index), None)
  }

  /** The scheme that answers for one scope. */
  function SchemeFor(scope: Scope, isolated: bool, applyInterval: nat): SchemeConfig {
    match scope
    case TargetScope(index, _) =>
      if isolated then QueryScheme(applyInterval).(filters := [TargetFilter(index)]) else QueryScheme(applyInterval)
    case SchemeScope => QueryScheme(applyInterval)
  }

  /** Whether a scheme looks at the regions of a target: a filter lets in what it allows, and
      leaves out what it does not; its own target is what it concerns when it matches, every
      other one when it does not. */
  predicate LooksAt(s: SchemeConfig, target: nat) {
    forall f | f in s.filters && f.filterType.TargetIndex? && f.targetIndex.Some? && f.matching == (f.targetIndex.value == target) :: f.allow
  }

  /** A query looks at its own target alone, or at all of them, whatever their size, age and
      activity; it limits nothing, changes nothing, and may run wherever statistics may. */
  lemma QueryLooksAtItsScope(scope: Scope, isolated: bool, applyInterval: nat, target: nat, operation: Operation, targets: nat)
    ensures var s := SchemeFor(scope, isolated, applyInterval);
            && (LooksAt(s, target) <==> scope.SchemeScope? || !isolated || scope.index == target)
            && s.action == Stat && s.pattern.sizeMin == 0 && s.pattern.sizeMax == U64_MAX
            && s.pattern.accesses == (0, U32_MAX) && s.pattern.age == (0, U32_MAX)
            && (RunnableScheme(s, operation, targets) <==>
                  applyInterval <= U64_MAX && (scope.TargetScope? && isolated ==> scope.index < targets && scope.index <= I32_MAX))
  {
    var s := SchemeFor(scope, isolated, applyInterval);
    if scope.TargetScope? && isolated { assert TargetFilter(scope.index) in s.filters; }
    assert ValidToken("none");
  }

  /** The schemes of the one context monitored. */
  function Schemes(config: DamonConfig): seq<SchemeConfig>
    requires config.kdamonds != [] && config.kdamonds[0].contexts != []
  {
    config.kdamonds[0].contexts[0].schemes
  }

  function WithSchemes(config: DamonConfig, schemes: seq<SchemeConfig>): (r: DamonConfig)
    requires config.kdamonds != [] && config.kdamonds[0].contexts != []
    ensures r.kdamonds != [] && r.kdamonds[0].contexts != [] && Schemes(r) == schemes
    ensures |r.kdamonds| == |config.kdamonds| && forall i | 0 < i < |r.kdamonds| :: r.kdamonds[i] == config.kdamonds[i]
  {
    var k := config.kdamonds[0];
    var c := k.contexts[0].(schemes := schemes);
    DamonConfig(config.kdamonds[0 := k.(contexts := k.contexts[0 := c])])
  }

  /** The private schemes that answer for the given scopes. */
  function QuerySchemes(scopes: seq<Scope>, isolated: bool, applyInterval: nat): (schemes: seq<SchemeConfig>)
    ensures |schemes| == |scopes| && forall n | 0 <= n < |scopes| :: schemes[n] == SchemeFor(scopes[n], isolated, applyInterval)
  {
    seq(|scopes|, n requires 0 <= n < |scopes| => SchemeFor(scopes[n], isolated, applyInterval))
  }

  /** A runnable configuration stays runnable with queries for targets it keeps. */
  lemma QueriesKeepRunnable(base: DamonConfig, scopes: seq<Scope>, isolated: bool, applyInterval: nat, page: nat)
    requires 0 < page && Runnable(base, true, page) && applyInterval <= U64_MAX && |Schemes(base)| + |scopes| <= I32_MAX
    requires forall s | s in scopes && s.TargetScope? && isolated :: s.index < |Retained(base.kdamonds[0].contexts[0].targets)|
    ensures Runnable(WithSchemes(base, Schemes(base) + QuerySchemes(scopes, isolated, applyInterval)), true, page)
  {
    var c, added := base.kdamonds[0].contexts[0], QuerySchemes(scopes, isolated, applyInterval);
    assert base.kdamonds[0] in base.kdamonds && RunnableContext(c, true, page);
    AllRetained(c.targets);
    var kept := |Retained(c.targets)|;
    forall s | s in added ensures RunnableScheme(s, c.operation, kept) && ValidScheme(s, |c.targets|) {
      var n :| 0 <= n < |added| && added[n] == s;
      assert scopes[n] in scopes;
      QueryLooksAtItsScope(scopes[n], isolated, applyInterval, 0, c.operation, kept);
      QueryLooksAtItsScope(scopes[n], isolated, applyInterval, 0, c.operation, |c.targets|);
    }
    WithSchemesRunnable(base, Schemes(base) + added, page);
  }

  /** Probe weights are judged apart from schemes. */
  lemma WeightsAside(c: ContextConfig, schemes: seq<SchemeConfig>)
    ensures WeightsFit(c.(schemes := schemes)) == WeightsFit(c)
  {
  }

  lemma WithSchemesRunnable(base: DamonConfig, schemes: seq<SchemeConfig>, page: nat)
    requires 0 < page && Runnable(base, true, page) && |schemes| <= I32_MAX
    requires var c := base.kdamonds[0].contexts[0];
             forall s | s in schemes :: RunnableScheme(s, c.operation, |Retained(c.targets)|) && ValidScheme(s, |c.targets|)
    ensures Runnable(WithSchemes(base, schemes), true, page)
  {
    hide ValidScheme, RunnableScheme, WeightsFit, Retained, ValidTarget, ValidProbe, ValidSampleFilter;
    var config := WithSchemes(base, schemes);
    assert base.kdamonds[0] in base.kdamonds;
    forall k | k in config.kdamonds ensures k.refreshInterval <= U32_MAX && |k.contexts| == 1 && RunnableContext(k.contexts[0], true, page) {
      var i :| 0 <= i < |config.kdamonds| && config.kdamonds[i] == k;
      if i == 0 {
        WeightsAside(base.kdamonds[0].contexts[0], schemes);
      } else {
        assert k == base.kdamonds[i] && base.kdamonds[i] in base.kdamonds;
      }
    }
  }

  /** Appends one private scheme per answer wanted: one for a single target, one for each
      target when they can be told apart, one for all of them otherwise. */
  method SnapshotQueryConfiguration(base: DamonConfig, targets: seq<Scope>, applyInterval: nat, isolate: bool)
    returns (config: DamonConfig, descriptors: seq<Descriptor>)
    requires base.kdamonds != [] && base.kdamonds[0].contexts != [] && forall t | t in targets :: t.TargetScope?
    ensures config.kdamonds != [] && config.kdamonds[0].contexts != [] && config == WithSchemes(base, Schemes(config))
    ensures Schemes(base) <= Schemes(config) && |Schemes(config)| == |Schemes(base)| + |descriptors|
    ensures forall n | 0 <= n < |descriptors| ::
              && descriptors[n].schemeIndex == |Schemes(base)| + n
              && Schemes(config)[|Schemes(base)| + n] == SchemeFor(descriptors[n].scope, isolate && |targets| != 1, applyInterval)
    ensures |targets| == 1 || isolate ==> |descriptors| == |targets| && forall n | 0 <= n < |targets| :: descriptors[n].scope == targets[n]
    ensures |targets| != 1 && !isolate ==> |descriptors| == 1 && descriptors[0].scope == SchemeScope
    ensures |targets| > 0 || !isolate ==> config != base
    ensures NoMarks(base) ==> NoMarks(config)
  {
    var first := |Schemes(base)|;
    var schemes := Schemes(base);
    descriptors := [];
    if |targets| == 1 {
      schemes := schemes + [QueryScheme(applyInterval)];
      descriptors := [Descriptor(first, targets[0])];
    } else if isolate {
      for n := 0 to |targets|
        invariant |descriptors| == n && Schemes(base) <= schemes && |schemes| == first + n
        invariant forall m | 0 <= m < n ::
                    && descriptors[m] == Descriptor(first + m, targets[m])
                    && schemes[first + m] == SchemeFor(targets[m], true, applyInterval)
      {
        assert targets[n] in targets;
        descriptors := descriptors + [Descriptor(|schemes|, targets[n])];
        schemes := schemes + [SchemeFor(targets[n], true, applyInterval)];
      }
    } else {
      schemes := schemes + [QueryScheme(applyInterval)];
      descriptors := [Descriptor(first, SchemeScope)];
    }
    config := WithSchemes(base, schemes);
    SchemesMarkNothing(base, schemes);
  }

  predicate NoMarks(config: DamonConfig) {
    |config.kdamonds| == 1 && !HasObsolete(config.kdamonds[0])
  }

  lemma SchemesMarkNothing(config: DamonConfig, schemes: seq<SchemeConfig>)
    requires config.kdamonds != [] && config.kdamonds[0].contexts != []
    ensures NoMarks(config) ==> NoMarks(WithSchemes(config, schemes))
  {
    var before, after := config.kdamonds[0], WithSchemes(config, schemes).kdamonds[0];
    assert forall i | 0 <= i < |after.contexts| :: after.contexts[i].targets == before.contexts[i].targets && before.contexts[i] in before.contexts;
    assert forall c | c in after.contexts :: exists i :: 0 <= i < |after.contexts| && after.contexts[i] == c;
  }

  // ---------- the query state ----------

  datatype Query =
    | Unsupported
    | Permanent(descriptors: seq<Descriptor>)
    | OnDemand(base: DamonConfig, query: DamonConfig, descriptors: seq<Descriptor>, installed: bool)
  {
    /** The configuration that ought to stand. */
    function Current(): DamonConfig
      requires OnDemand?
    {
      if installed then query else base
    }
  }

  /** The answers are those asked for, in order. */
  predicate Answers(snapshots: seq<ScopedSnapshot>, descriptors: seq<Descriptor>) {
    |snapshots| == |descriptors| && forall n | 0 <= n < |descriptors| :: snapshots[n].scope == descriptors[n].scope
  }

  /** Reads one result of a refresh: any regions, or none. */
  method ReadRegions(sys: Sysfs) returns (r: Result<seq<Region>>)
    requires sys.Valid()
    modifies sys
    ensures sys.Valid() && sys.Quiet()
    ensures r.Err? ==> !r.error.Rollback? && !sys.steady
  {
    hide SysfsModel.Sysfs.Valid;
    var failure := sys.Attempt();
    var regions: seq<Region> := *;
    r := if failure.Some? then Err(failure.value) else Ok(regions);
    sys.Interfere();
  }

  /** One result, and the kdamond identified again. */
  method CollectOne(h: ManagedHierarchy) returns (r: Result<seq<Region>>)
    requires h.Valid()
    modifies h.sys
    ensures h.Valid() && h.sys.Still() && old(h.sys.trace) <= h.sys.trace
    ensures old(h.InOrder()) && h.OwnedPidOf(0).Some? ==> r.Ok? && h.InOrder()
    ensures r.Err? ==> !r.error.Rollback?
  {
    hide SysfsModel.Sysfs.Valid, RunInvariant, IsCapture, Looked, InStepIn, OwnedIn, AllFit;
    ghost var t, f := h.sys.trace, h.sys.files;
    if h.InOrder() { InOrderIsIntact(h); }
    r := ReadRegions(h.sys);
    IntactLater(h, f);
    if r.Ok? {
      var identified := h.VerifyRunningIdentityOnly(0);
      LookedExtends(t, h.sys.trace);
      if identified.Err? { r := Err(identified.error); }
    }
    StaysInOrder(h);
  }

  /** One refresh, and one result for each descriptor, the kdamond identified after each. */
  method CollectScoped(h: ManagedHierarchy, descriptors: seq<Descriptor>) returns (r: Result<seq<ScopedSnapshot>>)
    requires h.Valid()
    modifies h.sys
    ensures h.Valid() && h.sys.Still() && old(h.sys.trace) <= h.sys.trace
    ensures r.Ok? ==> Answers(r.value, descriptors)
    ensures old(h.InOrder()) && h.OwnedPidOf(0).Some? ==> r.Ok? && h.InOrder()
    ensures r.Err? ==> !r.error.Rollback?
  {
    hide SysfsModel.Sysfs.Valid, RunInvariant, IsCapture, Looked, ManagedHierarchy.InOrder;
    var refreshed := IssueRefresh(h, 0);
    if refreshed.Err? { return Err(refreshed.error); }
    var snapshots: seq<ScopedSnapshot> := [];
    for n := 0 to |descriptors|
      invariant h.Valid() && h.sys.Still() && old(h.sys.trace) <= h.sys.trace
      invariant |snapshots| == n && forall m | 0 <= m < n :: snapshots[m].scope == descriptors[m].scope
      invariant old(h.InOrder()) && h.OwnedPidOf(0).Some? ==> h.InOrder()
    {
      var regions := CollectOne(h);
      if regions.Err? { return Err(regions.error); }
      snapshots := snapshots + [ScopedSnapshot(descriptors[n].scope, regions.value)];
    }
    r := Ok(snapshots);
  }

  /** Asks the kernel for one result per descriptor, between two ownership checks. An answer
      counts only if the second one still finds everything as it was. */
  method MaterializeScoped(h: ManagedHierarchy, descriptors: seq<Descriptor>) returns (r: Result<seq<ScopedSnapshot>>)
    requires h.Valid()
    modifies h.sys
    ensures h.Valid() && h.sys.Still() && old(h.sys.trace) <= h.sys.trace
    ensures r.Ok? ==> Answers(r.value, descriptors) && descriptors != []
    ensures r.Ok? && h.sys.exclusive ==> Agrees(h.staged.entries, h.staged.volatile + h.sys.retuned, h.sys.files)
    ensures old(h.InOrder()) && h.OwnedPidOf(0).Some? && descriptors != [] ==> r.Ok? && h.InOrder()
    ensures r.Err? ==> !r.error.Rollback?
  {
    hide SysfsModel.Sysfs.Valid, RunInvariant, IsCapture, Looked, SeenAs, Agrees, ManagedHierarchy.InOrder;
    if descriptors == [] { return Err(InvalidConfiguration); }
    ghost var t0 := h.sys.trace;
    var checked := VerifyRunning(h, 0);
    LookedExtends(t0, h.sys.trace);
    if checked.Err? { return Err(checked.error); }
    var operation := CollectScoped(h, descriptors);
    ghost var t1 := h.sys.trace;
    checked := VerifyRunningIdentity(h, 0);
    LookedExtends(t1, h.sys.trace);
    r := if checked.Err? then Err(checked.error) else operation;
  }

  /** A session that is in step and stands by a configuration. */
  ghost predicate Serves(h: ManagedHierarchy, config: DamonConfig)
    reads h, h.sys
  {
    h.InStep() && Stands(h, config)
  }

  /** `config` was staged and run, as far as identified kdamonds go, in the given state of the kernel. */
  ghost predicate Served(h: ManagedHierarchy, config: DamonConfig, t: Tree, active: map<nat, Tree>)
    reads h`states
  {
    h.sys.exclusive ==> Stages(h.sys, config, t) && InStepIn(h.sys.schema, h.sys.retuned, h.sys.targets, h.states, active, t)
  }

  lemma ServedNow(h: ManagedHierarchy, config: DamonConfig)
    requires h.Valid() && Serves(h, config)
    ensures Served(h, config, h.sys.files, h.sys.active)
  {
    if h.sys.exclusive { StandsAndStages(h, config); }
  }

  lemma ServesLater(h: ManagedHierarchy, config: DamonConfig, t: Tree)
    requires h.Valid() && Stands(h, config) && (h.sys.exclusive ==> Calm(h.sys.retuned, t, h.sys.files))
    ensures (h.sys.exclusive ==>
               && h.staged.count == |h.states| && OwnedIn(h.sys.schema, h.sys.retuned, h.staged, t)
               && InStepIn(h.sys.schema, h.sys.retuned, h.sys.targets, h.states, h.sys.active, t)) ==> Serves(h, config)
  {
    InStepLater(h, h.states, t);
  }

  /** One running kdamond, in order, with nothing retuned and a staged tree that can be read. */
  ghost predicate Poised(h: ManagedHierarchy)
    reads h, h.sys
  {
    && h.InOrder() && h.sys.retuned == {} && h.ownsHierarchy && |h.states| == 1 && h.states[0].Running?
    && h.sys.reader(h.sys.files).Some? && forall t: Tree | h.sys.reader(t).Some? :: IsReadback(h.sys.reader(t).value)
  }

  /** With one kdamond, selected and without marked targets, there is nothing to leave alone. */
  lemma OnlyKdamondKeeps(config: DamonConfig, read: DamonConfig)
    requires NoMarks(config) && |read.kdamonds| == 1
    ensures KeepsUnselected(config, read, [0]) && MarksExisting(Effective(config, read, [0]), read)
  {
    hide KdamondRead;
    OnlyKdamond(config, read);
    var k := config.kdamonds[0];
    forall c | 0 <= c < |k.contexts| && c < |read.kdamonds[0].contexts| ensures MarksExistingIn(k.contexts[c].targets, read.kdamonds[0].contexts[c].targets) {
      assert k.contexts[c] in k.contexts;
    }
  }

  lemma ReadAsManyAsOwned(h: ManagedHierarchy)
    requires h.Valid() && h.InOrder() && h.sys.reader(h.sys.files).Some?
    ensures |h.sys.reader(h.sys.files).value.kdamonds| == |h.states|
  {
    InOrderIsIntact(h);
    assert h.sys.Valid() && ViewsGoals(h.sys.schema, h.sys.files, h.sys.reader(h.sys.files).value);
    hide ManagedHierarchy.Valid, SysfsModel.Sysfs.Valid, InStepIn, OwnedIn, AllFit, Agrees;
  }

  /** Nothing stands in the way of an update of the only kdamond. */
  lemma PoisedIsAcceptable(h: ManagedHierarchy, config: DamonConfig, page: nat)
    requires h.Valid() && 0 < page && Poised(h) && NoMarks(config) && Runnable(config, true, page)
    ensures Acceptable(h, config, [0], page, h.sys.reader(h.sys.files))
  {
    hide ManagedHierarchy.Valid, ManagedHierarchy.InOrder, Runnable, IsReadback, KeepsUnselected, MarksExisting;
    ReadAsManyAsOwned(h);
    OnlyKdamondKeeps(config, h.sys.reader(h.sys.files).value);
  }

  /** What every successful call of a monitor asks for: both configurations may run, and there is an answer to give. */
  predicate Answerable(query: Query, page: nat)
    requires 0 < page
  {
    query.OnDemand? && NoMarks(query.base) && NoMarks(query.query) && query.descriptors != []
    && Runnable(query.base, true, page) && Runnable(query.query, true, page)
  }

  /** Looking at a hierarchy with nothing retuned leaves it poised. */
  lemma StaysPoised(h: ManagedHierarchy, f0: Tree)
    requires h.InOrder() && h.sys.retuned == {} && Calm(h.sys.retuned, f0, h.sys.files) && h.sys.reader(f0).Some?
    requires h.ownsHierarchy && |h.states| == 1 && h.states[0].Running? && forall t: Tree | h.sys.reader(t).Some? :: IsReadback(h.sys.reader(t).value)
    ensures Poised(h)
  {
    CalmIsEqual(f0, h.sys.files);
  }

  /** What an update leaves can be read. */
  lemma UpdatedIsRead(h: ManagedHierarchy, config: DamonConfig, observed: Option<DamonConfig>, seen: Tree, final: Tree)
    requires |config.kdamonds| == 1 && h.sys.exclusive && h.sys.retuned == {} && Updated(h.sys, config, observed, [0], seen, final, h.staged)
    ensures h.sys.reader(h.sys.files).Some?
  {
    CalmIsEqual(final, h.sys.files);
  }

  method UpdateStanding(h: ManagedHierarchy, config: DamonConfig, page: nat, ghost standing: DamonConfig) returns (r: Result<()>)
    requires h.Valid() && 0 < page
    modifies h`staged, h.sys
    ensures h.Valid()
    ensures r.Ok? && NoMarks(config) && old(h.InStep()) ==> Serves(h, config)
    ensures r.Err? && !r.error.Rollback? && old(Serves(h, standing)) ==> Serves(h, standing)
    ensures old(h.sys.trace) <= h.sys.trace
    ensures (old(h.InOrder()) && h.sys.retuned == {} && |config.kdamonds| == 1 && Acceptable(h, config, [0], page, h.sys.reader(old(h.sys.files)))
             && StagedWell(h.sys.trace, |old(h.sys.trace)|, true)) ==> r.Ok? && h.InOrder() && h.sys.reader(h.sys.files).Some?
  {
    if |config.kdamonds| != 1 { return Err(InvalidConfiguration); }
    ghost var f0, v0, n0, served := h.sys.files, h.staged.volatile, h.staged.count, h.sys.exclusive && Serves(h, standing);
    if served {
      VolatileAsStood(h, standing);
      StandsAndStages(h, standing);
    }
    hide SysfsModel.Sysfs.Valid, RunInvariant, IsCapture, Sorted, ManagedHierarchy.InStep, Stands, Stages, Updated,
         Looked, TunedAs, Calm, UntouchedElsewhere, VolatilePaths, Acceptable, AllFit, StagedWell, Runnable;
    assert served ==> TunedAs(h.sys.schema, f0, v0, n0) by { assert served ==> h.InStep(); InStepIsTuned(h); }
    var updated, previous, seen, final := UpdateConfiguration(h, config, [0], page);
    r := updated;
    if r.Ok? && h.sys.exclusive && h.sys.retuned == {} { UpdatedIsRead(h, Effective(config, previous, [0]), Some(previous), seen, final); }
    if h.sys.exclusive && h.InStep() {
      if r.Ok? && NoMarks(config) {
        OnlyKdamond(config, previous);
        StandsAfterUpdate(h, config, Some(previous), [0], seen, final);
      } else if r.Err? && !r.error.Rollback? && served {
        StandsAfterUndo(h, standing, v0, n0, f0);
      }
    }
  }

  /** `update_configuration` of a session with one kdamond: the request stands afterwards, or
      what stood before still does, unless the rollback failed. */
  method UpdateExclusive(h: ManagedHierarchy, config: DamonConfig, page: nat, ghost standing: DamonConfig) returns (r: Result<()>)
    requires h.Valid() && 0 < page
    modifies h`staged, h.sys
    ensures h.Valid()
    ensures r.Ok? && NoMarks(config) && old(h.InStep()) ==> Serves(h, config)
    ensures r.Err? && !r.error.Rollback? && old(Serves(h, standing)) ==> Serves(h, standing)
    ensures old(h.sys.trace) <= h.sys.trace
    ensures old(Poised(h)) && NoMarks(config) && Runnable(config, true, page) && StagedWell(h.sys.trace, |old(h.sys.trace)|, true) ==> r.Ok? && Poised(h)
  {
    hide ManagedHierarchy.Valid, ManagedHierarchy.InStep, ManagedHierarchy.InOrder, Serves, Stands, Runnable,
         StagedWell, IsReadback, KeepsUnselected, MarksExisting;
    if Poised(h) && NoMarks(config) && Runnable(config, true, page) { PoisedIsAcceptable(h, config, page); }
    r := UpdateStanding(h, config, page, standing);
  }

  lemma InStepIsTuned(h: ManagedHierarchy)
    ensures h.sys.exclusive && h.InStep() ==> TunedAs(h.sys.schema, h.sys.files, h.staged.volatile, h.staged.count)
  {
  }

  /** With one kdamond and that one selected, the effective request is the request. */
  lemma OnlyKdamond(config: DamonConfig, previous: DamonConfig)
    requires NoMarks(config) && |previous.kdamonds| == 1
    ensures Effective(config, previous, [0]) == config && !ContainsObsolete(config, [0])
  {
    assert Effective(config, previous, [0]).kdamonds[0] == config.kdamonds[0];
    assert Effective(config, previous, [0]).kdamonds == config.kdamonds;
  }

  class Monitor {
    const h: ManagedHierarchy
    const page: nat
    var held: bool                         // whether a session is held
    var query: Query
    var cached: seq<ScopedSnapshot>
    ghost var sure: bool                   // no update's rollback has failed
    ghost var takenFrom: Tree              // what was staged, and what ran, when results were last materialized
    ghost var taken: map<nat, Tree>

    /** As long as no rollback has failed, the session stands by the configuration that `installed` names, and runs it. */
    ghost predicate Valid()
      reads this, h, h.sys
    {
      && h.Valid() && 0 < page
      && (query.OnDemand? ==> NoMarks(query.base) && NoMarks(query.query) && (sure ==> Serves(h, query.Current())))
    }

    /** A session in step with the base configuration. */
    constructor (h: ManagedHierarchy, page: nat, base: DamonConfig, query: DamonConfig, descriptors: seq<Descriptor>)
      requires h.Valid() && 0 < page && NoMarks(base) && NoMarks(query) && Serves(h, base)
      ensures Valid() && held && sure && this.h == h && this.page == page && this.query == OnDemand(base, query, descriptors, false) && cached == []
    {
      this.h, this.page, held, sure := h, page, true, true;
      this.query := OnDemand(base, query, descriptors, false);
      cached, takenFrom, taken := [], map[], map[];
    }

    /** What may happen between two calls: the session is given up or resumed, threads die,
        intervals are retuned, and others write what they like unless the kernel is exclusive. */
    method Interlude()
      requires Valid()
      modifies this`held, h.sys
      ensures Valid() && sure == old(sure) && query == old(query)
    {
      hide SysfsModel.Sysfs.Valid, RunInvariant, IsCapture, Sorted, Stands, InStepIn, OwnedIn, Calm;
      ghost var f0 := h.sys.files;
      h.sys.Interfere();
      if query.OnDemand? && sure { ServesLater(h, query.Current(), f0); }
      held := *;
    }

    /** One on-demand snapshot. Success ends on the base configuration, with results taken
        while the query was staged and run; an error leaves the cached results alone. Ownership
        lost while materializing leaves the query installed, and the next call starts from there. */
    method MaterializeSnapshots() returns (r: Result<seq<ScopedSnapshot>>)
      requires Valid()
      modifies this, h`staged, h.sys
      ensures Valid() && held == old(held) && (sure ==> old(sure))
      ensures r.Ok? ==> cached == r.value && sure == old(sure)
      ensures r.Err? ==> cached == old(cached)
      ensures query.OnDemand? <==> old(query).OnDemand?
      ensures query.OnDemand? ==> query == old(query).(installed := query.installed)
      ensures r.Ok? && query.OnDemand? ==> !query.installed && Answers(r.value, query.descriptors)
      ensures r.Ok? && query.OnDemand? && sure ==> Served(h, query.query, takenFrom, taken)
      ensures r.Ok? && query.Permanent? ==> Answers(r.value, query.descriptors) && h.sys.Still() && h.staged == old(h.staged)
      ensures old(query).Unsupported? ==> r.Err?
      ensures old(held && Poised(h) && Answerable(query, page)) && StagedWell(h.sys.trace, |old(h.sys.trace)|, true) ==> r.Ok? && Poised(h)
    {
      hide ManagedHierarchy.Valid, Serves, Served, Agrees, Poised, StagedWell, Runnable, NoMarks;
      if !held { return Err(NotRunning); }
      match query {
        case Unsupported =>
          return Err(UnsupportedFeature);
        case Permanent(descriptors) =>
          r := MaterializeScoped(h, descriptors);
          if r.Err? { return; }
        case OnDemand(base, wanted, descriptors, installed) =>
          r := MaterializeOnDemand(base, wanted, descriptors);
          if r.Err? { return; }
      }
      cached := r.value;
    }

    method MaterializeOnDemand(base: DamonConfig, wanted: DamonConfig, descriptors: seq<Descriptor>)
      returns (r: Result<seq<ScopedSnapshot>>)
      requires Valid() && query.OnDemand? && query == OnDemand(base, wanted, descriptors, query.installed)
      modifies this`query, this`sure, this`takenFrom, this`taken, h`staged, h.sys
      ensures Valid() && query.OnDemand? && query == OnDemand(base, wanted, descriptors, query.installed) && (sure ==> old(sure))
      ensures r.Ok? ==> !query.installed && Answers(r.value, descriptors) && sure == old(sure)
      ensures r.Ok? && sure ==> Served(h, wanted, takenFrom, taken)
      ensures old(Poised(h) && Answerable(query, page)) && StagedWell(h.sys.trace, |old(h.sys.trace)|, true) ==> r.Ok? && Poised(h)
    {
      hide SysfsModel.Sysfs.Valid, RunInvariant, IsCapture, Sorted, Serves, Served, Stands, Agrees, Poised,
           StagedWell, Runnable, ManagedHierarchy.Valid, NoMarks;
      ghost var t0 := h.sys.trace;
      if !query.installed {
        var installation := Install(wanted);
        ghost var t := h.sys.trace;
        if installation.Err? { return Err(installation.error); }
        query := query.(installed := true);
      }
      ghost var t1 := h.sys.trace;
      var operation := MaterializeQuery(descriptors);
      ghost var t2 := h.sys.trace;
      if StagedWell(t2, |t0|, true) { StagedWellEarlier(t2, t1, |t0|, |t0|, true); }
      if operation.Err? && operation.error.OwnershipLost? { return operation; }
      ghost var answered := sure;
      var restoration := Install(base);
      if StagedWell(h.sys.trace, |t0|, true) {
        StagedWellEarlier(h.sys.trace, t2, |t0|, |t0|, true);
        StagedWellEarlier(h.sys.trace, h.sys.trace, |t0|, |t2|, true);
      }
      if restoration.Ok? { query := query.(installed := false); }
      if restoration.Ok? {
        r := operation;
      } else if operation.Ok? {
        r := Err(restoration.error);
      } else {
        r := Err(Rollback(operation.error, restoration.error));
      }
    }

    /** One online update, to the query or back. */
    method Install(config: DamonConfig) returns (r: Result<()>)
      requires Valid() && query.OnDemand? && NoMarks(config)
      modifies this`sure, h`staged, h.sys
      ensures h.Valid() && (sure ==> old(sure)) && (r.Ok? ==> sure == old(sure))
      ensures sure ==> Serves(h, if r.Ok? then config else query.Current())
      ensures old(h.sys.trace) <= h.sys.trace
      ensures old(Poised(h)) && Runnable(config, true, page) && StagedWell(h.sys.trace, |old(h.sys.trace)|, true) ==> r.Ok? && Poised(h)
    {
      hide SysfsModel.Sysfs.Valid, RunInvariant, IsCapture, Sorted, ManagedHierarchy.InStep, Stands, NoMarks;
      r := UpdateExclusive(h, config, page, query.Current());
      if r.Err? && r.error.Rollback? { sure := false; }
    }

    method MaterializeQuery(descriptors: seq<Descriptor>) returns (r: Result<seq<ScopedSnapshot>>)
      requires Valid() && query.OnDemand? && query.installed
      modifies this`takenFrom, this`taken, h.sys
      ensures Valid()
      ensures r.Ok? ==> Answers(r.value, descriptors)
      ensures r.Ok? && sure ==> Served(h, query.query, takenFrom, taken)
      ensures old(h.sys.trace) <= h.sys.trace
      ensures old(Poised(h)) && descriptors != [] ==> r.Ok? && Poised(h)
    {
      hide SysfsModel.Sysfs.Valid, RunInvariant, IsCapture, Sorted, Stands, Served, InStepIn, OwnedIn, Calm, Agrees;
      ghost var f0 := h.sys.files;
      r := MaterializeScoped(h, descriptors);
      if old(Poised(h)) && descriptors != [] { StaysPoised(h, f0); }
      if sure {
        ServesLater(h, query.query, f0);
        ServedNow(h, query.query);
      }
      takenFrom, taken := h.sys.files, h.sys.active;
    }
  }

  /** Any number of calls, with the session given up or resumed in between: until a rollback
      fails, the session stands by the configuration `installed` names and runs it. */
  method ManySnapshots(monitor: Monitor, calls: nat)
    requires monitor.Valid() && monitor.query.OnDemand?
    modifies monitor, monitor.h`staged, monitor.h.sys
    ensures monitor.Valid() && monitor.query.OnDemand? && monitor.query == old(monitor.query).(installed := monitor.query.installed)
    ensures monitor.sure ==> Serves(monitor.h, monitor.query.Current())
  {
    hide Serves;
    for n := 0 to calls
      invariant monitor.Valid() && monitor.query.OnDemand? && monitor.query == old(monitor.query).(installed := monitor.query.installed)
    {
      var r := monitor.MaterializeSnapshots();
      monitor.Interlude();
    }
    assert monitor.sure ==> Serves(monitor.h, monitor.query.Current()) by { assert monitor.Valid(); }
  }

  /** Opens the base configuration, starts it, and monitors it. */
  method StartMonitor(sys: Sysfs, base: DamonConfig, query: DamonConfig, descriptors: seq<Descriptor>, page: nat)
    returns (r: Result<()>, monitor: Monitor?)
    requires sys.Valid() && sys.trace == [] && 0 < page && NoMarks(base) && NoMarks(query)
    modifies sys
    ensures r.Ok? ==> monitor != null && fresh(monitor) && monitor.Valid() && monitor.sure && monitor.query == OnDemand(base, query, descriptors, false)
    ensures old(sys.Idle()) && sys.retuned <= VolatilePaths(sys.schema, base) && Runnable(base, false, page) && StagedWell(sys.trace, 0, false) ==>
              r.Ok? && monitor.h.InOrder()
  {
    hide Runnable, StagedWell, VolatilePaths, ManagedHierarchy.InOrder, SysfsModel.Sysfs.Valid, RunInvariant,
         IsCapture, Sorted, StagedAs, Stages, InStepIn, OwnedIn, CapturedAfterOn, Looked, SeenAs, SafeStops,
         SafeCommits;
    monitor := null;
    EmptyRecord();
    var staged, h := Open(sys, base, page);
    if staged.Err? { return staged, null; }
    StandsAfterOpen(h, [], base);
    ghost var t1 := sys.trace;
    r := h.StartAll();
    ghost var t2 := sys.trace;
    if StagedWell(t2, 0, false) { StagedWellEarlier(t2, t1, 0, 0, false); }
    if r.Err? {
      var closed := Close(h);
      GuardedExtends(t2, sys.trace);
      if StagedWell(sys.trace, 0, false) { StagedWellEarlier(sys.trace, t2, 0, 0, false); }
      return if r.error.Rollback? then r else Err(WithRollback(r.error, closed)), null;
    }
    monitor := new Monitor(h, page, base, query, descriptors);
  }
}
