/** Whole sessions: any sequence of operations on a hierarchy that was opened here. */
module Runs {
  import opened Outcomes
  import opened Paths
  import opened KernelTree
  import opened Config
  import opened SysfsModel
  import opened TuningGoals
  import opened StagingRecords
  import opened Traces
  import opened Hierarchy
  import opened QuotaGoals
  import opened OnlineUpdates
  import opened GoalUpdates
  import opened Transactions
  import opened Sessions
  import opened Validity

  datatype Operation =
    | Start
    | Stop
    | Update(config: DamonConfig, selected: seq<nat>)
    | SetGoals(kdamond: nat, context: nat, scheme: nat, goals: seq<GoalConfig>)
    | Replace(request: DamonConfig)

  /** Whatever the operation and however it ends, short of a failed rollback, the kernel holds
      what the session owns and runs what it stages, if it did before. */
  method Perform(h: ManagedHierarchy, view: GoalView, page: nat, op: Operation) returns (r: Result<()>)
    requires h.Valid() && 0 < page && view.Lawful(h.sys.schema)
    modifies h`states, h`staged, h.sys
    ensures h.Valid() && |h.states| == |old(h.states)|
    ensures old(h.InStep()) && (r.Err? ==> !r.error.Rollback?) ==> h.InStep()
  {
    hide ManagedHierarchy.Valid, ManagedHierarchy.InStep, GoalView.Lawful;
    match op {
      case Start => r := h.StartAll();
      case Stop => r := h.StopAll();
      case Update(config, selected) =>
        var updated, _, _, _ := UpdateConfiguration(h, config, selected, page);
        r := updated;
      case SetGoals(k, c, s, goals) =>
        var updated, _ := UpdateSchemeQuotaGoals(h, view, k, c, s, goals);
        r := updated;
      case Replace(config) =>
        var replaced, _ := ReplaceStaged(h, config, page);
        r := replaced;
    }
  }

  /** Operations one after another, failed or not, until they are all done or a rollback fails. */
  method Run(h: ManagedHierarchy, view: GoalView, page: nat, ops: seq<Operation>) returns (broken: bool)
    requires h.Valid() && 0 < page && view.Lawful(h.sys.schema)
    modifies h`states, h`staged, h.sys
    ensures h.Valid() && |h.states| == |old(h.states)|
    ensures old(h.InStep()) && !broken ==> h.InStep()
  {
    hide ManagedHierarchy.Valid, ManagedHierarchy.InStep, GoalView.Lawful;
    broken := false;
    for n := 0 to |ops|
      invariant h.Valid() && |h.states| == |old(h.states)| && !broken
      invariant old(h.InStep()) ==> h.InStep()
    {
      var r := Perform(h, view, page, ops[n]);
      broken := r.Err? && r.error.Rollback?;
      if broken { return; }
    }
  }

  /** From a fresh record and any kernel: a session that opened, did whatever it did and never
      failed to roll back owns what the kernel holds, every identified kdamond runs what is
      staged for it, and every stop and commit it ever sent was justified. */
  method OpenAndRun(sys: Sysfs, config: DamonConfig, page: nat, view: GoalView, ops: seq<Operation>)
    returns (r: Result<()>, h: ManagedHierarchy?, broken: bool)
    requires sys.Valid() && sys.trace == [] && 0 < page && view.Lawful(sys.schema)
    modifies sys
    ensures r.Ok? ==> h != null && fresh(h) && h.sys == sys && h.Valid() && |h.states| == |config.kdamonds|
    ensures r.Ok? ==> SafeStops(sys.trace) && SafeCommits(sys.trace)
    ensures r.Ok? && !broken ==> h.InStep()
    ensures r.Err? && !r.error.Rollback? && sys.exclusive ==> Calm(sys.retuned, old(sys.files), sys.files)
  {
    hide SysfsModel.Sysfs.Valid, ManagedHierarchy.InStep, GoalView.Lawful, StagedAs, SafeStops, SafeCommits;
    broken := false;
    EmptyRecord();
    r, h := Open(sys, config, page);
    if r.Ok? { broken := Run(h, view, page, ops); }
  }

  lemma PreviousIsSorted(h: ManagedHierarchy)
    requires h.Valid()
    ensures h.previous.Some? ==> Sorted(h.previous.value)
  {
  }

  /** A session that only runs what it was asked for gives back the hierarchy it found. On an
      idle kernel where nothing fails, and once its request is staged, nothing can go wrong. */
  method OpenRunClose(sys: Sysfs, config: DamonConfig, page: nat) returns (r: Result<()>)
    requires sys.Valid() && sys.trace == [] && 0 < page
    modifies sys
    ensures old(sys.Idle()) && sys.retuned <= VolatilePaths(sys.schema, config) && Runnable(config, false, page) && StagedWell(sys.trace, 0, false) ==>
              r.Ok?
    ensures r.Ok? && sys.exclusive ==> Calm(sys.retuned, old(sys.files), sys.files)
  {
    hide SysfsModel.Sysfs.Valid, ManagedHierarchy.Valid, ManagedHierarchy.InStep, ManagedHierarchy.InOrder, StagedAs,
         StagedExactly, Runnable, StagedWell, Calm, VolatilePaths, SafeStops, SafeCommits, Values, Guarded;
    EmptyRecord();
    ghost var f0 := sys.files;
    var staged, h := Open(sys, config, page);
    if staged.Err? { return staged; }
    ghost var t1 := sys.trace;
    r := h.StartAll();
    ghost var t2 := sys.trace;
    if r.Ok? {
      r := Close(h);
      GuardedExtends(t2, sys.trace);
      PreviousIsSorted(h);
      if r.Ok? && sys.exclusive { CalmTransitive(sys.retuned, f0, Values(h.previous.value), sys.files); }
    }
    if StagedWell(sys.trace, 0, false) { StagedWellEarlier(sys.trace, t1, 0, 0, false); }
  }
}
