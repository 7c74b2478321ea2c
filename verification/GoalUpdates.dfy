/** `update_scheme_quota_goals`: replaces the goals of one scheme of a running kdamond, or
    nothing at all. */
module GoalUpdates {
  import opened Outcomes
  import opened Paths
  import opened KernelTree
  import opened Restoration
  import opened Config
  import opened TuningGoals
  import opened SysfsModel
  import opened TargetLeaves
  import opened RunningState
  import opened Traces
  import opened Snapshots
  import opened Retries
  import opened Hierarchy
  import opened Validity
  import opened Updates
  import opened Rollbacks
  import opened OnlineUpdates
  import opened QuotaGoals

  /** Everything up to the commit. A value owned outside the footprint that differs when
      staging begins makes it fail; undisturbed, and with nothing retuned meanwhile, no
      value check can. */
  method StageAndVerifyGoals(h: ManagedHierarchy, view: GoalView, quotas: Path, goals: seq<GoalConfig>, observed: seq<GoalConfig>, ghost from: Stage, ghost since: seq<Event>)
    returns (r: Result<seq<Entry>>, ghost seen: Tree)
    requires h.Valid() && Staying(h.sys, from) && QuotasOf(h.sys.schema, quotas, from.kdamond) && Uncommanded(since, h.sys.trace)
    requires from.foot == GoalFootprint(h.sys.schema, quotas, goals, observed) && view.Lawful(h.sys.schema)
    requires h.sys.exclusive ==> GoalsAt(h.sys.schema, view, from.files, quotas) == Some(observed)
    modifies h.sys
    ensures h.Valid() && Staying(h.sys, from) && Uncommanded(since, h.sys.trace)
    ensures h.sys.exclusive ==> KdamondsKept(h.sys, old(h.sys.files), old(h.sys.threads), h.sys.files, h.sys.threads)
    ensures r.Ok? ==> IsCapture(h.sys.schema, r.value) && GoalsAt(h.sys.schema, view, seen, quotas) == Some(goals)
    ensures r.Ok? && h.sys.exclusive ==>
              && Calm(h.sys.retuned, seen, h.sys.files) && Calm(h.sys.retuned, Values(r.value), h.sys.files)
              && AgreesOutside(h.staged.entries, from.foot, h.staged.volatile + h.sys.retuned, from.files)
    ensures (r.Err? && h.sys.exclusive && h.sys.retuned == {}
             && AgreesOutside(h.staged.entries, from.foot, h.staged.volatile, from.files)) ==> r.error.ClearsValues()
    ensures (Undisputed(h, old(h.sys.files), old(h.sys.threads)) && Installable(h.sys.schema, view, old(h.sys.files), quotas, goals)
             && AgreesOutside(h.staged.entries, from.foot, h.staged.volatile, from.files)) ==> r.Ok?
    ensures r.Err? ==> !r.error.Rollback?
  {
    hide ManagedHierarchy.Valid, IsCapture, Staying, Uncommanded, GoalFootprint, AgreesOutside, KdamondsKept,
         Undisputed, AllHold, GoalsAt, ValidGoals, GoalsSupported, GoalView.Lawful, Calm;
    ghost var f0, th0 := h.sys.files, h.sys.threads;
    seen := map[];
    var staged := RetryStageGoals(h, view, quotas, goals, observed, from, since);
    ghost var f1, th1 := h.sys.files, h.sys.threads;
    UndisputedKept(h, f0, th0, f1, th1);
    if staged.Err? { return Err(staged.error), seen; }
    staged := CheckIdentities(h, from, since);
    GoalsStill(h, view, quotas, f0, th0, f1, th1);
    ghost var f2, th2 := h.sys.files, h.sys.threads;
    if staged.Err? { return Err(staged.error), seen; }
    staged := CheckUnchangedElsewhere(h, quotas, goals, observed, from);
    GoalsStill(h, view, quotas, f0, th0, f2, th2);
    ghost var f3, th3 := h.sys.files, h.sys.threads;
    if staged.Err? { return Err(staged.error), seen; }
    r, seen := CaptureGoals(h, view, quotas, goals, from, since);
    GoalsStill(h, view, quotas, f0, th0, f3, th3);
    if r.Err? { return; }
    ghost var f4, th4 := h.sys.files, h.sys.threads;
    staged := CheckIdentities(h, from, since);
    GoalsStill(h, view, quotas, f0, th0, f4, th4);
    if staged.Err? { return Err(staged.error), seen; }
    if h.sys.exclusive {
      CalmTransitive(h.sys.retuned, seen, f4, h.sys.files);
      CalmCaptureTransitive(h.sys, r.value, f4);
    }
  }

  /** Goals that can be staged here and read back. */
  ghost predicate Installable(K: Schema, view: GoalView, t: Tree, quotas: Path, goals: seq<GoalConfig>) {
    ValidGoals(goals) && AllHold(view, goals) && GoalsSupported(K, quotas, goals) && GoalCount(quotas) in t
  }

  /** Looking changes neither the kdamonds nor the staged goals. */
  lemma GoalsStill(h: ManagedHierarchy, view: GoalView, quotas: Path, f0: Tree, th0: map<nat, Thread>, f: Tree, th: map<nat, Thread>)
    requires h.Valid() && (h.sys.exclusive ==> Calm(h.sys.retuned, f, h.sys.files) && KdamondsKept(h.sys, f0, th0, f, th)) && (h.sys.steady ==> h.sys.threads == th)
    ensures h.sys.exclusive ==> KdamondsKept(h.sys, f0, th0, h.sys.files, h.sys.threads)
    ensures h.sys.exclusive ==> GoalsAt(h.sys.schema, view, f, quotas) == GoalsAt(h.sys.schema, view, h.sys.files, quotas)
    ensures Undisputed(h, f0, th0) ==> Undisputed(h, h.sys.files, h.sys.threads)
  {
    LawfulHierarchy(h);
    if h.sys.exclusive {
      LookedGoals(h, quotas, f, th);
      KdamondsKeptTransitive(h.sys, f0, th0, f, th, h.sys.files, h.sys.threads);
      GoalsReadAlike(h.sys.schema, view, h.sys.retuned, quotas, f, h.sys.files);
    }
    UndisputedKept(h, f0, th0, h.sys.files, h.sys.threads);
  }

  lemma CalmCaptureTransitive(sys: Sysfs, entries: seq<Entry>, t: Tree)
    requires IsCapture(sys.schema, entries) && Calm(sys.retuned, Values(entries), t) && Calm(sys.retuned, t, sys.files)
    ensures Calm(sys.retuned, Values(entries), sys.files)
  {
  }

  method CheckUnchangedElsewhere(h: ManagedHierarchy, quotas: Path, goals: seq<GoalConfig>, observed: seq<GoalConfig>, ghost from: Stage)
    returns (r: Result<()>)
    requires h.Valid() && Staying(h.sys, from)
    requires from.foot == GoalFootprint(h.sys.schema, quotas, goals, observed)
    modifies h.sys
    ensures h.Valid() && Staying(h.sys, from) && h.sys.trace == old(h.sys.trace)
    ensures r.Ok? && h.sys.exclusive ==> AgreesOutside(h.staged.entries, from.foot, h.staged.volatile + h.sys.retuned, from.files)
    ensures (r.Err? && h.sys.exclusive && h.sys.retuned <= h.staged.volatile
             && AgreesOutside(h.staged.entries, from.foot, h.staged.volatile, from.files)) ==> r.error.IsAccessFailure()
    ensures (h.sys.exclusive && h.sys.steady && h.sys.retuned <= h.staged.volatile
             && AgreesOutside(h.staged.entries, from.foot, h.staged.volatile, from.files)) ==> r.Ok?
    ensures (h.sys.exclusive ==> Calm(h.sys.retuned, old(h.sys.files), h.sys.files)) && (h.sys.steady ==> h.sys.threads == old(h.sys.threads))
    ensures r.Err? ==> !r.error.Rollback?
  {
    hide SysfsModel.Sysfs.Valid, IsCapture, RunInvariant, Sorted, GoalFootprint, AgreesOutside, Covered, FrameKept,
         JournalFits;
    ghost var t := h.sys.files;
    var same := CheckElsewhere(h, quotas, goals, observed);
    if h.sys.exclusive {
      DriftStays(h.sys.schema, h.sys.retuned, from, t, h.sys.journal, h.sys.active, h.sys.files);
      FrameKeepsVerdict(h.staged.entries, from.foot, h.staged.volatile + h.sys.retuned, h.sys.retuned, from.files, h.sys.files);
      if h.sys.retuned <= h.staged.volatile {
        FrameKeepsVerdict(h.staged.entries, from.foot, h.staged.volatile, h.sys.retuned, from.files, h.sys.files);
      }
    }
    r := if same.Err? then Err(same.error) else if !same.value then Err(OwnershipLost(ValuesChanged)) else Ok(());
  }

  /** The capture to own afterwards, with the goals in it read back as requested. */
  method CaptureGoals(h: ManagedHierarchy, view: GoalView, quotas: Path, goals: seq<GoalConfig>, ghost from: Stage, ghost since: seq<Event>)
    returns (r: Result<seq<Entry>>, ghost seen: Tree)
    requires h.Valid() && Staying(h.sys, from) && Uncommanded(since, h.sys.trace)
    modifies h.sys
    ensures h.Valid() && Staying(h.sys, from) && Uncommanded(since, h.sys.trace)
    ensures r.Ok? ==> IsCapture(h.sys.schema, r.value) && GoalsAt(h.sys.schema, view, seen, quotas) == Some(goals)
    ensures r.Ok? && h.sys.exclusive ==> Calm(h.sys.retuned, seen, h.sys.files) && Calm(h.sys.retuned, Values(r.value), h.sys.files)
    ensures r.Err? && h.sys.exclusive && h.sys.retuned == {} ==> r.error.ClearsValues()
    ensures (h.sys.exclusive ==> Calm(h.sys.retuned, old(h.sys.files), h.sys.files)) && (h.sys.steady ==> h.sys.threads == old(h.sys.threads))
    ensures Undisputed(h, old(h.sys.files), old(h.sys.threads)) && GoalsAt(h.sys.schema, view, old(h.sys.files), quotas) == Some(goals) ==> r.Ok?
    ensures r.Err? ==> !r.error.Rollback?
  {
    hide SysfsModel.Sysfs.Valid, RunInvariant, Sorted, Values, Consistent, Stays, Uncommanded, Looked, Agrees,
         GoalsAt, AllFit;
    ghost var t, before := h.sys.files, h.sys.trace;
    seen := map[];
    r := RetryCapture(h.sys);
    LookingKeepsInvariant(h.states, before, h.sys.trace);
    LookedUncommanded(since, before, h.sys.trace);
    if h.sys.exclusive { DriftStays(h.sys.schema, h.sys.retuned, from, t, h.sys.journal, h.sys.active, h.sys.files); }
    if r.Err? { return; }
    ghost var t1 := h.sys.files;
    var read, seen' := RetryGoals(h.sys, view, quotas);
    seen := seen';
    if h.sys.exclusive { DriftStays(h.sys.schema, h.sys.retuned, from, t1, h.sys.journal, h.sys.active, h.sys.files); }
    if h.sys.exclusive && h.sys.retuned == {} { CalmIsEqual(t, seen); }
    if read.Err? { return Err(read.error), seen; }
    if read.value != goals { return Err(ConfigurationMismatch), seen; }
    ghost var t2 := h.sys.files;
    var matches := RetryMatchesExcept(h.sys, r.value, {});
    if h.sys.exclusive {
      DriftStays(h.sys.schema, h.sys.retuned, from, t2, h.sys.journal, h.sys.active, h.sys.files);
      if h.sys.retuned == {} { CaptureAgrees(h.sys, r.value, {}); }
    }
    if matches.Err? { return Err(matches.error), seen; }
    if !matches.value { return Err(OwnershipLost(ValuesChanged)), seen; }
  }

  /** What a completed goal update leaves: the goals read back as requested, and the kdamond runs them. */
  ghost predicate GoalsUpdated(h: ManagedHierarchy, view: GoalView, quotas: Path, goals: seq<GoalConfig>, seen: Tree, k: nat)
    reads h, h.sys
  {
    && GoalsAt(h.sys.schema, view, seen, quotas) == Some(goals)
    && (h.sys.exclusive ==>
          && Calm(h.sys.retuned, seen, h.sys.files)
          && GoalsAsStaged(h.sys.schema, h.sys.retuned, h.sys.active, seen, k))
  }

  /** Stages, verifies and commits. When a value owned outside the footprint differs from
      the kernel's, nothing is committed. */
  method StageAndCommitGoals(h: ManagedHierarchy, view: GoalView, quotas: Path, goals: seq<GoalConfig>, observed: seq<GoalConfig>, k: nat, ghost from: Stage)
    returns (r: Result<StagedOwnership>, ghost seen: Tree)
    requires h.Valid() && k == from.kdamond && Staying(h.sys, from) && QuotasOf(h.sys.schema, quotas, from.kdamond)
    requires from.foot == GoalFootprint(h.sys.schema, quotas, goals, observed) && from.active == h.sys.active
    requires view.Lawful(h.sys.schema) && (h.sys.exclusive ==> GoalsAt(h.sys.schema, view, from.files, quotas) == Some(observed))
    modifies h.sys
    ensures h.Valid() && Tracked(h.sys, from.base, {from.kdamond})
    ensures h.sys.exclusive ==> FrameKept(from.foot, h.sys.retuned, from.files, h.sys.files)
    ensures h.sys.exclusive ==> JournalFits(from.foot, from.journal, h.sys.journal)
    ensures h.sys.exclusive ==> OnlyGoalsChanged(h.sys.schema, from.active, h.sys.active, from.kdamond)
    ensures r.Ok? ==> IsCapture(h.sys.schema, r.value.entries) && r.value == h.staged.(entries := r.value.entries)
    ensures r.Ok? ==> GoalsUpdated(h, view, quotas, goals, seen, from.kdamond)
    ensures r.Ok? && h.sys.exclusive ==> Agrees(r.value.entries, r.value.volatile + h.sys.retuned, h.sys.files)
    ensures h.sys.exclusive && !AgreesOutside(h.staged.entries, from.foot, h.staged.volatile + h.sys.retuned, from.files) ==>
              r.Err? && Uncommanded(old(h.sys.trace), h.sys.trace) && h.sys.active == from.active
    ensures (r.Err? && h.sys.exclusive && h.sys.retuned == {}
             && AgreesOutside(h.staged.entries, from.foot, h.staged.volatile, from.files)) ==> r.error.ClearsValues()
    ensures h.sys.exclusive ==> KdamondsKept(h.sys, old(h.sys.files), old(h.sys.threads), h.sys.files, h.sys.threads)
    ensures (Undisputed(h, old(h.sys.files), old(h.sys.threads)) && h.OwnedPidOf(k).Some? && h.staged.count == |h.states| && Installable(h.sys.schema, view, old(h.sys.files), quotas, goals)
             && AgreesOutside(h.staged.entries, from.foot, h.staged.volatile, from.files)) ==> r.Ok?
    ensures r.Err? ==> !r.error.Rollback?
  {
    hide ManagedHierarchy.Valid, Sorted, Values, Consistent, Stays, Uncommanded, GoalFootprint, AgreesOutside,
         GoalsAsStaged, Agrees, OnlyGoalsChanged, Tracked, JournalFits, FrameKept, Covered, Calm, KdamondsKept,
         Undisputed, Installable, GoalsAt, GoalView.Lawful;
    ghost var f0, th0 := h.sys.files, h.sys.threads;
    ghost var since := h.sys.trace;
    UncommandedNothing(since);
    OnlyGoalsUnchanged(h.sys.schema, h.sys.active, from.kdamond);
    var checked := CheckIdentities(h, from, since);
    StaysTracked(h.sys, from);
    GoalsLooked(h, view, quotas, f0, th0);
    ghost var f1, th1 := h.sys.files, h.sys.threads;
    if checked.Err? { return Err(checked.error), map[]; }
    var captured, seen' := StageAndVerifyGoals(h, view, quotas, goals, observed, from, since);
    seen := seen';
    StaysTracked(h.sys, from);
    if h.sys.exclusive { KdamondsKeptTransitive(h.sys, f0, th0, f1, th1, h.sys.files, h.sys.threads); }
    UndisputedKept(h, f0, th0, h.sys.files, h.sys.threads);
    ghost var f2, th2 := h.sys.files, h.sys.threads;
    if captured.Err? { return Err(captured.error), seen; }
    r := CommitAndAdopt(h, view, quotas, goals, captured.value, k, seen, from);
    if h.sys.exclusive { KdamondsKeptTransitive(h.sys, f0, th0, f2, th2, h.sys.files, h.sys.threads); }
  }

  lemma GoalsLooked(h: ManagedHierarchy, view: GoalView, quotas: Path, f0: Tree, th0: map<nat, Thread>)
    requires h.Valid() && (h.sys.exclusive ==> Calm(h.sys.retuned, f0, h.sys.files)) && (h.sys.steady ==> h.sys.threads == th0)
    ensures h.sys.exclusive ==> KdamondsKept(h.sys, f0, th0, h.sys.files, h.sys.threads)
    ensures Undisputed(h, f0, th0) ==> Undisputed(h, h.sys.files, h.sys.threads)
    ensures forall goals | h.sys.exclusive && Installable(h.sys.schema, view, f0, quotas, goals) :: Installable(h.sys.schema, view, h.sys.files, quotas, goals)
  {
    if h.sys.exclusive { LookedGoals(h, quotas, f0, th0); }
    UndisputedKept(h, f0, th0, h.sys.files, h.sys.threads);
  }

  lemma OnlyGoalsUnchanged(K: Schema, active: map<nat, Tree>, k: nat)
    ensures OnlyGoalsChanged(K, active, active, k)
  {
  }

  lemma StaysTracked(sys: Sysfs, from: Stage)
    requires Staying(sys, from)
    ensures Tracked(sys, from.base, {from.kdamond})
    ensures sys.exclusive ==> FrameKept(from.foot, sys.retuned, from.files, sys.files) && sys.active == from.active
    ensures sys.exclusive ==> JournalFits(from.foot, from.journal, sys.journal)
  {
  }

  method CommitAndAdopt(h: ManagedHierarchy, view: GoalView, quotas: Path, goals: seq<GoalConfig>, entries: seq<Entry>, k: nat, ghost seen: Tree, ghost from: Stage)
    returns (r: Result<StagedOwnership>)
    requires h.Valid() && Staying(h.sys, from) && k == from.kdamond && IsCapture(h.sys.schema, entries) && GoalsAt(h.sys.schema, view, seen, quotas) == Some(goals)
    requires h.sys.exclusive ==> Calm(h.sys.retuned, seen, h.sys.files) && Calm(h.sys.retuned, Values(entries), h.sys.files)
    modifies h.sys
    ensures h.Valid() && Tracked(h.sys, from.base, {from.kdamond})
    ensures h.sys.exclusive ==> FrameKept(from.foot, h.sys.retuned, from.files, h.sys.files)
    ensures h.sys.exclusive ==> JournalFits(from.foot, from.journal, h.sys.journal)
    ensures h.sys.exclusive ==> OnlyGoalsChanged(h.sys.schema, from.active, h.sys.active, from.kdamond)
    ensures r.Ok? ==> IsCapture(h.sys.schema, r.value.entries) && r.value == h.staged.(entries := r.value.entries)
    ensures r.Ok? ==> GoalsUpdated(h, view, quotas, goals, seen, from.kdamond)
    ensures r.Ok? && h.sys.exclusive ==> Agrees(r.value.entries, r.value.volatile + h.sys.retuned, h.sys.files)
    ensures r.Err? && h.sys.exclusive && h.sys.retuned == {} ==> r.error.ClearsValues()
    ensures h.sys.exclusive ==> KdamondsKept(h.sys, old(h.sys.files), old(h.sys.threads), h.sys.files, h.sys.threads)
    ensures Undisputed(h, old(h.sys.files), old(h.sys.threads)) && h.OwnedPidOf(k).Some? && h.staged.count == |h.states| ==> r.Ok?
    ensures r.Err? ==> !r.error.Rollback?
  {
    hide SysfsModel.Sysfs.Valid, RunInvariant, Sorted, Values, Consistent, GoalsAsStaged, Agrees, OnlyGoalsChanged,
         Covered, FrameKept, JournalFits, BelowSome, GoalsAt, KdamondsKept, AllFit, CountOf;
    ghost var t, journal, threads := h.sys.files, h.sys.journal, h.sys.threads;
    StaysTracked(h.sys, from);
    var committed := CommitGoals(h, k);
    if h.sys.exclusive {
      TrackedByDrift(h.sys, from.base, {from.kdamond}, t, journal);
      FrameByDrift(from.foot, h.sys.retuned, from.files, t, h.sys.files);
    }
    UndisputedKept(h, t, threads, h.sys.files, h.sys.threads);
    if committed.Err? { return Err(committed.error); }
    ghost var u, threads1 := h.sys.files, h.sys.threads;
    if h.sys.exclusive {
      CalmTransitive(h.sys.retuned, seen, t, u);
      CaptureAgreesLater(h.sys, entries, h.staged.volatile + h.sys.retuned, t);
    }
    var ownership := h.staged.(entries := entries);
    var verified := VerifyOwnership(h, ownership);
    if h.sys.exclusive {
      DriftKeepsKdamonds(h.sys, u, threads1);
      KdamondsKeptTransitive(h.sys, t, threads, u, threads1, h.sys.files, h.sys.threads);
      TrackedByDrift(h.sys, from.base, {from.kdamond}, u, journal);
      FrameByDrift(from.foot, h.sys.retuned, from.files, u, h.sys.files);
      CalmTransitive(h.sys.retuned, seen, u, h.sys.files);
      SeenGoals(h.sys, u, seen, from.kdamond);
    }
    r := if verified.Ok? then Ok(ownership) else Err(verified.error);
  }

  lemma FrameByDrift(foot: Footprint, loose: set<Path>, t0: Tree, t: Tree, u: Tree)
    requires FrameKept(foot, loose, t0, t) && Calm(loose, t, u)
    ensures FrameKept(foot, loose, t0, u)
  {
  }

  lemma CaptureAgreesLater(sys: Sysfs, entries: seq<Entry>, ignored: set<Path>, t: Tree)
    requires Sorted(entries) && Calm(sys.retuned, Values(entries), t) && Calm(sys.retuned, t, sys.files) && sys.retuned <= ignored
    ensures Agrees(entries, ignored, sys.files)
  {
    CaptureAgrees(sys, entries, ignored);
  }

  lemma SeenGoals(sys: Sysfs, u: Tree, seen: Tree, k: nat)
    requires GoalsAsStaged(sys.schema, sys.retuned, sys.active, u, k) && Calm(sys.retuned, seen, u)
    ensures GoalsAsStaged(sys.schema, sys.retuned, sys.active, seen, k)
  {
    CalmWidens(sys.retuned, sys.retuned, seen, u);
    GoalsByDrift(sys.schema, sys.retuned, sys.active, u, seen, k);
  }

  // ---------- undoing ----------

  /** The staged tree is the captured one again, and the kdamond runs the goals it stages. */
  ghost predicate GoalsRolledBack(h: ManagedHierarchy, snapshot: seq<Entry>, k: nat)
    requires Sorted(snapshot)
    reads h, h.sys
  {
    && Calm(h.staged.volatile + h.sys.retuned, Values(snapshot), h.sys.files)
    && GoalsAsStaged(h.sys.schema, h.sys.retuned, h.sys.active, h.sys.files, k)
  }

  method RestoreWrittenAndCommitGoals(h: ManagedHierarchy, snapshot: seq<Entry>, writes: seq<Path>, k: nat) returns (r: Result<()>)
    requires h.Valid() && Sorted(snapshot) && Recorded(h.sys, snapshot, {k}, writes)
    modifies h.sys
    ensures h.Valid() && Recorded(h.sys, snapshot, {k}, writes)
    ensures h.sys.exclusive ==> OnlyGoalsChanged(h.sys.schema, old(h.sys.active), h.sys.active, k)
    ensures r.Err? ==> !r.error.Rollback?
  {
    hide SysfsModel.Sysfs.Valid, RunInvariant, Sorted, Covered, BelowSome, GoalsAsStaged, OnlyGoalsChanged, Agrees,
         IsCapture, Calm, Values, ConfirmedCommit;
    r := RestoreWritten(h, snapshot, writes, {k});
    OnlyGoalsUnchanged(h.sys.schema, h.sys.active, k);
    if r.Err? { return; }
    ghost var f0 := h.sys.files;
    r := CommitGoals(h, k);
    RecordedByDrift(h.sys, snapshot, {k}, writes, f0);
  }

  method RestoreAndCommitGoals(h: ManagedHierarchy, snapshot: seq<Entry>, k: nat, writes: seq<Path>) returns (r: Result<StagedOwnership>)
    requires h.Valid() && IsCapture(h.sys.schema, snapshot) && Recorded(h.sys, snapshot, {k}, writes)
    modifies h.sys
    ensures h.Valid() && Recorded(h.sys, snapshot, {k}, writes)
    ensures h.sys.exclusive ==> OnlyGoalsChanged(h.sys.schema, old(h.sys.active), h.sys.active, k)
    ensures r.Ok? ==> IsCapture(h.sys.schema, r.value.entries) && r.value == h.staged.(entries := r.value.entries)
    ensures r.Ok? && h.sys.exclusive ==>
              GoalsRolledBack(h, snapshot, k) && Agrees(r.value.entries, r.value.volatile + h.sys.retuned, h.sys.files)
  {
    hide SysfsModel.Sysfs.Valid, RunInvariant, Sorted, Values, Covered, BelowSome, Agrees, Consistent, GoalsAsStaged,
         OnlyGoalsChanged, Calm, Looked;
    ghost var f0 := h.sys.files;
    OnlyGoalsUnchanged(h.sys.schema, h.sys.active, k);
    var checked := h.VerifyOwnedIdentitiesOnly();
    RecordedByDrift(h.sys, snapshot, {k}, writes, f0);
    if checked.Err? { return Err(checked.error); }
    checked := VerifyRollbackBoundary(h, snapshot, writes, {k});
    if checked.Err? {
      var fallback := RestoreWrittenAndCommitGoals(h, snapshot, writes, k);
      return Err(WithRollback(checked.error, fallback));
    }
    checked := RestoreWritten(h, snapshot, writes, {k});
    if checked.Err? { return Err(checked.error); }
    ghost var f1 := h.sys.files;
    r := CommitRestoredGoals(h, snapshot, k);
    RecordedByDrift(h.sys, snapshot, {k}, writes, f1);
  }

  method CommitRestoredGoals(h: ManagedHierarchy, snapshot: seq<Entry>, k: nat) returns (r: Result<StagedOwnership>)
    requires h.Valid() && IsCapture(h.sys.schema, snapshot)
    requires h.sys.exclusive ==> Agrees(snapshot, h.staged.volatile + h.sys.retuned, h.sys.files)
    modifies h.sys
    ensures h.Valid() && (h.sys.exclusive ==> Calm(h.sys.retuned, old(h.sys.files), h.sys.files))
    ensures h.sys.exclusive ==> OnlyGoalsChanged(h.sys.schema, old(h.sys.active), h.sys.active, k)
    ensures r.Ok? ==> IsCapture(h.sys.schema, r.value.entries) && r.value == h.staged.(entries := r.value.entries)
    ensures r.Ok? && h.sys.exclusive ==>
              GoalsRolledBack(h, snapshot, k) && Agrees(r.value.entries, r.value.volatile + h.sys.retuned, h.sys.files)
  {
    ghost var f0, agreed := h.sys.files, h.staged.volatile + h.sys.retuned;
    if h.sys.exclusive { AgreementFixesShape(h.sys.schema, snapshot, agreed, f0); }
    hide SysfsModel.Sysfs.Valid, RunInvariant, Sorted, Values, Agrees, Consistent, GoalsAsStaged, OnlyGoalsChanged,
         Looked;
    var checked := CommitGoals(h, k);
    if checked.Err? { return Err(checked.error); }
    ghost var f1 := h.sys.files;
    if h.sys.exclusive { StaysRestored(h.sys, snapshot, agreed, f0); }
    checked := CheckUnchanged(h, snapshot);
    if checked.Err? { return Err(checked.error); }
    var adopted := AdoptRestoredGoals(h);
    if h.sys.exclusive {
      StaysRestored(h.sys, snapshot, agreed, f1);
      GoalsByDrift(h.sys.schema, h.sys.retuned, h.sys.active, f1, h.sys.files, k);
    }
    r := adopted;
  }

  method AdoptRestoredGoals(h: ManagedHierarchy) returns (r: Result<StagedOwnership>)
    requires h.Valid()
    modifies h.sys
    ensures h.Valid() && h.sys.Still()
    ensures r.Ok? ==> IsCapture(h.sys.schema, r.value.entries) && r.value == h.staged.(entries := r.value.entries)
    ensures r.Ok? && h.sys.exclusive ==> Agrees(r.value.entries, r.value.volatile + h.sys.retuned, h.sys.files)
  {
    hide SysfsModel.Sysfs.Valid, RunInvariant, Sorted, Values, Agrees, Consistent, Looked;
    ghost var t := h.sys.trace;
    var current := RetryCapture(h.sys);
    LookingKeepsInvariant(h.states, t, h.sys.trace);
    if current.Err? { return Err(current.error); }
    var ownership := h.staged.(entries := current.value);
    var checked := VerifyOwnership(h, ownership);
    r := if checked.Ok? then Ok(ownership) else Err(checked.error);
  }

  // ---------- the whole update ----------

  datatype GoalsPrepared = GoalsPrepared(snapshot: seq<Entry>, quotas: Path, previous: QuotaConfig)

  /** The count files call for such a scheme. */
  ghost predicate SchemeExists(K: Schema, t: Tree, k: nat, c: nat, s: nat) {
    var contexts := KdamondDir(K, k) + ["contexts", "nr_contexts"];
    var schemes := KdamondDir(K, k) + ["contexts", K.decimal(c), "schemes", "nr_schemes"];
    contexts in t && schemes in t && c < CountOf(K, t, contexts) && s < CountOf(K, t, schemes)
  }

  /** The handle of a scheme, if its indices are in range. */
  method FindScheme(h: ManagedHierarchy, k: nat, c: nat, s: nat) returns (r: Result<Path>)
    requires h.Valid()
    modifies h.sys
    ensures h.Valid() && h.sys.Quiet()
    ensures r.Ok? ==> r.value == QuotasDir(h.sys.schema, k, c, s)
    ensures h.sys.steady && h.sys.exclusive && h.sys.retuned == {} && SchemeExists(h.sys.schema, old(h.sys.files), k, c, s) ==> r.Ok?
    ensures r.Err? ==> !r.error.Rollback?
  {
    hide SysfsModel.Sysfs.Valid, IsCapture, RunInvariant, Sorted;
    var contexts := ReadNumber(h.sys, KdamondDir(h.sys.schema, k) + ["contexts", "nr_contexts"]);
    if h.sys.exclusive && h.sys.retuned == {} { CalmIsEqual(old(h.sys.files), h.sys.files); }
    if contexts.Err? { return Err(contexts.error); }
    if c >= contexts.value { return Err(IndexOutOfBounds); }
    var schemes := ReadNumber(h.sys, KdamondDir(h.sys.schema, k) + ["contexts", h.sys.schema.decimal(c), "schemes", "nr_schemes"]);
    if schemes.Err? { return Err(schemes.error); }
    if s >= schemes.value { return Err(IndexOutOfBounds); }
    r := Ok(QuotasDir(h.sys.schema, k, c, s));
  }

  /** The quota is what some tree equal to `t`, retuned leaves apart, reads as. */
  ghost predicate QuotaFrom(sys: Sysfs, view: GoalView, quotas: Path, t: Tree, quota: QuotaConfig) {
    exists seen: Tree :: Calm(sys.retuned, t, seen) && view.quota(seen, quotas) == Some(quota)
  }

  lemma QuotaFromEarlier(sys: Sysfs, view: GoalView, quotas: Path, t: Tree, u: Tree, quota: QuotaConfig)
    requires Calm(sys.retuned, t, u) && QuotaFrom(sys, view, quotas, u, quota)
    ensures QuotaFrom(sys, view, quotas, t, quota)
  {
    var seen: Tree :| Calm(sys.retuned, u, seen) && view.quota(seen, quotas) == Some(quota);
    CalmTransitive(sys.retuned, t, u, seen);
  }

  /** One quota. The goals in it are those staged now. */
  method ReadQuota(sys: Sysfs, view: GoalView, quotas: Path) returns (r: Result<QuotaConfig>)
    requires sys.Valid() && view.Lawful(sys.schema)
    modifies sys
    ensures sys.Valid() && sys.Quiet()
    ensures r.Ok? && sys.exclusive ==> GoalsAt(sys.schema, view, sys.files, quotas) == Some(r.value.goals)
    ensures r.Ok? && sys.exclusive ==> QuotaFrom(sys, view, quotas, old(sys.files), r.value)
    ensures sys.steady && view.quota(old(sys.files), quotas).Some? ==> r == Ok(view.quota(old(sys.files), quotas).value)
    ensures r.Err? ==> r.error.IsAccessFailure() || r.error == InvalidKernelValue
  {
    hide SysfsModel.Sysfs.Valid, GoalView.Lawful, GoalsAt;
    ghost var seen := sys.files;
    var failure := sys.Attempt();
    var config := view.quota(sys.files, quotas);
    r := if failure.Some? then Err(failure.value) else if config.None? then Err(InvalidKernelValue) else Ok(config.value);
    sys.Interfere();
    if r.Ok? && sys.exclusive {
      CalmNothing(sys.retuned, seen);
      assert QuotaFrom(sys, view, quotas, seen, r.value);
      QuotaShowsGoals(sys, view, quotas, seen, r.value);
    }
  }

  lemma QuotaShowsGoals(sys: Sysfs, view: GoalView, quotas: Path, seen: Tree, config: QuotaConfig)
    requires sys.Valid() && view.Lawful(sys.schema) && view.quota(seen, quotas) == Some(config) && Calm(sys.retuned, seen, sys.files)
    ensures GoalsAt(sys.schema, view, sys.files, quotas) == Some(config.goals)
  {
    GoalsReadAlike(sys.schema, view, sys.retuned, quotas, seen, sys.files);
  }

  method RetryQuota(sys: Sysfs, view: GoalView, quotas: Path) returns (r: Result<QuotaConfig>)
    requires sys.Valid() && view.Lawful(sys.schema)
    modifies sys
    ensures sys.Valid() && sys.Quiet()
    ensures r.Ok? && sys.exclusive ==> GoalsAt(sys.schema, view, sys.files, quotas) == Some(r.value.goals)
    ensures r.Ok? && sys.exclusive ==> QuotaFrom(sys, view, quotas, old(sys.files), r.value)
    ensures sys.steady && view.quota(old(sys.files), quotas).Some? ==> r == Ok(view.quota(old(sys.files), quotas).value)
    ensures r.Err? ==> r.error.IsAccessFailure() || r.error == InvalidKernelValue
  {
    hide SysfsModel.Sysfs.Valid, GoalView.Lawful, GoalsAt, QuotaFrom;
    var retries := 0;
    r := ReadQuota(sys, view, quotas);
    while r.Err? && r.error.Busy? && retries < MAX_RETRIES
      invariant sys.Valid() && sys.Quiet()
      invariant r.Ok? && sys.exclusive ==> GoalsAt(sys.schema, view, sys.files, quotas) == Some(r.value.goals)
      invariant r.Ok? && sys.exclusive ==> QuotaFrom(sys, view, quotas, old(sys.files), r.value)
      invariant sys.steady && view.quota(old(sys.files), quotas).Some? ==> r == Ok(view.quota(old(sys.files), quotas).value)
      invariant r.Err? ==> r.error.IsAccessFailure() || r.error == InvalidKernelValue
      decreases MAX_RETRIES - retries
    {
      ghost var t := sys.files;
      r := ReadQuota(sys, view, quotas);
      if r.Ok? && sys.exclusive { QuotaFromEarlier(sys, view, quotas, old(sys.files), t, r.value); }
      retries := retries + 1;
    }
  }

  /** The staged goals are these. */
  ghost predicate ReadsGoals(sys: Sysfs, view: GoalView, quotas: Path, goals: seq<GoalConfig>)
    reads sys
  {
    sys.exclusive ==> GoalsAt(sys.schema, view, sys.files, quotas) == Some(goals)
  }

  lemma ReadsGoalsByDrift(sys: Sysfs, view: GoalView, quotas: Path, goals: seq<GoalConfig>, t: Tree)
    requires sys.Valid() && (sys.exclusive ==> Calm(sys.retuned, t, sys.files) && GoalsAt(sys.schema, view, t, quotas) == Some(goals))
    ensures ReadsGoals(sys, view, quotas, goals)
  {
    if sys.exclusive { GoalsReadAlike(sys.schema, view, sys.retuned, quotas, t, sys.files); }
  }

  /** Valid goals for some running kdamond of an owned hierarchy. */
  predicate GoalsAdmissible(h: ManagedHierarchy, k: nat, goals: seq<GoalConfig>)
    reads h
  {
    h.ownsHierarchy && k < |h.states| && h.states[k].Running? && ValidGoals(goals)
  }

  /** A goal update with everything it needs: a scheme of a running kdamond, whose quota stays
      valid, and goals that are staged already or can be. */
  ghost predicate GoalsAcceptable(h: ManagedHierarchy, view: GoalView, k: nat, c: nat, s: nat, goals: seq<GoalConfig>, t: Tree)
    reads h
  {
    var quotas := QuotasDir(h.sys.schema, k, c, s);
    && GoalsAdmissible(h, k, goals) && SchemeExists(h.sys.schema, t, k, c, s)
    && view.quota(t, quotas).Some? && ValidQuota(view.quota(t, quotas).value.(goals := goals))
    && (goals == view.quota(t, quotas).value.goals || Installable(h.sys.schema, view, t, quotas, goals))
  }

  method PrepareGoals(h: ManagedHierarchy, view: GoalView, k: nat, c: nat, s: nat, goals: seq<GoalConfig>)
    returns (r: Result<GoalsPrepared>)
    requires h.Valid() && view.Lawful(h.sys.schema)
    modifies h.sys
    ensures h.Valid() && h.sys.Still() && Looked(old(h.sys.trace), h.sys.trace)
    ensures r.Ok? ==> GoalsAdmissible(h, k, goals) && h.AllSeen(|old(h.sys.trace)|, true)
    ensures r.Ok? ==>
              && IsCapture(h.sys.schema, r.value.snapshot)
              && r.value.quotas == QuotasDir(h.sys.schema, k, c, s)
              && ValidQuota(r.value.previous.(goals := goals))
              && ReadsGoals(h.sys, view, r.value.quotas, r.value.previous.goals)
    ensures r.Ok? && h.sys.exclusive ==>
              Calm(h.sys.retuned, old(h.sys.files), Values(r.value.snapshot)) && Calm(h.sys.retuned, Values(r.value.snapshot), h.sys.files)
    ensures old(h.InOrder()) && h.sys.retuned == {} && GoalsAcceptable(h, view, k, c, s, goals, old(h.sys.files)) ==>
              r.Ok? && Some(r.value.previous) == view.quota(old(h.sys.files), r.value.quotas)
    ensures r.Ok? && h.sys.exclusive ==> QuotaFrom(h.sys, view, r.value.quotas, old(h.sys.files), r.value.previous)
    ensures r.Err? ==> !r.error.Rollback?
  {
    hide ManagedHierarchy.Valid, ManagedHierarchy.InStep, AllFit, Looked, IsCapture, Values, ValidQuota, ValidGoals,
         GoalView.Lawful, QuotasDir, ReadsGoals, SeenAs, Calm, SchemeExists, Installable, QuotaFrom;
    if h.InOrder() { InOrderIsIntact(h); }
    LookedNothing(h.sys.trace);
    CalmNothing(h.sys.retuned, h.sys.files);
    if k >= |h.states| { return Err(IndexOutOfBounds); }
    if !ValidGoals(goals) { return Err(InvalidConfiguration); }
    var pid := h.ExpectedRunningPid(k);
    if pid.Err? { return Err(pid.error); }
    r := GatherGoals(h, view, k, c, s);
    if r.Err? { return; }
    if !ValidQuota(r.value.previous.(goals := goals)) { return Err(InvalidConfiguration); }
  }

  /** The preceding hierarchy and the scheme's quota, between two complete checks. */
  method GatherGoals(h: ManagedHierarchy, view: GoalView, k: nat, c: nat, s: nat) returns (r: Result<GoalsPrepared>)
    requires h.Valid() && view.Lawful(h.sys.schema)
    modifies h.sys
    ensures h.Valid() && h.sys.Still() && Looked(old(h.sys.trace), h.sys.trace)
    ensures r.Ok? ==> h.ownsHierarchy && h.AllSeen(|old(h.sys.trace)|, true)
    ensures r.Ok? ==>
              && IsCapture(h.sys.schema, r.value.snapshot)
              && r.value.quotas == QuotasDir(h.sys.schema, k, c, s)
              && ReadsGoals(h.sys, view, r.value.quotas, r.value.previous.goals)
    ensures r.Ok? && h.sys.exclusive ==>
              Calm(h.sys.retuned, old(h.sys.files), Values(r.value.snapshot)) && Calm(h.sys.retuned, Values(r.value.snapshot), h.sys.files)
    ensures (h.ownsHierarchy && old(h.Alive() && h.Intact()) && h.sys.retuned == {} && SchemeExists(h.sys.schema, old(h.sys.files), k, c, s)
             && view.quota(old(h.sys.files), QuotasDir(h.sys.schema, k, c, s)).Some?) ==>
              r.Ok? && Some(r.value.previous) == view.quota(old(h.sys.files), r.value.quotas)
    ensures r.Ok? && h.sys.exclusive ==> QuotaFrom(h.sys, view, r.value.quotas, old(h.sys.files), r.value.previous)
    ensures r.Err? ==> !r.error.Rollback?
  {
    hide SysfsModel.Sysfs.Valid, RunInvariant, Sorted, Looked, Values, Consistent, Agrees, GoalView.Lawful, QuotasDir,
         ReadsGoals, SeenAs, SchemeExists, GoalsAt, AllFit, NoCounts, NoTargets, QuotaFrom;
    ghost var t0, f0 := h.sys.trace, h.sys.files;
    var checked := h.VerifyOwnedState();
    if checked.Err? { return Err(checked.error); }
    if h.sys.exclusive {
      IntactLater(h, f0);
      if h.sys.retuned == {} { CalmIsEqual(f0, h.sys.files); }
    }
    ghost var t1, fa := h.sys.trace, h.sys.files;
    r := ReadGoalsState(h, view, k, c, s);
    LookedTransitive(t0, t1, h.sys.trace);
    if r.Err? { return; }
    if h.sys.exclusive {
      IntactLater(h, fa);
      QuotaFromEarlier(h.sys, view, r.value.quotas, f0, fa, r.value.previous);
    }
    ghost var t2, fb := h.sys.trace, h.sys.files;
    LookedExtends(t0, t2);
    checked := h.VerifyOwnedState();
    LookedTransitive(t0, t2, h.sys.trace);
    if checked.Err? { return Err(checked.error); }
    SeenSince(h, |t2|, t0, true);
    ReadsGoalsLater(h, view, r.value.quotas, r.value.previous.goals, fb);
    if h.sys.exclusive { CalmTransitive(h.sys.retuned, Values(r.value.snapshot), fb, h.sys.files); }
  }

  lemma ReadsGoalsLater(h: ManagedHierarchy, view: GoalView, quotas: Path, goals: seq<GoalConfig>, t: Tree)
    requires h.Valid() && (h.sys.exclusive ==> Calm(h.sys.retuned, t, h.sys.files) && GoalsAt(h.sys.schema, view, t, quotas) == Some(goals))
    ensures ReadsGoals(h.sys, view, quotas, goals)
  {
    ReadsGoalsByDrift(h.sys, view, quotas, goals, t);
  }

  method ReadGoalsState(h: ManagedHierarchy, view: GoalView, k: nat, c: nat, s: nat) returns (r: Result<GoalsPrepared>)
    requires h.Valid() && view.Lawful(h.sys.schema)
    modifies h.sys
    ensures h.Valid() && h.sys.Still() && Looked(old(h.sys.trace), h.sys.trace)
    ensures r.Ok? ==> IsCapture(h.sys.schema, r.value.snapshot) && r.value.quotas == QuotasDir(h.sys.schema, k, c, s)
    ensures r.Ok? && h.sys.exclusive ==>
              && Calm(h.sys.retuned, old(h.sys.files), Values(r.value.snapshot)) && Calm(h.sys.retuned, Values(r.value.snapshot), h.sys.files)
              && GoalsAt(h.sys.schema, view, h.sys.files, r.value.quotas) == Some(r.value.previous.goals)
    ensures (h.sys.exclusive && h.sys.steady && h.sys.retuned == {} && SchemeExists(h.sys.schema, old(h.sys.files), k, c, s)
             && view.quota(old(h.sys.files), QuotasDir(h.sys.schema, k, c, s)).Some?) ==>
              r.Ok? && Some(r.value.previous) == view.quota(old(h.sys.files), r.value.quotas)
    ensures r.Ok? && h.sys.exclusive ==> QuotaFrom(h.sys, view, r.value.quotas, old(h.sys.files), r.value.previous)
    ensures r.Err? ==> !r.error.Rollback?
  {
    hide SysfsModel.Sysfs.Valid, RunInvariant, Sorted, Looked, Values, Consistent, Agrees, GoalView.Lawful, QuotasDir,
         SchemeExists, GoalsAt, AllFit, NoCounts, NoTargets, QuotaFrom;
    ghost var t0, f0 := h.sys.trace, h.sys.files;
    var snapshot := RetryCapture(h.sys);
    LookingKeepsInvariant(h.states, t0, h.sys.trace);
    if h.sys.exclusive && h.sys.retuned == {} { CalmIsEqual(f0, h.sys.files); }
    if snapshot.Err? { return Err(snapshot.error); }
    var quotas := FindScheme(h, k, c, s);
    if h.sys.exclusive && h.sys.retuned == {} { CalmIsEqual(f0, h.sys.files); }
    ghost var f1 := h.sys.files;
    if quotas.Err? { return Err(quotas.error); }
    var config := RetryQuota(h.sys, view, quotas.value);
    if config.Err? { return Err(config.error); }
    if h.sys.exclusive { QuotaFromEarlier(h.sys, view, quotas.value, f0, f1, config.value); }
    ghost var f2 := h.sys.files;
    if h.sys.exclusive && h.sys.retuned == {} { CapturedStillExcept(h.sys, snapshot.value, h.staged.volatile); }
    var matches := RetryMatchesExcept(h.sys, snapshot.value, h.staged.volatile);
    if h.sys.exclusive && h.sys.retuned == {} { CapturedStillExcept(h.sys, snapshot.value, h.staged.volatile); }
    if matches.Err? { return Err(matches.error); }
    if !matches.value { return Err(OwnershipLost(ValuesChanged)); }
    if h.sys.exclusive { GoalsStayRead(h, view, quotas.value, f2); }
    r := Ok(GoalsPrepared(snapshot.value, quotas.value, config.value));
  }

  lemma GoalsStayRead(h: ManagedHierarchy, view: GoalView, quotas: Path, t: Tree)
    requires h.Valid() && Calm(h.sys.retuned, t, h.sys.files)
    ensures GoalsAt(h.sys.schema, view, t, quotas) == GoalsAt(h.sys.schema, view, h.sys.files, quotas)
  {
    LawfulHierarchy(h);
    GoalsReadAlike(h.sys.schema, view, h.sys.retuned, quotas, t, h.sys.files);
  }

  /** The scheme's quota is valid with these goals, too. */
  ghost predicate LeavesQuotaValid(sys: Sysfs, view: GoalView, quotas: Path, t: Tree, goals: seq<GoalConfig>) {
    exists quota :: QuotaFrom(sys, view, quotas, t, quota) && ValidQuota(quota.(goals := goals))
  }

  /** After an error that is no failed rollback: staged values as before, and the goals the
      kdamond runs untouched or those staged for it. */
  ghost predicate GoalsUndone(K: Schema, loose: set<Path>, volatile: set<Path>, active0: map<nat, Tree>, files0: Tree,
                              active: map<nat, Tree>, files: Tree, k: nat) {
    Calm(volatile + loose, files0, files) && (active == active0 || GoalsAsStaged(K, loose, active, files, k))
  }

  /** Success: the goals read back as requested, and the kdamond runs them (or ran them
      already and nothing was done). Any failure but a failed rollback undoes the call.
      Nothing else any kdamond runs is affected, whatever the outcome, and nothing but reads
      happens unless the update is admissible. A hierarchy that was in step is in step again. */
  method UpdateSchemeQuotaGoals(h: ManagedHierarchy, view: GoalView, k: nat, c: nat, s: nat, goals: seq<GoalConfig>)
    returns (r: Result<()>, ghost seen: Tree)
    requires h.Valid() && view.Lawful(h.sys.schema)
    modifies h`staged, h.sys
    ensures h.Valid()
    ensures Looked(old(h.sys.trace), h.sys.trace) || GoalsAdmissible(h, k, goals)
    ensures Looked(old(h.sys.trace), h.sys.trace) || (h.sys.exclusive ==> LeavesQuotaValid(h.sys, view, QuotasDir(h.sys.schema, k, c, s), old(h.sys.files), goals))
    ensures h.sys.exclusive ==> OnlyGoalsChanged(h.sys.schema, old(h.sys.active), h.sys.active, k)
    ensures r.Ok? ==>
              || GoalsUpdated(h, view, QuotasDir(h.sys.schema, k, c, s), goals, seen, k)
              || (ReadsGoals(h.sys, view, QuotasDir(h.sys.schema, k, c, s), goals) && Looked(old(h.sys.trace), h.sys.trace)
                  && h.staged == old(h.staged) && (h.sys.exclusive ==> h.sys.active == old(h.sys.active)))
    ensures r.Err? && !r.error.Rollback? && h.sys.exclusive ==>
              GoalsUndone(h.sys.schema, h.sys.retuned, old(h.staged.volatile), old(h.sys.active), old(h.sys.files), h.sys.active, h.sys.files, k)
    ensures old(Owns(h)) && (r.Err? ==> !r.error.Rollback?) ==> Owns(h)
    ensures h.staged.volatile == old(h.staged.volatile) && h.staged.count == old(h.staged.count)
    ensures old(h.InStep()) && (r.Err? ==> !r.error.Rollback?) ==> h.InStep()
    ensures old(h.InOrder()) && h.sys.retuned == {} && GoalsAcceptable(h, view, k, c, s, goals, old(h.sys.files)) ==> r.Ok? && h.InOrder()
    ensures old(h.InStep()) && r.Err? && !r.error.Rollback? && h.sys.exclusive ==>
              RunsOn(h, old(h.staged.volatile) + h.sys.retuned, old(h.sys.active))
  {
    hide SysfsModel.Sysfs.Valid, RunInvariant, Sorted, Looked, Values, Consistent, Agrees, ValidQuota, AllFit,
         KdamondsKept, Installable, SchemeExists, QuotaFrom, GoalView.Lawful, QuotasDir, GoalsAsStaged,
         OnlyGoalsChanged, GoalsUpdated, ReadsGoals, GoalsUndone, InStepIn, OwnedIn, Calm, NoTargets, FrameKept,
         GoalFootprint, SameRunning;
    ghost var f0, a0, s0, v0, threads0 := h.sys.files, h.sys.active, h.staged, h.staged.volatile, h.sys.threads;
    if h.InOrder() && h.sys.retuned == {} {
      InOrderIsUndisputed(h);
      InOrderIsIntact(h);
    }
    seen := map[];
    OnlyGoalsUnchanged(h.sys.schema, a0, k);
    var prepared := PrepareGoals(h, view, k, c, s, goals);
    if h.sys.exclusive {
      NothingUndone(h.sys, v0, a0, f0, k);
      OwnsByDrift(h, f0);
    }
    InStepLater(h, h.states, f0);
    if h.sys.exclusive && InStepIn(h.sys.schema, h.sys.retuned, h.sys.targets, h.states, a0, f0) { SameStillRuns(h, v0 + h.sys.retuned, f0); }
    UndisputedDrift(h, f0, threads0);
    if h.sys.exclusive { IntactLater(h, f0); }
    if prepared.Err? { return Err(prepared.error), seen; }
    if h.sys.exclusive && h.sys.retuned == {} { CalmIsEqual(f0, h.sys.files); }
    ghost var f1, threads1 := h.sys.files, h.sys.threads;
    QuotasBelong(h.sys.schema, k, c, s);
    if h.sys.exclusive { assert LeavesQuotaValid(h.sys, view, prepared.value.quotas, f0, goals); }
    if goals == prepared.value.previous.goals { return Ok(()), seen; }
    r, seen := TransactGoals(h, view, k, prepared.value, goals);
    if h.sys.exclusive && KdamondsKept(h.sys, f1, threads1, h.sys.files, h.sys.threads) { UndisputedKept(h, f1, threads1, h.sys.files, h.sys.threads); }
    if h.sys.exclusive && (r.Ok? || !r.error.Rollback?) {
      FrameAfterDrift(GoalFootprint(h.sys.schema, prepared.value.quotas, goals, prepared.value.previous.goals), h.sys.retuned, f0, Values(prepared.value.snapshot), h.sys.files);
      if InStepWith(h, s0, a0, f0) { InStepAfterGoals(h, s0, a0, f0, k, c, s, goals, prepared.value.previous.goals); }
    }
    if r.Err? && !r.error.Rollback? && h.sys.exclusive {
      GoalsUndoneSince(h.sys, v0, a0, f0, Values(prepared.value.snapshot), k);
      if InStepWith(h, s0, a0, f0) { RunsAfterUndo(h, v0, a0, f0, k); }
    }
  }

  lemma RunsAfterUndo(h: ManagedHierarchy, volatile: set<Path>, active0: map<nat, Tree>, files0: Tree, k: nat)
    requires h.Valid() && h.sys.exclusive && h.staged.volatile == volatile && h.InStep()
    requires GoalsUndone(h.sys.schema, h.sys.retuned, volatile, active0, files0, h.sys.active, h.sys.files, k)
    requires InStepIn(h.sys.schema, h.sys.retuned, h.sys.targets, h.states, active0, files0)
    ensures RunsOn(h, volatile + h.sys.retuned, active0)
  {
    hide SysfsModel.Sysfs.Valid, InStepIn, OwnedIn, GoalsAsStaged, Calm, RunsOn;
    StepsRunOn(h, volatile, active0, files0);
  }

  lemma SameStillRuns(h: ManagedHierarchy, loose: set<Path>, files0: Tree)
    requires InStepIn(h.sys.schema, h.sys.retuned, h.sys.targets, h.states, h.sys.active, files0)
    ensures RunsOn(h, loose, h.sys.active)
  {
  }

  /** The footprint of one scheme's goals consists of goal leaves of its kdamond. */
  lemma FootprintIsGoals(K: Schema, k: nat, c: nat, s: nat, goals: seq<GoalConfig>, observed: seq<GoalConfig>, p: Path)
    requires GoalFootprint(K, QuotasDir(K, k, c, s), goals, observed).Has(p)
    ensures IsGoalLeaf(K, p) && KdamondDir(K, k) <= p
  {
    var root := QuotasDir(K, k, c, s) + ["goals"];
    assert root <= p;
    assert p[..|root|] == root;
    assert root[|K.base| + 1] == "contexts" && root[|K.base| + 3] == "schemes" && root[|K.base| + 5] == "quotas" && root[|K.base| + 6] == "goals";
  }

  lemma StepsAfterGoals(sys: Sysfs, states: seq<SessionState>, active0: map<nat, Tree>, files0: Tree, k: nat)
    requires sys.Valid() && OnlyGoalLeaves(sys.schema, sys.retuned, k, files0, sys.files)
    requires OnlyGoalsChanged(sys.schema, active0, sys.active, k) && GoalsAsStaged(sys.schema, sys.retuned, sys.active, sys.files, k)
    requires InStepIn(sys.schema, sys.retuned, sys.targets, states, active0, files0)
    ensures InStepIn(sys.schema, sys.retuned, sys.targets, states, sys.active, sys.files)
  {
    var K, loose, targets := sys.schema, sys.retuned, sys.targets;
    assert K.Valid() && NoTargets(K, loose);
    hide SysfsModel.Sysfs.Valid, Schema.Valid, NoTargets, Clean, InStepAt, GoalsAsStaged, OnlyGoalsChanged,
         OnlyGoalLeaves;
    forall i: nat | i < |states|
      ensures Clean(K, targets, sys.files, i) && (states[i].Running? ==> InStepAt(K, loose, targets, sys.active, sys.files, i))
    {
      GoalStep(K, loose, targets, active0, files0, sys.active, sys.files, k, i);
    }
  }

  /** Quota goals have nothing to do with the tuning of intervals. */
  lemma GoalsSpareTuning(K: Schema, loose: set<Path>, k: nat, t: Tree, u: Tree)
    requires OnlyGoalLeaves(K, loose, k, t, u) && OnlyIntervals(loose)
    ensures SameTuning(K, t, u)
  {
  }

  lemma OwnedAfterGoals(h: ManagedHierarchy, staged0: StagedOwnership, files0: Tree, k: nat)
    requires h.Valid() && h.sys.exclusive && OnlyGoalLeaves(h.sys.schema, h.sys.retuned, k, files0, h.sys.files)
    requires OwnedIn(h.sys.schema, h.sys.retuned, staged0, files0) && Owns(h) && IsCapture(h.sys.schema, h.staged.entries)
    requires h.staged.volatile == staged0.volatile && h.staged.count == staged0.count
    ensures OwnedIn(h.sys.schema, h.sys.retuned, h.staged, h.sys.files)
  {
    assert h.sys.schema.Lawful() && OnlyIntervals(h.sys.retuned);
    hide ManagedHierarchy.Valid, Schema.Lawful, OnlyGoalLeaves, IsCapture, Agrees, TunedAs, SameTuning, OnlyIntervals;
    GoalsSpareTuning(h.sys.schema, h.sys.retuned, k, files0, h.sys.files);
    TunedAsKept(h.sys.schema, files0, h.sys.files, h.staged.volatile, h.staged.count);
  }

  /** Goals staged and committed together leave the whole hierarchy in step. */
  lemma InStepAfterGoals(h: ManagedHierarchy, staged0: StagedOwnership, active0: map<nat, Tree>, files0: Tree, k: nat, c: nat, s: nat, goals: seq<GoalConfig>, observed: seq<GoalConfig>)
    requires h.Valid() && h.sys.exclusive && InStepWith(h, staged0, active0, files0)
    requires FrameKept(GoalFootprint(h.sys.schema, QuotasDir(h.sys.schema, k, c, s), goals, observed), h.sys.retuned, files0, h.sys.files)
    requires OnlyGoalsChanged(h.sys.schema, active0, h.sys.active, k) && GoalsAsStaged(h.sys.schema, h.sys.retuned, h.sys.active, h.sys.files, k)
    requires Owns(h) && IsCapture(h.sys.schema, h.staged.entries)
    requires h.staged.volatile == staged0.volatile && h.staged.count == staged0.count
    ensures h.InStep()
  {
    var foot := GoalFootprint(h.sys.schema, QuotasDir(h.sys.schema, k, c, s), goals, observed);
    assert h.sys.Valid();
    hide ManagedHierarchy.Valid, SysfsModel.Sysfs.Valid, FrameKept, GoalFootprint, QuotasDir, IsCapture, Agrees,
         OwnedIn, InStepIn, GoalsAsStaged, OnlyGoalsChanged, OnlyGoalLeaves;
    forall p | foot.Has(p) ensures IsGoalLeaf(h.sys.schema, p) && KdamondDir(h.sys.schema, k) <= p {
      FootprintIsGoals(h.sys.schema, k, c, s, goals, observed, p);
    }
    GoalsApart(h.sys.schema, h.sys.retuned, foot, k, files0, h.sys.files);
    StepsAfterGoals(h.sys, h.states, active0, files0, k);
    assert h.Valid();
    OwnedAfterGoals(h, staged0, files0, k);
  }

  /** The same leaves with the same values, apart from goals of kdamond `k`. */
  ghost predicate OnlyGoalLeaves(K: Schema, loose: set<Path>, k: nat, t: Tree, u: Tree) {
    forall p | !(IsGoalLeaf(K, p) && KdamondDir(K, k) <= p) :: (p in t <==> p in u) && (p in t && p !in loose ==> t[p] == u[p])
  }

  lemma GoalsApart(K: Schema, loose: set<Path>, foot: Footprint, k: nat, t: Tree, u: Tree)
    requires FrameKept(foot, loose, t, u) && forall p | foot.Has(p) :: IsGoalLeaf(K, p) && KdamondDir(K, k) <= p
    ensures OnlyGoalLeaves(K, loose, k, t, u)
  {
  }

  lemma GoalStep(K: Schema, loose: set<Path>, targets: TargetReader, active0: map<nat, Tree>, t: Tree, active: map<nat, Tree>, u: Tree, k: nat, i: nat)
    requires K.Valid() && NoTargets(K, loose) && OnlyGoalLeaves(K, loose, k, t, u)
    requires OnlyGoalsChanged(K, active0, active, k) && GoalsAsStaged(K, loose, active, u, k)
    ensures Clean(K, targets, t, i) ==> Clean(K, targets, u, i)
    ensures InStepAt(K, loose, targets, active0, t, i) ==> InStepAt(K, loose, targets, active, u, i)
  {
    var root := KdamondDir(K, i);
    if i != k {
      forall p | (p in t || p in u) && root <= p ensures !(KdamondDir(K, k) <= p) {
        assert root[|K.base|] == K.decimal(i) && KdamondDir(K, k)[|K.base|] == K.decimal(k);
        assert K.number(K.decimal(i)) != K.number(K.decimal(k));
      }
      assert Calm(loose, Subtree(t, root), Subtree(u, root));
      if Clean(K, targets, t, i) { CleanBelow(K, loose, targets, t, u, i); }
      if InStepAt(K, loose, targets, active0, t, i) { InStepBelow(K, loose, targets, active0, t, active, u, i); }
    } else {
      GoalsSpareTargets(K, loose, k, Subtree(t, root), Subtree(u, root));
      if InStepAt(K, loose, targets, active0, t, i) {
        GoalsSpareTargets(K, loose, k, active0[i], active[i]);
        GoalsMatch(K, loose, Subtree(t, root), active0[i], Subtree(u, root), active[i]);
      }
    }
  }

  lemma GoalsSpareTargets(K: Schema, loose: set<Path>, k: nat, t: Tree, u: Tree)
    requires NoTargets(K, loose)
    requires forall p | !IsGoalLeaf(K, p) :: (p in t <==> p in u) && (p in t && p !in loose ==> t[p] == u[p])
    ensures TargetPart(K, t) == TargetPart(K, u)
  {
  }

  lemma GoalsMatch(K: Schema, loose: set<Path>, staged0: Tree, active0: Tree, staged: Tree, active: Tree)
    requires SameElsewhere(K, loose, staged0, active0)
    requires forall p | !IsGoalLeaf(K, p) :: (p in staged0 <==> p in staged) && (p in staged0 && p !in loose ==> staged0[p] == staged[p])
    requires forall p | !IsGoalLeaf(K, p) :: (p in active0 <==> p in active) && (p in active0 ==> active0[p] == active[p])
    requires forall p | IsGoalLeaf(K, p) :: (p in active <==> p in staged) && (p in active && p !in loose ==> active[p] == staged[p])
    ensures SameElsewhere(K, loose, staged, active)
  {
    forall p | !IsTargetLeaf(K, p) ensures (p in staged <==> p in active) && (p in staged && p !in loose ==> staged[p] == active[p]) {
      if !IsGoalLeaf(K, p) { assert p in staged0 <==> p in active0; }
    }
  }

  lemma QuotasBelong(K: Schema, k: nat, c: nat, s: nat)
    ensures QuotasOf(K, QuotasDir(K, k, c, s), k)
  {
  }

  lemma NothingUndone(sys: Sysfs, volatile: set<Path>, active0: map<nat, Tree>, files0: Tree, k: nat)
    requires Calm(sys.retuned, files0, sys.files) && sys.active == active0
    ensures GoalsUndone(sys.schema, sys.retuned, volatile, active0, files0, sys.active, sys.files, k)
  {
    CalmWidens(sys.retuned, volatile + sys.retuned, files0, sys.files);
  }

  lemma GoalsUndoneSince(sys: Sysfs, volatile: set<Path>, active0: map<nat, Tree>, files0: Tree, captured: Tree, k: nat)
    requires Calm(sys.retuned, files0, captured)
    requires GoalsUndone(sys.schema, sys.retuned, volatile, active0, captured, sys.active, sys.files, k)
    ensures GoalsUndone(sys.schema, sys.retuned, volatile, active0, files0, sys.active, sys.files, k)
  {
  }

  method TransactGoals(h: ManagedHierarchy, view: GoalView, k: nat, p: GoalsPrepared, goals: seq<GoalConfig>)
    returns (r: Result<()>, ghost seen: Tree)
    requires h.Valid() && IsCapture(h.sys.schema, p.snapshot) && QuotasOf(h.sys.schema, p.quotas, k)
    requires view.Lawful(h.sys.schema) && ReadsGoals(h.sys, view, p.quotas, p.previous.goals)
    requires h.sys.exclusive ==> Calm(h.sys.retuned, Values(p.snapshot), h.sys.files)
    modifies h`staged, h.sys
    ensures h.Valid() && h.staged.volatile == old(h.staged.volatile) && h.staged.count == old(h.staged.count)
    ensures h.sys.exclusive ==> OnlyGoalsChanged(h.sys.schema, old(h.sys.active), h.sys.active, k)
    ensures (Undisputed(h, old(h.sys.files), old(h.sys.threads)) && old(h.Intact()) && h.OwnedPidOf(k).Some? && Installable(h.sys.schema, view, old(h.sys.files), p.quotas, goals)) ==>
              r.Ok? && KdamondsKept(h.sys, old(h.sys.files), old(h.sys.threads), h.sys.files, h.sys.threads)
    ensures r.Ok? ==> GoalsUpdated(h, view, p.quotas, goals, seen, k)
    ensures r.Err? && !r.error.Rollback? && h.sys.exclusive ==>
              GoalsUndone(h.sys.schema, h.sys.retuned, h.staged.volatile, old(h.sys.active), Values(p.snapshot), h.sys.active, h.sys.files, k)
    ensures (r.Err? ==> !r.error.Rollback?) && h.sys.exclusive ==>
              && FrameKept(GoalFootprint(h.sys.schema, p.quotas, goals, p.previous.goals), h.sys.retuned, Values(p.snapshot), h.sys.files)
              && GoalsAsStaged(h.sys.schema, h.sys.retuned, h.sys.active, h.sys.files, k)
    ensures (r.Err? ==> !r.error.Rollback?) ==> Owns(h) && IsCapture(h.sys.schema, h.staged.entries)
  {
    hide SysfsModel.Sysfs.Valid, RunInvariant, Sorted, Values, Consistent, Stays, GoalFootprint, GoalsAt,
         GoalsAsStaged, Agrees, OnlyGoalsChanged, FrameKept, Covered, BelowSome, AgreesOutside, Calm, NoTargets,
         KdamondsKept, AllFit, CountOf, Installable, GoalView.Lawful;
    h.sys.BeginJournal();
    ghost var from := Stage(Values(p.snapshot), k, GoalFootprint(h.sys.schema, p.quotas, goals, p.previous.goals), h.sys.files, [], h.sys.active);
    if h.sys.exclusive { StaysAtStart(h.sys, from); }
    if h.Intact() { AgreesIsOutside(h.staged.entries, from.foot, h.staged.volatile, h.sys.files); }
    var operation, seen' := StageAndCommitGoals(h, view, p.quotas, goals, p.previous.goals, k, from);
    seen := seen';
    ghost var a1 := h.sys.active;
    var writes := h.sys.TakeJournal();
    if operation.Ok? {
      if h.sys.exclusive {
        FrameAfterDrift(from.foot, h.sys.retuned, Values(p.snapshot), from.files, h.sys.files);
        GoalsByDrift(h.sys.schema, h.sys.retuned, h.sys.active, seen, h.sys.files, k);
      }
      h.staged := operation.value;
      return Ok(()), seen;
    }
    var restored := RestoreAndCommitGoals(h, p.snapshot, k, writes);
    if h.sys.exclusive { OnlyGoalsTransitive(h.sys.schema, from.active, a1, h.sys.active, k); }
    if restored.Ok? {
      if h.sys.exclusive {
        RecordedFrame(h.sys, p.snapshot, k, writes, p.quotas, goals, p.previous.goals, h.staged.volatile + h.sys.retuned);
      }
      h.staged := restored.value;
      r := Err(operation.error);
    } else {
      r := Err(Rollback(operation.error, restored.error));
    }
  }

  lemma AgreesIsOutside(entries: seq<Entry>, foot: Footprint, ignored: set<Path>, t: Tree)
    requires Agrees(entries, ignored, t)
    ensures AgreesOutside(entries, foot, ignored, t)
  {
  }

  lemma FrameAfterDrift(foot: Footprint, loose: set<Path>, t0: Tree, t: Tree, u: Tree)
    requires Calm(loose, t0, t) && FrameKept(foot, loose, t, u)
    ensures FrameKept(foot, loose, t0, u)
  {
  }

  /** A restored goal staging has changed nothing outside its footprint, not even leaves the
      restoration skips. */
  lemma RecordedFrame(sys: Sysfs, snapshot: seq<Entry>, k: nat, writes: seq<Path>, quotas: Path, goals: seq<GoalConfig>, observed: seq<GoalConfig>, ignored: set<Path>)
    requires Sorted(snapshot) && Recorded(sys, snapshot, {k}, writes) && sys.exclusive
    requires forall w | w in writes :: GoalFootprint(sys.schema, quotas, goals, observed).Has(w)
    requires Calm(ignored, Values(snapshot), sys.files)
    ensures FrameKept(GoalFootprint(sys.schema, quotas, goals, observed), sys.retuned, Values(snapshot), sys.files)
  {
    var foot, s := GoalFootprint(sys.schema, quotas, goals, observed), Values(snapshot);
    forall p | p in Affected(s, Elements(writes)) ensures foot.Has(p) {
      AffectedInFootprint(sys.schema, quotas, goals, observed, s, writes, p);
    }
    CoveredFrame(sys.schema, foot, sys.retuned, ignored, s, sys.files, Elements(writes));
  }

  lemma AffectedInFootprint(K: Schema, quotas: Path, goals: seq<GoalConfig>, observed: seq<GoalConfig>, s: Tree, writes: seq<Path>, p: Path)
    requires (forall w | w in writes :: GoalFootprint(K, quotas, goals, observed).Has(w)) && p in Affected(s, Elements(writes))
    ensures GoalFootprint(K, quotas, goals, observed).Has(p)
  {
    hide GoalPaths;
    if p !in Elements(writes) {
      var w :| w in Elements(writes) && IsReconstructionCount(w) && Dir(w) <= p;
      CountOfFootprint(K, quotas, goals, observed, w);
    }
  }

  lemma CoveredFrame(K: Schema, foot: Footprint, loose: set<Path>, ignored: set<Path>, s: Tree, t: Tree, writes: set<Path>)
    requires Covered(K, s, loose, t, writes) && Calm(ignored, s, t) && forall p | p in Affected(s, writes) :: foot.Has(p)
    ensures FrameKept(foot, loose, s, t)
  {
    hide Consistent, Schema.Lawful, LeafShape, Affected;
  }

  /** A count in the footprint takes its whole directory with it. */
  lemma CountOfFootprint(K: Schema, quotas: Path, goals: seq<GoalConfig>, observed: seq<GoalConfig>, w: Path)
    requires IsReconstructionCount(w)
    ensures GoalFootprint(K, quotas, goals, observed).Has(w) ==>
              GoalFootprint(K, quotas, goals, observed).WholeTree? && quotas + ["goals"] <= Dir(w)
  {
    assert "nr_"[0] == 'n' && "nr_"[1] == 'r' && "nid"[1] == 'i';
    if |observed| == |goals| {
      forall n, p | 0 <= n < |goals| && p in GoalPaths(K, quotas, n, goals[n]) ensures !IsReconstructionCount(p) {
        assert Name(p) in {"target_metric", "target_value", "current_value", "nid", "path"};
      }
    } else if quotas + ["goals"] <= w {
      assert w != quotas + ["goals"] by { assert Name(quotas + ["goals"]) == "goals"; }
    }
  }

  lemma StaysAtStart(sys: Sysfs, from: Stage)
    requires sys.Valid() && sys.exclusive && Consistent(sys.schema, from.base) && Calm(sys.retuned, from.base, sys.files)
    requires from.files == sys.files && from.journal == [] == sys.journal && from.active == sys.active
    ensures Staying(sys, from)
  {
    CoveredAtStart(sys, from.base);
  }

  lemma OnlyGoalsTransitive(K: Schema, a: map<nat, Tree>, b: map<nat, Tree>, c: map<nat, Tree>, k: nat)
    requires OnlyGoalsChanged(K, a, b, k) && OnlyGoalsChanged(K, b, c, k)
    ensures OnlyGoalsChanged(K, a, c, k)
  {
  }
}
