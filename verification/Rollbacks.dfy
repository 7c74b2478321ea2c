/** Undoing an online update: the staged values the transaction may have changed are
    put back and committed again, and nothing else is touched. */
module Rollbacks {
  import opened Outcomes
  import opened Paths
  import opened KernelTree
  import opened Restoration
  import opened Config
  import opened TuningGoals
  import opened SysfsModel
  import opened TargetLeaves
  import opened RunningState
  import opened Traces
  import opened Snapshots
  import opened Retries
  import opened Hierarchy
  import opened Updates

  /** `writes` accounts for how the staged tree differs from the captured one. */
  ghost predicate Recorded(sys: Sysfs, snapshot: seq<Entry>, allowed: set<nat>, writes: seq<Path>)
    requires Sorted(snapshot)
    reads sys
  {
    sys.exclusive ==>
      && Covered(sys.schema, Values(snapshot), sys.retuned, sys.files, Elements(writes))
      && forall w | w in writes :: BelowSome(sys.schema, allowed, w)
  }

  /** Everything the closure of the journal names lies below the selected kdamonds. */
  lemma AffectedStaysBelow(K: Schema, s: Tree, loose: set<Path>, t: Tree, allowed: set<nat>, writes: set<Path>)
    requires K.Valid() && Covered(K, s, loose, t, writes)
    requires forall w | w in writes :: BelowSome(K, allowed, w)
    ensures forall p | p in Affected(s, writes) :: BelowSome(K, allowed, p)
    ensures K.top !in Affected(s, writes)
  {
    forall p | p in Affected(s, writes) ensures BelowSome(K, allowed, p) {
      if p !in writes {
        var w :| w in writes && IsReconstructionCount(w) && Dir(w) <= p;
        var i :| i in allowed && KdamondDir(K, i) <= w;
        ShapeIsNoDirectory(K, w, i);
        assert KdamondDir(K, i) <= Dir(w);
      }
    }
    forall i ensures !(KdamondDir(K, i) <= K.top) { TopIsElsewhere(K, i); }
  }

  lemma TopIsElsewhere(K: Schema, i: nat)
    requires K.Valid()
    ensures !(KdamondDir(K, i) <= K.top)
  {
    assert K.IsIndex(KdamondDir(K, i)[|K.base|]);
    assert K.NoIndex(K.top) && !K.IsIndex(K.top[|K.base|]);
  }

  /** A leaf is never itself a kdamond's directory. */
  lemma ShapeIsNoDirectory(K: Schema, w: Path, i: nat)
    requires K.Valid() && LeafShape(K, w)
    ensures w != KdamondDir(K, i)
  {
    ShapeNameIsNoIndex(K, w);
    assert K.IsIndex(Name(KdamondDir(K, i)));
  }

  lemma ShapeNameIsNoIndex(K: Schema, w: Path)
    requires K.Valid() && LeafShape(K, w)
    ensures w != [] && !K.IsIndex(Name(w))
  {
    if w !in K.roots {
      var c, n, r := ShapeParts(K, w);
      assert Name(w) == r[|r| - 1];
    }
  }

  lemma RecordedIsRestorable(sys: Sysfs, snapshot: seq<Entry>, allowed: set<nat>, writes: seq<Path>, ignored: set<Path>)
    requires sys.Valid() && Sorted(snapshot) && Recorded(sys, snapshot, allowed, writes) && NoCounts(ignored) && sys.exclusive
    ensures Restorable(sys, snapshot, Affected(Values(snapshot), Elements(writes)), ignored)
    ensures sys.schema.top !in Affected(Values(snapshot), Elements(writes))
  {
    CoveredIsRecoverable(sys.schema, Values(snapshot), sys.retuned, sys.files, Elements(writes));
    AffectedStaysBelow(sys.schema, Values(snapshot), sys.retuned, sys.files, allowed, Elements(writes));
  }

  lemma RecordedByDrift(sys: Sysfs, snapshot: seq<Entry>, allowed: set<nat>, writes: seq<Path>, t0: Tree)
    requires Sorted(snapshot)
    requires sys.exclusive ==>
               && Covered(sys.schema, Values(snapshot), sys.retuned, t0, Elements(writes))
               && forall w | w in writes :: BelowSome(sys.schema, allowed, w)
    requires sys.exclusive ==> Calm(sys.retuned, t0, sys.files)
    ensures Recorded(sys, snapshot, allowed, writes)
  {
    if sys.exclusive { CoveredByDrift(sys.schema, Values(snapshot), sys.retuned, t0, Elements(writes), sys.files); }
  }

  /** What is recorded leaves no captured value outside the closure changed. */
  lemma RecordedAgrees(sys: Sysfs, snapshot: seq<Entry>, allowed: set<nat>, writes: seq<Path>, ignored: set<Path>)
    requires Sorted(snapshot) && Recorded(sys, snapshot, allowed, writes) && sys.exclusive && sys.retuned <= ignored
    ensures Agrees(snapshot, Affected(Values(snapshot), Elements(writes)) + ignored, sys.files)
  {
    var s := Values(snapshot);
    forall e | e in snapshot && e.path !in Affected(s, Elements(writes)) + ignored
      ensures e.path in sys.files && sys.files[e.path] == e.value
    {
      assert s[e.path] == e.value;
    }
  }

  /** No captured value outside the closure of the journal has changed. Undisturbed,
      the check can only fail because an access failed. */
  method VerifyRollbackBoundary(h: ManagedHierarchy, snapshot: seq<Entry>, writes: seq<Path>, ghost allowed: set<nat>)
    returns (r: Result<()>)
    requires h.Valid() && Sorted(snapshot) && Recorded(h.sys, snapshot, allowed, writes)
    modifies h.sys
    ensures h.Valid() && h.sys.Quiet() && Recorded(h.sys, snapshot, allowed, writes)
    ensures r.Err? && h.sys.exclusive && h.sys.retuned <= h.staged.volatile ==> r.error.IsAccessFailure()
    ensures r.Err? ==> r.error.IsAccessFailure() || r.error == OwnershipLost(ValuesChanged)
  {
    ghost var t0 := h.sys.files;
    var closure := PathsAffectedByWrites(snapshot, writes);
    hide SysfsModel.Sysfs.Valid, RunInvariant, Sorted, Values, Affected, Covered, BelowSome, Agrees;
    var matches := RetryMatchesExcept(h.sys, snapshot, closure + h.staged.volatile);
    RecordedByDrift(h.sys, snapshot, allowed, writes, t0);
    if h.sys.exclusive && h.sys.retuned <= h.staged.volatile {
      RecordedAgrees(h.sys, snapshot, allowed, writes, h.staged.volatile);
    }
    r := if matches.Err? then Err(matches.error)
         else if !matches.value then Err(OwnershipLost(ValuesChanged))
         else Ok(());
  }

  method RetryRestorePaths(sys: Sysfs, snapshot: seq<Entry>, paths: set<Path>, ignored: set<Path>) returns (r: Result<()>)
    requires sys.Valid() && Sorted(snapshot)
    modifies sys
    ensures sys.Valid() && Uncommanded(old(sys.trace), sys.trace)
    ensures sys.exclusive && sys.schema.top !in paths ==> sys.active == old(sys.active)
    ensures old(Restorable(sys, snapshot, paths, ignored)) ==>
              && Restorable(sys, snapshot, paths, ignored)
              && Framed(snapshot, paths, sys.retuned, old(sys.files), sys.files)
              && (r.Ok? ==> sys.files.Keys == PathsOf(snapshot)
                            && Agrees(Within(snapshot, paths), ignored + sys.retuned, sys.files))
              && (r.Err? && sys.retuned <= ignored ==> r.error.IsAccessFailure())
    ensures r.Err? ==> r.error.IsAccessFailure() || r.error == OwnershipLost(ValuesChanged)
  {
    hide SysfsModel.Sysfs.Valid, Sorted, Uncommanded, Restorable, Framed, Agrees, PathsOf, Within;
    ghost var sound, t0, f0 := Restorable(sys, snapshot, paths, ignored), sys.trace, sys.files;
    var retries := 0;
    r := RestorePathsExcept(sys, snapshot, paths, ignored);
    while r.Err? && r.error.Busy? && retries < MAX_RETRIES
      invariant sys.Valid() && Uncommanded(t0, sys.trace)
      invariant sys.exclusive && sys.schema.top !in paths ==> sys.active == old(sys.active)
      invariant sound ==>
                  && Restorable(sys, snapshot, paths, ignored)
                  && Framed(snapshot, paths, sys.retuned, f0, sys.files)
                  && (r.Ok? ==> sys.files.Keys == PathsOf(snapshot)
                                && Agrees(Within(snapshot, paths), ignored + sys.retuned, sys.files))
                  && (r.Err? && sys.retuned <= ignored ==> r.error.IsAccessFailure())
      invariant r.Err? ==> r.error.IsAccessFailure() || r.error == OwnershipLost(ValuesChanged)
      decreases MAX_RETRIES - retries
    {
      ghost var t1, f1 := sys.trace, sys.files;
      r := RestorePathsExcept(sys, snapshot, paths, ignored);
      UncommandedTransitive(t0, t1, sys.trace);
      if sound { FramedTransitive(snapshot, paths, sys.retuned, f0, f1, sys.files); }
      retries := retries + 1;
    }
  }

  lemma RestoringKeepsInvariant(states: seq<SessionState>, earlier: seq<Event>, later: seq<Event>)
    requires RunInvariant(states, earlier) && Uncommanded(earlier, later)
    ensures RunInvariant(states, later)
  {
    CommandlessKeepsInvariant(states, earlier, later);
  }

  /** After the closure is restored, the whole capture is: outside the closure nothing had moved. */
  lemma RestoredWhole(K: Schema, snapshot: seq<Entry>, loose: set<Path>, ignored: set<Path>, writes: set<Path>, t0: Tree, t1: Tree)
    requires Sorted(snapshot) && Covered(K, Values(snapshot), loose, t0, writes)
    requires Framed(snapshot, Affected(Values(snapshot), writes), loose, t0, t1)
    requires Agrees(Within(snapshot, Affected(Values(snapshot), writes)), ignored + loose, t1)
    ensures Agrees(snapshot, ignored + loose, t1)
  {
    var s, affected := Values(snapshot), Affected(Values(snapshot), writes);
    WithinMembers(snapshot, affected);
    forall e | e in snapshot && e.path !in ignored + loose ensures e.path in t1 && t1[e.path] == e.value {
      assert s[e.path] == e.value;
      if e.path in affected {
        assert e in Within(snapshot, affected);
      } else {
        assert e.path in PathsOf(snapshot) && e.path in t0;
      }
    }
  }

  /** Restoring the closure of the journal leaves it the closure of what may differ. */
  lemma StillRecorded(sys: Sysfs, snapshot: seq<Entry>, allowed: set<nat>, writes: seq<Path>, t0: Tree)
    requires sys.Valid() && Sorted(snapshot) && Covered(sys.schema, Values(snapshot), sys.retuned, t0, Elements(writes))
    requires forall w | w in writes :: BelowSome(sys.schema, allowed, w)
    requires Framed(snapshot, Affected(Values(snapshot), Elements(writes)), sys.retuned, t0, sys.files)
    ensures Recorded(sys, snapshot, allowed, writes)
  {
    hide Consistent, Schema.Valid, LeafShape, ReadersLawful, BelowSome, Affected, Elements, Values;
    var s, affected := Values(snapshot), Affected(Values(snapshot), Elements(writes));
    forall p | p in s && p !in affected ensures p in sys.files && (p in sys.retuned || sys.files[p] == s[p]) {
      assert p in PathsOf(snapshot) && p in t0;
    }
  }

  /** Restores the closure of the journal. On success every captured value the kernel does not retune is back. */
  method RestoreWritten(h: ManagedHierarchy, snapshot: seq<Entry>, writes: seq<Path>, ghost allowed: set<nat>) returns (r: Result<()>)
    requires h.Valid() && Sorted(snapshot) && Recorded(h.sys, snapshot, allowed, writes)
    modifies h.sys
    ensures h.Valid() && Recorded(h.sys, snapshot, allowed, writes)
    ensures h.sys.exclusive ==> h.sys.active == old(h.sys.active)
    ensures r.Ok? && h.sys.exclusive ==> Agrees(snapshot, h.staged.volatile + h.sys.retuned, h.sys.files)
    ensures r.Err? && h.sys.exclusive && h.sys.retuned <= h.staged.volatile ==> r.error.IsAccessFailure()
    ensures old(h.sys.trace) <= h.sys.trace
    ensures r.Err? ==> !r.error.Rollback?
  {
    hide SysfsModel.Sysfs.Valid, RunInvariant, Sorted, Values, Affected, Covered, BelowSome, Agrees, Restorable,
         Framed, Within, Uncommanded, NoCounts, PathsOf, Elements;
    ghost var t0, f0 := h.sys.trace, h.sys.files;
    var closure := PathsAffectedByWrites(snapshot, writes);
    if h.sys.exclusive { RecordedIsRestorable(h.sys, snapshot, allowed, writes, h.staged.volatile); }
    r := RetryRestorePaths(h.sys, snapshot, closure, h.staged.volatile);
    UncommandedExtends(t0, h.sys.trace);
    RestoringKeepsInvariant(h.states, t0, h.sys.trace);
    if h.sys.exclusive { StillRecorded(h.sys, snapshot, allowed, writes, f0); }
    if r.Ok? && h.sys.exclusive {
      RestoredWhole(h.sys.schema, snapshot, h.sys.retuned, h.staged.volatile, Elements(writes), f0, h.sys.files);
    }
  }

  /** The fallback when the boundary is crossed: put back what this session wrote, commit
      it, and leave the foreign change alone. */
  method RestoreWrittenAndCommit(h: ManagedHierarchy, snapshot: seq<Entry>, writes: seq<Path>, selected: seq<nat>, ghost allowed: set<nat>)
    returns (r: Result<()>)
    requires h.Valid() && Sorted(snapshot) && Recorded(h.sys, snapshot, allowed, writes)
    modifies h.sys
    ensures h.Valid() && Recorded(h.sys, snapshot, allowed, writes)
    ensures h.sys.exclusive ==> SparesOthers(old(h.sys.active), h.sys.active, selected)
    ensures r.Err? && h.sys.exclusive && h.sys.retuned <= h.staged.volatile ==> r.error.ClearsValues()
    ensures old(h.sys.trace) <= h.sys.trace
    ensures r.Err? ==> !r.error.Rollback?
  {
    hide SysfsModel.Sysfs.Valid, RunInvariant, Sorted, Covered, BelowSome, RunsAsStaged, Agrees, Calm, Values,
         ConfirmedCommit;
    r := RestoreWritten(h, snapshot, writes, allowed);
    if r.Err? { return; }
    ghost var f0 := h.sys.files;
    r := CommitSelected(h, selected);
    RecordedByDrift(h.sys, snapshot, allowed, writes, f0);
  }

  /** Undisturbed by others and with the retuned leaves known, no value check can fail. */
  ghost predicate Undisturbed(h: ManagedHierarchy, volatile: set<Path>)
    reads h
  {
    h.sys.exclusive && h.sys.retuned <= h.staged.volatile && h.sys.retuned <= volatile
  }

  /** The staged tree is the captured one again, and so is what the selected kdamonds run. */
  ghost predicate RolledBack(h: ManagedHierarchy, snapshot: seq<Entry>, selected: seq<nat>)
    requires Sorted(snapshot)
    reads h, h.sys
  {
    && Calm(h.staged.volatile + h.sys.retuned, Values(snapshot), h.sys.files)
    && forall i | i in selected :: RunsAsStaged(h.sys.schema, h.sys.retuned, h.sys.active, h.sys.files, i)
  }

  /** Restores and commits the preceding configuration, and takes ownership of it again. */
  method RestoreAndCommitRunning(h: ManagedHierarchy, snapshot: seq<Entry>, config: DamonConfig, selected: seq<nat>, writes: seq<Path>, ghost allowed: set<nat>)
    returns (r: Result<StagedOwnership>)
    requires h.Valid() && Sorted(snapshot) && Consistent(h.sys.schema, Values(snapshot)) && Recorded(h.sys, snapshot, allowed, writes)
    modifies h.sys
    ensures h.Valid() && Recorded(h.sys, snapshot, allowed, writes)
    ensures h.sys.exclusive ==> SparesOthers(old(h.sys.active), h.sys.active, selected)
    ensures old(h.sys.trace) <= h.sys.trace
    ensures r.Ok? ==> IsCapture(h.sys.schema, r.value.entries) && r.value == Ownership(h.sys.schema, r.value.entries, config)
    ensures r.Ok? && h.sys.exclusive ==>
              && RolledBack(h, snapshot, selected)
              && Agrees(r.value.entries, r.value.volatile + h.sys.retuned, h.sys.files)
    ensures r.Err? && Undisturbed(h, VolatilePaths(h.sys.schema, config)) ==> r.error.ClearsValues()
  {
    hide SysfsModel.Sysfs.Valid, RunInvariant, Sorted, Values, Covered, BelowSome, Agrees, Consistent, RunsAsStaged,
         VolatilePaths, Calm, Looked, NoTargets;
    ghost var t0, f0 := h.sys.trace, h.sys.files;
    var checked := h.VerifyOwnedIdentitiesOnly();
    RecordedByDrift(h.sys, snapshot, allowed, writes, f0);
    LookedExtends(t0, h.sys.trace);
    if checked.Err? { return Err(checked.error); }
    checked := VerifyRollbackBoundary(h, snapshot, writes, allowed);
    if checked.Err? {
      var fallback := RestoreWrittenAndCommit(h, snapshot, writes, selected, allowed);
      return Err(WithRollback(checked.error, fallback));
    }
    checked := RestoreWritten(h, snapshot, writes, allowed);
    if checked.Err? { return Err(checked.error); }
    ghost var f1 := h.sys.files;
    r := CommitRestored(h, snapshot, config, selected);
    RecordedByDrift(h.sys, snapshot, allowed, writes, f1);
  }

  method CommitRestored(h: ManagedHierarchy, snapshot: seq<Entry>, config: DamonConfig, selected: seq<nat>)
    returns (r: Result<StagedOwnership>)
    requires h.Valid() && Sorted(snapshot) && Consistent(h.sys.schema, Values(snapshot))
    requires h.sys.exclusive ==> Agrees(snapshot, h.staged.volatile + h.sys.retuned, h.sys.files)
    modifies h.sys
    ensures h.Valid() && (h.sys.exclusive ==> Calm(h.sys.retuned, old(h.sys.files), h.sys.files))
    ensures h.sys.exclusive ==> SparesOthers(old(h.sys.active), h.sys.active, selected)
    ensures old(h.sys.trace) <= h.sys.trace
    ensures r.Ok? ==> IsCapture(h.sys.schema, r.value.entries) && r.value == Ownership(h.sys.schema, r.value.entries, config)
    ensures r.Ok? && h.sys.exclusive ==>
              && RolledBack(h, snapshot, selected)
              && Agrees(r.value.entries, r.value.volatile + h.sys.retuned, h.sys.files)
    ensures r.Err? && Undisturbed(h, VolatilePaths(h.sys.schema, config)) ==> r.error.ClearsValues()
  {
    ghost var t0, f0, agreed := h.sys.trace, h.sys.files, h.staged.volatile + h.sys.retuned;
    if h.sys.exclusive { AgreementFixesShape(h.sys.schema, snapshot, agreed, f0); }
    hide SysfsModel.Sysfs.Valid, RunInvariant, Sorted, Values, Agrees, Consistent, RunsAsStaged, VolatilePaths, Calm,
         Looked;
    var checked := h.VerifyOwnedIdentitiesOnly();
    LookedExtends(t0, h.sys.trace);
    if checked.Err? { return Err(checked.error); }
    ghost var fa := h.sys.files;
    if h.sys.exclusive { StaysRestored(h.sys, snapshot, agreed, f0); }
    checked := CheckUnchanged(h, snapshot);
    if h.sys.exclusive { CalmTransitive(h.sys.retuned, f0, fa, h.sys.files); }
    if checked.Err? { return Err(checked.error); }
    if h.sys.exclusive { StaysRestored(h.sys, snapshot, agreed, f0); }
    ghost var f1 := h.sys.files;
    checked := CommitSelected(h, selected);
    ghost var f2 := h.sys.files;
    if h.sys.exclusive { CalmTransitive(h.sys.retuned, f0, f1, f2); }
    if checked.Err? { return Err(checked.error); }
    if h.sys.exclusive { StaysRestored(h.sys, snapshot, agreed, f1); }
    r := AdoptRestored(h, snapshot, config, selected);
    if h.sys.exclusive { CalmTransitive(h.sys.retuned, f0, f2, h.sys.files); }
  }

  lemma StaysRestored(sys: Sysfs, snapshot: seq<Entry>, ignored: set<Path>, t: Tree)
    requires Sorted(snapshot) && Calm(ignored, Values(snapshot), t) && Calm(sys.retuned, t, sys.files) && sys.retuned <= ignored
    ensures Calm(ignored, Values(snapshot), sys.files)
    ensures Agrees(snapshot, ignored, sys.files)
  {
    forall e | e in snapshot && e.path !in ignored ensures e.path in sys.files && sys.files[e.path] == e.value {
      assert Values(snapshot)[e.path] == e.value;
    }
  }

  method CheckUnchanged(h: ManagedHierarchy, snapshot: seq<Entry>) returns (r: Result<()>)
    requires h.Valid()
    modifies h.sys
    ensures h.Valid() && h.sys.Quiet()
    ensures r.Err? ==> r.error.IsAccessFailure() || r.error == OwnershipLost(ValuesChanged)
    ensures (r.Err? && h.sys.exclusive && h.sys.retuned <= h.staged.volatile
             && old(Agrees(snapshot, h.staged.volatile + h.sys.retuned, h.sys.files))) ==> r.error.IsAccessFailure()
  {
    hide SysfsModel.Sysfs.Valid, RunInvariant, Sorted;
    var matches := RetryMatchesExcept(h.sys, snapshot, h.staged.volatile);
    r := if matches.Err? then Err(matches.error)
         else if !matches.value then Err(OwnershipLost(ValuesChanged))
         else Ok(());
  }

  method AdoptRestored(h: ManagedHierarchy, snapshot: seq<Entry>, config: DamonConfig, selected: seq<nat>)
    returns (r: Result<StagedOwnership>)
    requires h.Valid() && Sorted(snapshot)
    requires h.sys.exclusive ==>
               && Calm(h.staged.volatile + h.sys.retuned, Values(snapshot), h.sys.files)
               && Agrees(snapshot, h.staged.volatile + h.sys.retuned, h.sys.files)
               && forall i | i in selected :: RunsAsStaged(h.sys.schema, h.sys.retuned, h.sys.active, h.sys.files, i)
    modifies h.sys
    ensures h.Valid() && h.sys.Still()
    ensures old(h.sys.trace) <= h.sys.trace
    ensures r.Ok? ==> IsCapture(h.sys.schema, r.value.entries) && r.value == Ownership(h.sys.schema, r.value.entries, config)
    ensures r.Ok? && h.sys.exclusive ==>
              && RolledBack(h, snapshot, selected)
              && Agrees(r.value.entries, r.value.volatile + h.sys.retuned, h.sys.files)
    ensures r.Err? && Undisturbed(h, VolatilePaths(h.sys.schema, config)) ==> r.error.ClearsValues()
  {
    hide SysfsModel.Sysfs.Valid, RunInvariant, Sorted, Values, Agrees, Consistent, RunsAsStaged, VolatilePaths, Looked;
    ghost var t0, f0 := h.sys.trace, h.sys.files;
    var current := RetryCapture(h.sys);
    LookingKeepsInvariant(h.states, t0, h.sys.trace);
    LookedExtends(t0, h.sys.trace);
    if current.Err? { return Err(current.error); }
    ghost var f1 := h.sys.files;
    if h.sys.exclusive { StaysRestored(h.sys, snapshot, h.staged.volatile + h.sys.retuned, f0); }
    var checked := CheckUnchanged(h, snapshot);
    if checked.Err? { return Err(checked.error); }
    if h.sys.exclusive {
      CalmTransitive(h.sys.retuned, Values(current.value), f1, h.sys.files);
      CaptureAgrees(h.sys, current.value, VolatilePaths(h.sys.schema, config) + h.sys.retuned);
    }
    ghost var t1 := h.sys.trace;
    r := Conclude(h, config, current.value);
    LookedExtends(t1, h.sys.trace);
    if h.sys.exclusive {
      StillRolledBack(h.sys, snapshot, h.staged.volatile + h.sys.retuned, selected, f0);
    }
  }

  lemma StillRolledBack(sys: Sysfs, snapshot: seq<Entry>, ignored: set<Path>, selected: seq<nat>, t: Tree)
    requires Sorted(snapshot) && Calm(ignored, Values(snapshot), t) && Calm(sys.retuned, t, sys.files) && sys.retuned <= ignored
    requires forall i | i in selected :: RunsAsStaged(sys.schema, sys.retuned, sys.active, t, i)
    ensures Calm(ignored, Values(snapshot), sys.files)
    ensures forall i | i in selected :: RunsAsStaged(sys.schema, sys.retuned, sys.active, sys.files, i)
  {
    StaysRestored(sys, snapshot, ignored, t);
    forall i | i in selected ensures RunsAsStaged(sys.schema, sys.retuned, sys.active, sys.files, i) {
      RunsByDrift(sys.schema, sys.retuned, sys.active, t, sys.files, i);
    }
  }
}
