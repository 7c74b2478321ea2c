/** `update_configuration`: all or nothing over any set of running kdamonds. */
module OnlineUpdates {
  import opened Outcomes
  import opened Paths
  import opened KernelTree
  import opened Restoration
  import opened Config
  import opened TuningGoals
  import opened SysfsModel
  import opened TargetLeaves
  import opened RunningState
  import opened Traces
  import opened Snapshots
  import opened Retries
  import opened Hierarchy
  import opened StagingRecords
  import opened Validity
  import opened Updates
  import opened Rollbacks
  import opened Equivalence
  import opened Readbacks

  /** An obsolete target must be an existing, current target at the same index, otherwise unchanged. */
  predicate ObsoleteUpdatesValid(previous: DamonConfig, requested: DamonConfig) {
    forall k, c, n | 0 <= k < |previous.kdamonds| && k < |requested.kdamonds|
        && 0 <= c < |previous.kdamonds[k].contexts| && c < |requested.kdamonds[k].contexts|
        && 0 <= n < |requested.kdamonds[k].contexts[c].targets| && requested.kdamonds[k].contexts[c].targets[n].obsolete ::
      && n < |previous.kdamonds[k].contexts[c].targets|
      && !previous.kdamonds[k].contexts[c].targets[n].obsolete
      && requested.kdamonds[k].contexts[c].targets[n].(obsolete := false) == previous.kdamonds[k].contexts[c].targets[n]
  }

  lemma ObsoleteAreExisting(previous: DamonConfig, requested: DamonConfig)
    ensures ObsoleteUpdatesValid(previous, requested) <==> MarksExisting(requested, previous)
  {
    forall k, c, n | 0 <= k < |previous.kdamonds| && k < |requested.kdamonds|
        && 0 <= c < |previous.kdamonds[k].contexts| && c < |requested.kdamonds[k].contexts|
        && 0 <= n < |requested.kdamonds[k].contexts[c].targets| && requested.kdamonds[k].contexts[c].targets[n].obsolete
        && MarksExisting(requested, previous)
      ensures n < |previous.kdamonds[k].contexts[c].targets|
      ensures previous.kdamonds[k].contexts[c].targets[n] == requested.kdamonds[k].contexts[c].targets[n].(obsolete := false)
    {
      assert MarksExistingIn(requested.kdamonds[k].contexts[c].targets, previous.kdamonds[k].contexts[c].targets);
    }
  }

  /** Equivalence of single kdamonds, as the whole-hierarchy procedure decides it. */
  predicate KdamondsEquivalent(expected: KdamondConfig, observed: KdamondConfig) {
    EquivalentAfterKernelNormalization(DamonConfig([expected]), DamonConfig([observed]))
  }

  /** The request with every unselected kdamond exactly as it is staged now. */
  function Effective(config: DamonConfig, previous: DamonConfig, selected: seq<nat>): (effective: DamonConfig)
    requires |previous.kdamonds| == |config.kdamonds|
    ensures |effective.kdamonds| == |config.kdamonds|
    ensures forall i | 0 <= i < |config.kdamonds| ::
              effective.kdamonds[i] == if i in selected then config.kdamonds[i] else previous.kdamonds[i]
  {
    DamonConfig(seq(|config.kdamonds|, i requires 0 <= i < |config.kdamonds| =>
      if i in selected then config.kdamonds[i] else previous.kdamonds[i]))
  }

  predicate UnselectedUnchanged(config: DamonConfig, previous: DamonConfig, selected: seq<nat>) {
    var comparable := AdoptTuned(config, Some(previous), previous);
    forall i | 0 <= i < |config.kdamonds| && i !in selected ::
      i < |comparable.kdamonds| && KdamondsEquivalent(config.kdamonds[i], comparable.kdamonds[i])
  }

  lemma UnselectedAreKept(config: DamonConfig, previous: DamonConfig, selected: seq<nat>)
    ensures UnselectedUnchanged(config, previous, selected) ==> KeepsUnselected(config, previous, selected)
    ensures IsReadback(previous) ==> (UnselectedUnchanged(config, previous, selected) <==> KeepsUnselected(config, previous, selected))
  {
    var comparable := AdoptTuned(config, Some(previous), previous);
    forall i | 0 <= i < |config.kdamonds| && i < |previous.kdamonds|
      ensures KdamondsEquivalent(config.kdamonds[i], comparable.kdamonds[i]) ==> KdamondRead(config, Some(previous), previous, i)
      ensures IsReadback(previous) ==> (KdamondsEquivalent(config.kdamonds[i], comparable.kdamonds[i]) <==> KdamondRead(config, Some(previous), previous, i))
    {
      SingleEquivalent(config.kdamonds[i], comparable.kdamonds[i]);
      KdamondReadIs(config, Some(previous), previous, i);
      if IsReadback(previous) {
        AdoptedIsReadback(config, Some(previous), previous);
        assert comparable.kdamonds[i] in comparable.kdamonds;
      }
    }
    hide KdamondsEquivalent, KdamondRead;
  }

  /** Everything the transaction needs, gathered before anything is written. */
  datatype Prepared = Prepared(snapshot: seq<Entry>, previous: DamonConfig, effective: DamonConfig, selected: seq<nat>)

  ghost predicate IsPrepared(h: ManagedHierarchy, p: Prepared, config: DamonConfig, requested: seq<nat>)
    reads h
  {
    && p.selected == requested && Sorted(p.snapshot) && Consistent(h.sys.schema, Values(p.snapshot))
    && requested != [] && |config.kdamonds| == |p.previous.kdamonds| == |h.states|
    && (forall i | i in requested :: i < |h.states| && h.states[i].Running?)
    && UnselectedUnchanged(config, p.previous, requested)
    && p.effective == Effective(config, p.previous, requested)
    && ObsoleteUpdatesValid(p.previous, p.effective)
  }

  ghost predicate CapturedSince(trace: seq<Event>, from: nat, snapshot: seq<Entry>) {
    exists k: nat :: CapturedAt(trace, from, snapshot, k)
  }

  ghost predicate CapturedAt(trace: seq<Event>, from: nat, snapshot: seq<Entry>, k: nat) {
    from <= k < |trace| && trace[k] == Captured(Ok(snapshot))
  }

  /** The rollback state was captured, and after that every kdamond was seen as the session left it. */
  ghost predicate CapturedThenSeen(h: ManagedHierarchy, from: nat, snapshot: seq<Entry>)
    reads h, h.sys
  {
    exists k: nat :: CapturedAt(h.sys.trace, from, snapshot, k) && h.AllSeen(k, true)
  }

  lemma SeenAfterCapture(h: ManagedHierarchy, from: nat, start: nat, seen: nat, snapshot: seq<Entry>)
    requires from <= start && seen <= |h.sys.trace| && CapturedSince(h.sys.trace[..seen], start, snapshot) && h.AllSeen(seen, true)
    ensures CapturedThenSeen(h, from, snapshot)
  {
    var k: nat :| CapturedAt(h.sys.trace[..seen], start, snapshot, k);
    assert CapturedAt(h.sys.trace, from, snapshot, k);
    SeenSince(h, seen, h.sys.trace[..k], true);
  }

  /** The checks before the transaction. Nothing is written. */
  method Prepare(h: ManagedHierarchy, config: DamonConfig, requested: seq<nat>, page: nat) returns (r: Result<Prepared>)
    requires h.Valid() && 0 < page
    modifies h.sys
    ensures h.Valid() && h.sys.Still() && Looked(old(h.sys.trace), h.sys.trace)
    ensures r.Ok? ==> IsPrepared(h, r.value, config, requested) && Runnable(config, true, page)
    ensures r.Ok? ==> h.ownsHierarchy && CapturedThenSeen(h, |old(h.sys.trace)|, r.value.snapshot)
    ensures r.Ok? && h.sys.exclusive ==>
              && Calm(h.sys.retuned, old(h.sys.files), Values(r.value.snapshot)) && Calm(h.sys.retuned, Values(r.value.snapshot), h.sys.files)
              && ReadFrom(h.sys, old(h.sys.files), r.value.previous)
    ensures old(h.InOrder()) && h.sys.retuned == {} && Acceptable(h, config, requested, page, h.sys.reader(old(h.sys.files))) ==>
              r.Ok? && Some(r.value.previous) == h.sys.reader(old(h.sys.files))
    ensures r.Err? ==> !r.error.Rollback?
  {
    hide ManagedHierarchy.Valid, ManagedHierarchy.InStep, AllFit, Looked, Sorted, Values, Consistent, Calm, ReadFrom,
         Runnable, UnselectedUnchanged, ObsoleteUpdatesValid, CapturedThenSeen, IsReadback, KeepsUnselected,
         MarksExisting;
    if h.InOrder() { InOrderIsIntact(h); }
    LookedNothing(h.sys.trace);
    CalmNothing(h.sys.retuned, h.sys.files);
    if !Runnable(config, true, page) { return Err(InvalidConfiguration); }
    var selected := ValidateSelectedIndices(requested, |h.states|, |config.kdamonds|);
    if selected.Err? { return Err(selected.error); }
    if requested == [] { return Err(InvalidConfiguration); }
    for n := 0 to |requested|
      invariant forall m | 0 <= m < n :: requested[m] < |h.states| && h.states[requested[m]].Running?
    {
      var pid := h.ExpectedRunningPid(requested[n]);
      if pid.Err? {
        assert requested[n] in requested;
        return Err(pid.error);
      }
    }
    var snapshot, previous := Gather(h);
    if snapshot.Err? { return Err(snapshot.error); }
    // A concurrent count change is the only way the read can disagree with the session.
    if |previous.kdamonds| != |h.states| { return Err(IndexOutOfBounds); }
    UnselectedAreKept(config, previous, requested);
    if !UnselectedUnchanged(config, previous, requested) { return Err(InvalidConfiguration); }
    var effective := Effective(config, previous, requested);
    ObsoleteAreExisting(previous, effective);
    if !ObsoleteUpdatesValid(previous, effective) { return Err(InvalidConfiguration); }
    r := Ok(Prepared(snapshot.value, previous, effective, requested));
  }

  /** The preceding hierarchy, between two complete checks. */
  method Gather(h: ManagedHierarchy) returns (r: Result<seq<Entry>>, previous: DamonConfig)
    requires h.Valid()
    modifies h.sys
    ensures h.Valid() && h.sys.Still() && Looked(old(h.sys.trace), h.sys.trace)
    ensures r.Ok? ==> Sorted(r.value) && Consistent(h.sys.schema, Values(r.value))
    ensures r.Ok? ==> h.ownsHierarchy && CapturedThenSeen(h, |old(h.sys.trace)|, r.value)
    ensures r.Ok? && h.sys.exclusive ==>
              && Calm(h.sys.retuned, old(h.sys.files), Values(r.value)) && Calm(h.sys.retuned, Values(r.value), h.sys.files)
              && ReadFrom(h.sys, old(h.sys.files), previous)
    ensures h.ownsHierarchy && old(h.Alive() && h.Intact()) && h.sys.retuned == {} && h.sys.reader(old(h.sys.files)).Some? ==>
              r.Ok? && Some(previous) == h.sys.reader(old(h.sys.files))
    ensures r.Err? ==> !r.error.Rollback?
  {
    hide SysfsModel.Sysfs.Valid, RunInvariant, Sorted, Looked, Values, Consistent, ReadFrom, Agrees, SeenAs,
         CapturedSince, CapturedThenSeen, AllFit, NoCounts, NoTargets;
    ghost var t0, files0 := h.sys.trace, h.sys.files;
    previous := DamonConfig([]);
    var checked := h.VerifyOwnedState();
    if checked.Err? { return Err(checked.error), previous; }
    ghost var t1, filesA := h.sys.trace, h.sys.files;
    if h.sys.exclusive {
      IntactLater(h, files0);
      if h.sys.retuned == {} { CalmIsEqual(files0, filesA); }
    }
    r, previous := CapturePrevious(h);
    LookedTransitive(t0, t1, h.sys.trace);
    LookedExtends(t0, t1);
    if r.Err? { return; }
    ghost var files1, t2 := h.sys.files, h.sys.trace;
    if h.sys.exclusive {
      IntactLater(h, filesA);
      ReadFromEarlier(h.sys, files0, filesA, previous);
    }
    checked := h.VerifyOwnedState();
    LookedTransitive(t0, t2, h.sys.trace);
    LookedExtends(t2, h.sys.trace);
    assert h.sys.trace[..|t2|] == t2;
    if checked.Err? { return Err(checked.error), previous; }
    SeenAfterCapture(h, |t0|, |t1|, |t2|, r.value);
    if h.sys.exclusive { CalmTransitive(h.sys.retuned, Values(r.value), files1, h.sys.files); }
  }

  lemma SeenSince(h: ManagedHierarchy, from: nat, earlier: seq<Event>, withState: bool)
    requires h.AllSeen(from, withState) && |earlier| <= from
    ensures h.AllSeen(|earlier|, withState)
  {
    forall i: nat | i < |h.states| ensures SeenAs(h.sys.trace, |earlier|, i, h.states[i].OwnedPid(), withState) {
      SeenAsExtends(h.sys.trace, h.sys.trace, from, |earlier|, i, h.states[i].OwnedPid(), withState);
    }
  }

  /** The rollback state: a capture, the configuration read from it, and a check that
      neither moved while they were taken. */
  method CapturePrevious(h: ManagedHierarchy) returns (r: Result<seq<Entry>>, previous: DamonConfig)
    requires h.Valid()
    modifies h.sys
    ensures h.Valid() && h.sys.Still() && Looked(old(h.sys.trace), h.sys.trace)
    ensures r.Ok? ==> CapturedSince(h.sys.trace, |old(h.sys.trace)|, r.value)
    ensures r.Ok? ==> Sorted(r.value) && Consistent(h.sys.schema, Values(r.value))
    ensures r.Ok? && h.sys.exclusive ==>
              && Calm(h.sys.retuned, old(h.sys.files), Values(r.value)) && Calm(h.sys.retuned, Values(r.value), h.sys.files)
              && ReadFrom(h.sys, old(h.sys.files), previous)
    ensures Undisputed(h, old(h.sys.files), old(h.sys.threads)) && h.sys.reader(old(h.sys.files)).Some? ==> r.Ok? && Some(previous) == h.sys.reader(old(h.sys.files))
    ensures r.Err? ==> !r.error.Rollback?
  {
    hide SysfsModel.Sysfs.Valid, RunInvariant, Sorted, Looked, Values, Consistent, Agrees, AllFit;
    previous := DamonConfig([]);
    r := RetryCapture(h.sys);
    LookingKeepsInvariant(h.states, old(h.sys.trace), h.sys.trace);
    if r.Err? { return; }
    ghost var t1 := h.sys.trace;
    ghost var files1 := h.sys.files;
    var config, seen := RetryConfiguration(h.sys);
    LookingKeepsInvariant(h.states, t1, h.sys.trace);
    LookedTransitive(old(h.sys.trace), t1, h.sys.trace);
    LookedExtends(t1, h.sys.trace);
    assert CapturedAt(h.sys.trace, |old(h.sys.trace)|, r.value, |t1| - 1);
    if h.sys.exclusive && h.sys.retuned == {} { CalmIsEqual(old(h.sys.files), seen); }
    if config.Err? { return Err(config.error), previous; }
    previous := config.value;
    if h.sys.exclusive {
      CalmTransitive(h.sys.retuned, old(h.sys.files), files1, seen);
      if h.sys.retuned == {} { CalmIsEqual(old(h.sys.files), seen); }
    }
    if h.sys.exclusive && h.sys.retuned == {} { CapturedStillExcept(h.sys, r.value, h.staged.volatile); }
    var matches := RetryMatchesExcept(h.sys, r.value, h.staged.volatile);
    if h.sys.exclusive && h.sys.retuned == {} { CapturedStillExcept(h.sys, r.value, h.staged.volatile); }
    if matches.Err? { return Err(matches.error), previous; }
    if !matches.value { return Err(OwnershipLost(ValuesChanged)), previous; }
  }

  lemma CapturedStillExcept(sys: Sysfs, entries: seq<Entry>, ignored: set<Path>)
    requires Sorted(entries) && sys.retuned == {} && Calm(sys.retuned, Values(entries), sys.files)
    ensures Agrees(entries, ignored, sys.files)
  {
    CapturedStill(sys, entries);
  }

  lemma ReadFromEarlier(sys: Sysfs, t: Tree, u: Tree, config: DamonConfig)
    requires Calm(sys.retuned, t, u) && ReadFrom(sys, u, config)
    ensures ReadFrom(sys, t, config)
  {
    var seen: Tree :| Calm(sys.retuned, u, seen) && sys.reader(seen) == Some(config);
    CalmTransitive(sys.retuned, t, u, seen);
  }

  function Chosen(selected: seq<nat>): set<nat> {
    set i | i in selected
  }

  /** What was committed reads as the request, field by field. */
  lemma UpdatedReads(sys: Sysfs, config: DamonConfig, observed: Option<DamonConfig>, selected: seq<nat>, seen: Tree, final: Tree, ownership: StagedOwnership)
    requires (forall i | i in selected :: i < |config.kdamonds|) && Updated(sys, config, observed, selected, seen, final, ownership)
    ensures sys.reader(seen).Some? && ReadsAs(config, observed, sys.reader(seen).value)
  {
    AcceptedReadback(config, observed, sys.reader(seen).value);
  }

  /** The staged tree is back, and either nothing happened to it and to what runs, or the
      selected kdamonds were made to run it. */
  ghost predicate Undone(K: Schema, loose: set<Path>, volatile: set<Path>, active0: map<nat, Tree>, files0: Tree,
                         active: map<nat, Tree>, files: Tree, selected: seq<nat>) {
    && Calm(volatile + loose, files0, files)
    && ((active == active0 && Calm(loose, files0, files)) || forall i | i in selected :: RunsAsStaged(K, loose, active, files, i))
  }

  /** The kernel still holds what the session believes it staged. */
  ghost predicate Owns(h: ManagedHierarchy)
    reads h, h.sys
  {
    h.sys.exclusive ==> Agrees(h.staged.entries, h.staged.volatile + h.sys.retuned, h.sys.files)
  }

  lemma OwnsByDrift(h: ManagedHierarchy, t: Tree)
    requires Calm(h.sys.retuned, t, h.sys.files)
    ensures Agrees(h.staged.entries, h.staged.volatile + h.sys.retuned, t) ==> Owns(h)
  {
  }

  /** A runnable request for some running kdamonds of an owned hierarchy. */
  predicate Admissible(h: ManagedHierarchy, config: DamonConfig, requested: seq<nat>, page: nat)
    requires 0 < page
    reads h
  {
    h.ownsHierarchy && Runnable(config, true, page) && requested != [] && forall i | i in requested :: i < |h.states| && h.states[i].Running?
  }

  /** An admissible request, naming each kdamond once, to which the configuration `read` can be updated. */
  ghost predicate Acceptable(h: ManagedHierarchy, config: DamonConfig, requested: seq<nat>, page: nat, read: Option<DamonConfig>)
    requires 0 < page
    reads h
  {
    && Admissible(h, config, requested, page) && (forall i, j | 0 <= i < j < |requested| :: requested[i] != requested[j])
    && read.Some? && |read.value.kdamonds| == |config.kdamonds| == |h.states|
    && IsReadback(read.value) && KeepsUnselected(config, read.value, requested) && MarksExisting(Effective(config, read.value, requested), read.value)
  }

  /** All or nothing. Success: every selected kdamond runs what reads back as the request,
      and the staged hierarchy reads back as the request without its obsolete targets. Any
      failure that is not a failed rollback: the staged tree is the one before the call,
      volatile and retuned leaves apart, and every running kdamond still or again runs what it
      ran. Unselected kdamonds run what they ran before, and their staged leaves stay as they
      were. A hierarchy that was in step is in step again. Nothing but reads happens unless the update is admissible. */
  method UpdateConfiguration(h: ManagedHierarchy, config: DamonConfig, requested: seq<nat>, page: nat)
    returns (r: Result<()>, ghost previous: DamonConfig, ghost seen: Tree, ghost final: Tree)
    requires h.Valid() && 0 < page
    modifies h`staged, h.sys
    ensures h.Valid()
    ensures Looked(old(h.sys.trace), h.sys.trace) || Admissible(h, config, requested, page)
    ensures h.sys.exclusive ==> SparesOthers(old(h.sys.active), h.sys.active, requested)
    ensures r.Ok? ==>
              && Runnable(config, true, page)
              && |previous.kdamonds| == |config.kdamonds| == |h.states|
              && (forall i | i in requested :: i < |config.kdamonds|)
              && Updated(h.sys, Effective(config, previous, requested), Some(previous), requested, seen, final, h.staged)
              && CommitsFollowCheck(h.states, old(h.sys.trace), h.sys.trace, Effective(config, previous, requested), Some(previous))
    ensures r.Ok? ==>
              && h.sys.reader(seen).Some? && ReadsAs(Effective(config, previous, requested), Some(previous), h.sys.reader(seen).value)
              && KeepsUnselected(config, previous, requested) && MarksExisting(Effective(config, previous, requested), previous)
    ensures (r.Err? ==> !r.error.Rollback?) && h.sys.exclusive ==>
              UntouchedElsewhere(h.sys.schema, h.sys.retuned, old(h.sys.files), h.sys.files, Chosen(requested))
    ensures r.Err? && !r.error.Rollback? && h.sys.exclusive ==>
              Undone(h.sys.schema, h.sys.retuned, old(h.staged.volatile), old(h.sys.active), old(h.sys.files), h.sys.active, h.sys.files, requested)
    ensures old(h.InStep()) && (r.Err? ==> !r.error.Rollback?) ==> h.InStep()
    ensures (old(h.InOrder()) && h.sys.retuned == {} && Acceptable(h, config, requested, page, h.sys.reader(old(h.sys.files)))
             && StagedWell(h.sys.trace, |old(h.sys.trace)|, true)) ==> r.Ok? && h.InOrder()
    ensures old(h.InStep()) && r.Err? && !r.error.Rollback? && h.sys.exclusive ==>
              RunsOn(h, old(h.staged.volatile) + h.sys.retuned, old(h.sys.active))
    ensures old(Owns(h)) && (r.Err? ==> !r.error.Rollback?) ==> Owns(h)
    ensures h.staged == old(h.staged) || h.staged.count == |h.states|
    ensures old(h.sys.trace) <= h.sys.trace
  {
    hide ManagedHierarchy.Valid, Runnable, Acceptable, Updated, Undone, UntouchedElsewhere, Calm, CommitsFollowCheck,
         Looked, ReadsAs, KeepsUnselected, MarksExisting, StagedWell, OwnedIn, InStepIn, AllFit, Owns, SparesOthers,
         RunsOn, ReadFrom, OwnsAgain;
    ghost var files0, active0, staged0, threads0 := h.sys.files, h.sys.active, h.staged, h.sys.threads;
    VolatileHasNoTargets(h);
    OwnedIsOwns(h);
    if h.InOrder() && h.sys.retuned == {} { InOrderIsUndisputed(h); }
    r, previous, seen, final := Update(h, config, requested, page);
    if h.sys.exclusive && InStepWith(h, staged0, active0, files0) {
      if r.Ok? {
        InStepAfterUpdate(h, Effective(config, previous, requested), Some(previous), requested, seen, final, active0, files0);
      } else if !r.error.Rollback? {
        OwnedAfterUndo(h, staged0, files0, previous);
        InStepAfterUndo(h, staged0.volatile, active0, files0, requested);
      }
    }
  }

  lemma OwnedIsOwns(h: ManagedHierarchy)
    ensures OwnedIn(h.sys.schema, h.sys.retuned, h.staged, h.sys.files) ==> Owns(h)
  {
  }

  lemma VolatileHasNoTargets(h: ManagedHierarchy)
    requires h.Valid()
    ensures NoTargets(h.sys.schema, h.staged.volatile)
  {
  }

  /** The update, leaf by leaf. */
  method Update(h: ManagedHierarchy, config: DamonConfig, requested: seq<nat>, page: nat)
    returns (r: Result<()>, ghost previous: DamonConfig, ghost seen: Tree, ghost final: Tree)
    requires h.Valid() && 0 < page
    modifies h`staged, h.sys
    ensures h.Valid()
    ensures Looked(old(h.sys.trace), h.sys.trace) || Admissible(h, config, requested, page)
    ensures h.sys.exclusive ==> SparesOthers(old(h.sys.active), h.sys.active, requested)
    ensures r.Ok? ==>
              && Runnable(config, true, page)
              && |previous.kdamonds| == |config.kdamonds| == |h.states|
              && (forall i | i in requested :: i < |config.kdamonds|)
              && Updated(h.sys, Effective(config, previous, requested), Some(previous), requested, seen, final, h.staged)
              && CommitsFollowCheck(h.states, old(h.sys.trace), h.sys.trace, Effective(config, previous, requested), Some(previous))
              && h.sys.reader(seen).Some? && ReadsAs(Effective(config, previous, requested), Some(previous), h.sys.reader(seen).value)
              && KeepsUnselected(config, previous, requested) && MarksExisting(Effective(config, previous, requested), previous)
    ensures (r.Err? ==> !r.error.Rollback?) && h.sys.exclusive ==>
              UntouchedElsewhere(h.sys.schema, h.sys.retuned, old(h.sys.files), h.sys.files, Chosen(requested))
    ensures r.Err? && !r.error.Rollback? && h.sys.exclusive ==>
              && Undone(h.sys.schema, h.sys.retuned, old(h.staged.volatile), old(h.sys.active), old(h.sys.files), h.sys.active, h.sys.files, requested)
              && Calm(old(h.staged.volatile) + h.sys.retuned, old(h.sys.files), h.sys.files)
              && (h.staged == old(h.staged) || (OwnsAgain(h, previous) && ReadFrom(h.sys, old(h.sys.files), previous)))
    ensures old(Owns(h)) && (r.Err? ==> !r.error.Rollback?) ==> Owns(h)
    ensures h.staged == old(h.staged) || h.staged.count == |h.states|
    ensures old(h.sys.trace) <= h.sys.trace
    ensures (old(h.InOrder()) && Undisputed(h, old(h.sys.files), old(h.sys.threads)) && Acceptable(h, config, requested, page, h.sys.reader(old(h.sys.files)))
             && StagedWell(h.sys.trace, |old(h.sys.trace)|, true)) ==> r.Ok? && Undisputed(h, h.sys.files, h.sys.threads)
  {
    hide SysfsModel.Sysfs.Valid, RunInvariant, Sorted, Values, Consistent, Runnable, UnselectedUnchanged,
         ObsoleteUpdatesValid, RunsAsStaged, Updated, UntouchedElsewhere, Calm, Agrees, CommitsFollowCheck, Looked,
         ReadsAs, KeepsUnselected, MarksExisting, StagedWell, AllFit, KdamondsKept, NoCounts, NoTargets,
         ManagedHierarchy.InOrder, Undone, SparesOthers, ReadFrom, OwnsAgain;
    SparesNothing(h.sys.active, requested);
    ghost var files0, active0, volatile0, threads0 := h.sys.files, h.sys.active, h.staged.volatile, h.sys.threads;
    previous, seen, final := DamonConfig([]), map[], map[];
    var prepared := Prepare(h, config, requested, page);
    LookedExtends(old(h.sys.trace), h.sys.trace);
    UndisputedDrift(h, files0, threads0);
    if prepared.Err? {
      if h.sys.exclusive {
        StillUndone(h.sys, volatile0, active0, files0, requested);
        CalmWidens(h.sys.retuned, volatile0 + h.sys.retuned, files0, h.sys.files);
        UntouchedNow(h.sys, files0, Chosen(requested));
        OwnsByDrift(h, files0);
      }
      r := Err(prepared.error);
    } else {
      previous := prepared.value.previous;
      ghost var ready, files1, threads1 := h.sys.trace, h.sys.files, h.sys.threads;
      r, seen, final := Transact(h, prepared.value);
      if StagedWell(h.sys.trace, |old(h.sys.trace)|, true) { StagedWellEarlier(h.sys.trace, h.sys.trace, |old(h.sys.trace)|, |ready|, true); }
      if r.Ok? {
        UndisputedKept(h, files1, threads1, h.sys.files, h.sys.threads);
        UnselectedAreKept(config, previous, requested);
        ObsoleteAreExisting(previous, prepared.value.effective);
        UpdatedReads(h.sys, prepared.value.effective, Some(previous), requested, seen, final, h.staged);
        LookingFirst(h.states, old(h.sys.trace), ready, h.sys.trace, prepared.value.effective, Some(previous));
      }
      if h.sys.exclusive {
        if r.Ok? || !r.error.Rollback? {
          UntouchedSince(h.sys, files0, Values(prepared.value.snapshot), Chosen(requested));
        }
        if r.Err? && !r.error.Rollback? {
          UndoneSince(h.sys, volatile0, active0, files0, Values(prepared.value.snapshot), requested);
        }
      }
    }
  }

  lemma InOrderIsUndisputed(h: ManagedHierarchy)
    requires h.InOrder() && h.sys.retuned == {}
    ensures Undisputed(h, h.sys.files, h.sys.threads)
  {
    InOrderIsIntact(h);
  }

  lemma UndisputedDrift(h: ManagedHierarchy, files0: Tree, threads0: map<nat, Thread>)
    requires h.sys.Valid() && (h.sys.exclusive ==> Calm(h.sys.retuned, files0, h.sys.files)) && (h.sys.steady ==> h.sys.threads == threads0)
    ensures Undisputed(h, files0, threads0) ==> Undisputed(h, h.sys.files, h.sys.threads)
  {
    if h.sys.exclusive { DriftKeepsKdamonds(h.sys, files0, threads0); }
    UndisputedKept(h, files0, threads0, h.sys.files, h.sys.threads);
  }

  /** Every identified kdamond runs what it ran. */
  ghost predicate RunsOn(h: ManagedHierarchy, loose: set<Path>, before: map<nat, Tree>)
    reads h, h.sys
  {
    forall i: nat | i < |h.states| && h.states[i].Running? ::
      i in before && i in h.sys.active && SameRunning(h.sys.schema, loose, h.sys.targets, before[i], h.sys.active[i])
  }

  lemma StillUndone(sys: Sysfs, volatile: set<Path>, active0: map<nat, Tree>, files0: Tree, selected: seq<nat>)
    requires Calm(sys.retuned, files0, sys.files) && sys.active == active0
    ensures Undone(sys.schema, sys.retuned, volatile, active0, files0, sys.active, sys.files, selected)
  {
    CalmWidens(sys.retuned, volatile + sys.retuned, files0, sys.files);
  }

  lemma UndoneSince(sys: Sysfs, volatile: set<Path>, active0: map<nat, Tree>, files0: Tree, captured: Tree, selected: seq<nat>)
    requires Calm(sys.retuned, files0, captured)
    requires Undone(sys.schema, sys.retuned, volatile, active0, captured, sys.active, sys.files, selected)
    ensures Undone(sys.schema, sys.retuned, volatile, active0, files0, sys.active, sys.files, selected)
    ensures Calm(volatile + sys.retuned, files0, sys.files)
  {
    if sys.active == active0 && Calm(sys.retuned, captured, sys.files) {
      CalmTransitive(sys.retuned, files0, captured, sys.files);
    }
  }

  /** Staged leaves that belong to no selected kdamond are as they were. */
  ghost predicate UntouchedElsewhere(K: Schema, loose: set<Path>, before: Tree, after: Tree, allowed: set<nat>) {
    forall p | !BelowSome(K, allowed, p) :: (p in before <==> p in after) && (p in before ==> p in loose || after[p] == before[p])
  }

  lemma UntouchedNow(sys: Sysfs, before: Tree, allowed: set<nat>)
    requires Calm(sys.retuned, before, sys.files)
    ensures UntouchedElsewhere(sys.schema, sys.retuned, before, sys.files, allowed)
  {
  }

  lemma UntouchedSince(sys: Sysfs, files0: Tree, captured: Tree, allowed: set<nat>)
    requires Calm(sys.retuned, files0, captured)
    requires UntouchedElsewhere(sys.schema, sys.retuned, captured, sys.files, allowed)
    ensures UntouchedElsewhere(sys.schema, sys.retuned, files0, sys.files, allowed)
  {
  }

  lemma TrackedLeavesOthers(K: Schema, base: Tree, loose: set<Path>, t: Tree, journal: seq<Path>, allowed: set<nat>)
    requires K.Valid() && Covered(K, base, loose, t, Elements(journal)) && forall w | w in journal :: BelowSome(K, allowed, w)
    ensures UntouchedElsewhere(K, loose, base, t, allowed)
  {
    AffectedStaysBelow(K, base, loose, t, allowed, Elements(journal));
    forall p | !BelowSome(K, allowed, p) && p in t ensures p in base {
      NothingNewElsewhere(K, base, loose, t, allowed, p);
    }
  }

  /** Counts outside the selected kdamonds being as they were, so is the list of leaves. */
  lemma {:induction false} NothingNewElsewhere(K: Schema, base: Tree, loose: set<Path>, t: Tree, allowed: set<nat>, q: Path)
    requires K.Valid() && Consistent(K, base) && Consistent(K, t) && NoCounts(loose)
    requires forall p | p in base && !BelowSome(K, allowed, p) :: p in t && (p in loose || t[p] == base[p])
    requires q in t && !BelowSome(K, allowed, q)
    ensures q in base
    decreases |q|
  {
    if q !in K.roots {
      var c, i, r := SupportedParts(K, t, q);
      OwnerIsElsewhere(K, t, allowed, c, i, r);
      NothingNewElsewhere(K, base, loose, t, allowed, c);
      assert IsReconstructionCount(c) && CountOf(K, base, c) == CountOf(K, t, c);
      assert Complete(K, base, c);
    }
  }

  lemma OwnerIsElsewhere(K: Schema, t: Tree, allowed: set<nat>, c: Path, i: nat, r: Path)
    requires K.Valid() && Consistent(K, t) && c in t && c != []
    ensures BelowSome(K, allowed, c) ==> BelowSome(K, allowed, K.Child(c, i, r))
  {
    if BelowSome(K, allowed, c) {
      var a :| a in allowed && KdamondDir(K, a) <= c;
      LeavesHaveShape(K, t, c);
      ShapeIsNoDirectory(K, c, a);
      assert KdamondDir(K, a) <= Dir(c) <= K.Child(c, i, r);
    }
  }

  // ---------- back in step ----------

  lemma ElsewhereIsCalm(K: Schema, loose: set<Path>, before: Tree, after: Tree, allowed: set<nat>, j: nat)
    requires K.Valid() && UntouchedElsewhere(K, loose, before, after, allowed) && j !in allowed
    ensures Calm(loose, Subtree(before, KdamondDir(K, j)), Subtree(after, KdamondDir(K, j)))
  {
    forall p | KdamondDir(K, j) <= p ensures !BelowSome(K, allowed, p) {
      forall a | a in allowed ensures !(KdamondDir(K, a) <= p) {
        assert KdamondDir(K, j)[|K.base|] == K.decimal(j) && KdamondDir(K, a)[|K.base|] == K.decimal(a);
        assert K.number(K.decimal(j)) != K.number(K.decimal(a));
      }
    }
  }

  /** What an updated kdamond runs is the request without its obsolete targets, and that is
      what the settled hierarchy stages for it. */
  lemma SettledIsWhatRuns(sys: Sysfs, config: DamonConfig, observed: Option<DamonConfig>, selected: seq<nat>, seen: Tree, final: Tree, ownership: StagedOwnership, i: nat)
    requires sys.Valid() && sys.exclusive && i in selected
    requires (forall n | n in selected :: n < |config.kdamonds|) && Updated(sys, config, observed, selected, seen, final, ownership)
    ensures InStepAt(sys.schema, sys.retuned, sys.targets, sys.active, sys.files, i) && Clean(sys.schema, sys.targets, sys.files, i)
    ensures sys.targets(TargetPart(sys.schema, sys.active[i])) == Some(TargetsOf(DropObsolete(config.kdamonds[i])))
  {
    var K, loose, targets := sys.schema, sys.retuned, sys.targets;
    RealisedTargets(sys, config, observed, seen, i);
    RealisedTargets(sys, Settled(config, selected), if ContainsObsolete(config, selected) then Some(config) else observed, final, i);
    SettledConfiguration(config, selected, i);
    RetainedIsDropped(config.kdamonds[i]);
    assert NoTargets(K, loose) && ReadersLawful(K, sys.reader, targets);
    CommittedRuns(K, loose, sys.reader, targets, sys.active, seen, i);
    hide SysfsModel.Sysfs.Valid, ReadersLawful, NoTargets, Realises, Settled, DropObsolete, Agrees, Calm, RunsAsStaged;
    SubtreeSameElsewhere(K, loose, seen, final, KdamondDir(K, i));
    SameElsewhereSymmetric(K, loose, Subtree(seen, KdamondDir(K, i)), Subtree(final, KdamondDir(K, i)));
    SameElsewhereTransitive(K, loose, Subtree(final, KdamondDir(K, i)), Subtree(seen, KdamondDir(K, i)), sys.active[i]);
    InStepByDrift(K, loose, targets, sys.active, final, sys.files, i);
    CleanByDrift(K, loose, targets, final, sys.files, i);
  }

  lemma SubtreeSameElsewhere(K: Schema, loose: set<Path>, t: Tree, u: Tree, root: Path)
    requires SameElsewhere(K, loose, t, u)
    ensures SameElsewhere(K, loose, Subtree(t, root), Subtree(u, root))
  {
  }

  /** A tree that realises a request stages its targets. */
  lemma RealisedTargets(sys: Sysfs, config: DamonConfig, observed: Option<DamonConfig>, t: Tree, i: nat)
    requires sys.Valid() && Realises(sys, config, observed, t) && i < |config.kdamonds|
    ensures StagedTargets(sys.schema, sys.targets, t, i) == Some(TargetsOf(config.kdamonds[i]))
  {
    var read := sys.reader(t).value;
    var adopted := AdoptTuned(config, observed, read);
    hide Canonical, PatternEquivalent;
    assert ReadersLawful(sys.schema, sys.reader, sys.targets);
    assert |adopted.kdamonds| == |read.kdamonds| == |config.kdamonds|;
    hide SysfsModel.Sysfs.Valid, ReadersLawful, AdoptTuned, EquivalentAfterKernelNormalization;
    EquivalentHasSameTargets(config, adopted, i);
    AdoptTunedKeepsTargets(config, observed, read, i);
    ReadTargets(sys.schema, sys.reader, sys.targets, t, i);
  }

  /** The hierarchy was in step, with ownership, running configurations and leaves as given. */
  ghost predicate InStepWith(h: ManagedHierarchy, staged: StagedOwnership, active: map<nat, Tree>, t: Tree)
    reads h
  {
    && staged.count == |h.states| && OwnedIn(h.sys.schema, h.sys.retuned, staged, t)
    && InStepIn(h.sys.schema, h.sys.retuned, h.sys.targets, h.states, active, t)
  }

  lemma RealisedIsTuned(sys: Sysfs, config: DamonConfig, observed: Option<DamonConfig>, t: Tree)
    requires sys.Valid() && Realises(sys, config, observed, t)
    ensures TunedAs(sys.schema, t, VolatilePaths(sys.schema, config), |config.kdamonds|)
  {
    assert ReadersLawful(sys.schema, sys.reader, sys.targets);
    hide SysfsModel.Sysfs.Valid, AdoptTuned, EquivalentAfterKernelNormalization, VolatilePaths, ViewsGoals;
    ReadBackIsTuned(sys.schema, t, config, observed, sys.reader(t).value);
  }

  /** What a completed update owns is what is staged then. */
  lemma OwnedAfterUpdate(sys: Sysfs, config: DamonConfig, observed: Option<DamonConfig>, selected: seq<nat>, seen: Tree, final: Tree, ownership: StagedOwnership)
    requires sys.Valid() && sys.exclusive && forall n | n in selected :: n < |config.kdamonds|
    requires Updated(sys, config, observed, selected, seen, final, ownership)
    ensures OwnedIn(sys.schema, sys.retuned, ownership, sys.files)
  {
    var K := sys.schema;
    assert K.Lawful() && OnlyIntervals(sys.retuned);
    RealisedIsTuned(sys, Settled(config, selected), if ContainsObsolete(config, selected) then Some(config) else observed, final);
    hide SysfsModel.Sysfs.Valid, Schema.Lawful, Realises, Settled, Agrees, Calm, TunedAs, IsCapture, OnlyIntervals,
         VolatilePaths, SameElsewhere, RunsAsStaged;
    CalmIsSameTuning(K, sys.retuned, final, sys.files);
    TunedAsKept(K, final, sys.files, ownership.volatile, ownership.count);
  }

  /** So is what an undone one owns, whether ownership was renewed or not. */
  lemma OwnedAfterUndo(h: ManagedHierarchy, staged0: StagedOwnership, files0: Tree, previous: DamonConfig)
    requires h.Valid() && h.sys.exclusive && OwnedIn(h.sys.schema, h.sys.retuned, staged0, files0) && Owns(h)
    requires Calm(staged0.volatile + h.sys.retuned, files0, h.sys.files)
    requires h.staged == staged0 || (OwnsAgain(h, previous) && ReadFrom(h.sys, files0, previous))
    ensures OwnedIn(h.sys.schema, h.sys.retuned, h.staged, h.sys.files)
  {
    var K, wider := h.sys.schema, staged0.volatile + h.sys.retuned;
    assert K.Lawful() && OnlyIntervals(h.sys.retuned) && ReadersLawful(K, h.sys.reader, h.sys.targets);
    TunedLeavesAreIntervals(K, files0, staged0);
    if h.staged != staged0 {
      var seen: Tree :| Calm(h.sys.retuned, files0, seen) && h.sys.reader(seen) == Some(previous);
      CalmWidens(h.sys.retuned, h.sys.retuned, files0, seen);
      hide SysfsModel.Sysfs.Valid, Schema.Lawful, Agrees, Calm, TunedAs, IsCapture, VolatilePaths, ViewsGoals,
           ReadersLawful;
      assert ViewsGoals(K, seen, previous) by { assert ReadersLawful(K, h.sys.reader, h.sys.targets); }
      CalmIsSameTuning(K, h.sys.retuned, seen, files0);
      ViewedIsTuned(K, seen, previous);
      TunedAsKept(K, seen, files0, h.staged.volatile, h.staged.count);
    }
    hide SysfsModel.Sysfs.Valid, Schema.Lawful, Agrees, Calm, TunedAs, IsCapture, VolatilePaths, ViewsGoals,
         ReadersLawful;
    CalmIsSameTuning(K, wider, files0, h.sys.files);
    TunedAsKept(K, files0, h.sys.files, h.staged.volatile, h.staged.count);
  }

  lemma ViewedIsTuned(K: Schema, t: Tree, config: DamonConfig)
    requires ViewsGoals(K, t, config)
    ensures TunedAs(K, t, VolatilePaths(K, config), |config.kdamonds|)
  {
  }

  lemma TunedLeavesAreIntervals(K: Schema, t: Tree, staged: StagedOwnership)
    requires TunedAs(K, t, staged.volatile, staged.count)
    ensures OnlyIntervals(staged.volatile)
  {
    var config :| ViewsGoals(K, t, config) && staged.volatile == VolatilePaths(K, config);
    VolatileIsIntervals(K, config);
  }

  /** A kdamond left out of an update stays in step. */
  lemma UnlistedInStep(sys: Sysfs, listed: seq<nat>, active0: map<nat, Tree>, files0: Tree, i: nat)
    requires sys.Valid() && i !in listed && SparesOthers(active0, sys.active, listed)
    requires UntouchedElsewhere(sys.schema, sys.retuned, files0, sys.files, Chosen(listed))
    ensures Clean(sys.schema, sys.targets, files0, i) ==> Clean(sys.schema, sys.targets, sys.files, i)
    ensures InStepAt(sys.schema, sys.retuned, sys.targets, active0, files0, i) ==> InStepAt(sys.schema, sys.retuned, sys.targets, sys.active, sys.files, i)
  {
    var K, loose, targets := sys.schema, sys.retuned, sys.targets;
    assert K.Valid() && NoTargets(K, loose);
    assert i in active0 ==> i in sys.active && sys.active[i] == active0[i];
    hide SysfsModel.Sysfs.Valid, Schema.Valid, UntouchedElsewhere, NoTargets, Clean, SameRunning, Calm, SparesOthers;
    ElsewhereIsCalm(K, loose, files0, sys.files, Chosen(listed), i);
    if Clean(K, targets, files0, i) { CleanBelow(K, loose, targets, files0, sys.files, i); }
    if InStepAt(K, loose, targets, active0, files0, i) { InStepBelow(K, loose, targets, active0, files0, sys.active, sys.files, i); }
  }

  lemma StepsAfterUpdate(sys: Sysfs, states: seq<SessionState>, config: DamonConfig, observed: Option<DamonConfig>, selected: seq<nat>,
                         seen: Tree, final: Tree, ownership: StagedOwnership, active0: map<nat, Tree>, files0: Tree)
    requires sys.Valid() && sys.exclusive && forall n | n in selected :: n < |config.kdamonds|
    requires Updated(sys, config, observed, selected, seen, final, ownership) && SparesOthers(active0, sys.active, selected)
    requires UntouchedElsewhere(sys.schema, sys.retuned, files0, sys.files, Chosen(selected))
    requires InStepIn(sys.schema, sys.retuned, sys.targets, states, active0, files0)
    ensures InStepIn(sys.schema, sys.retuned, sys.targets, states, sys.active, sys.files)
  {
    hide SysfsModel.Sysfs.Valid, Updated, UntouchedElsewhere, SparesOthers, Clean, InStepAt;
    forall i: nat | i < |states|
      ensures Clean(sys.schema, sys.targets, sys.files, i)
      ensures states[i].Running? ==> InStepAt(sys.schema, sys.retuned, sys.targets, sys.active, sys.files, i)
    {
      if i in selected {
        SettledIsWhatRuns(sys, config, observed, selected, seen, final, ownership, i);
      } else {
        UnlistedInStep(sys, selected, active0, files0, i);
      }
    }
  }

  /** A completed update keeps a hierarchy in step. */
  lemma InStepAfterUpdate(h: ManagedHierarchy, config: DamonConfig, observed: Option<DamonConfig>, selected: seq<nat>, seen: Tree, final: Tree,
                          active0: map<nat, Tree>, files0: Tree)
    requires h.Valid() && h.sys.exclusive && |config.kdamonds| == |h.states| && forall n | n in selected :: n < |config.kdamonds|
    requires Updated(h.sys, config, observed, selected, seen, final, h.staged) && SparesOthers(active0, h.sys.active, selected)
    requires UntouchedElsewhere(h.sys.schema, h.sys.retuned, files0, h.sys.files, Chosen(selected))
    requires InStepIn(h.sys.schema, h.sys.retuned, h.sys.targets, h.states, active0, files0)
    ensures h.InStep()
  {
    assert h.sys.Valid() && h.staged.count == |h.states|;
    hide ManagedHierarchy.Valid, SysfsModel.Sysfs.Valid, Updated, UntouchedElsewhere, InStepIn, OwnedIn, SparesOthers;
    OwnedAfterUpdate(h.sys, config, observed, selected, seen, final, h.staged);
    StepsAfterUpdate(h.sys, h.states, config, observed, selected, seen, final, h.staged, active0, files0);
  }

  lemma StepsAfterUndo(sys: Sysfs, states: seq<SessionState>, volatile: set<Path>, active0: map<nat, Tree>, files0: Tree, selected: seq<nat>)
    requires sys.Valid() && sys.exclusive && NoTargets(sys.schema, volatile)
    requires Undone(sys.schema, sys.retuned, volatile, active0, files0, sys.active, sys.files, selected)
    requires SparesOthers(active0, sys.active, selected)
    requires UntouchedElsewhere(sys.schema, sys.retuned, files0, sys.files, Chosen(selected))
    requires InStepIn(sys.schema, sys.retuned, sys.targets, states, active0, files0)
    ensures InStepIn(sys.schema, sys.retuned, sys.targets, states, sys.active, sys.files)
  {
    var K, loose, targets, wider := sys.schema, sys.retuned, sys.targets, volatile + sys.retuned;
    assert K.Valid() && NoTargets(K, loose) && NoTargets(K, wider) && ReadersLawful(K, sys.reader, targets);
    hide SysfsModel.Sysfs.Valid, Schema.Valid, UntouchedElsewhere, SparesOthers, NoTargets, Clean, InStepAt, Calm,
         RunsAsStaged, ReadersLawful;
    forall i: nat | i < |states|
      ensures Clean(K, targets, sys.files, i) && (states[i].Running? ==> InStepAt(K, loose, targets, sys.active, sys.files, i))
    {
      CleanByDrift(K, wider, targets, files0, sys.files, i);
      if states[i].Running? {
        if i !in selected {
          UnlistedInStep(sys, selected, active0, files0, i);
        } else if sys.active == active0 && Calm(loose, files0, sys.files) {
          InStepByDrift(K, loose, targets, active0, files0, sys.files, i);
        } else {
          CommittedInStep(K, loose, sys.reader, targets, sys.active, sys.files, i);
        }
      }
    }
  }

  /** Kdamonds in step before and after, over the same staged hierarchy, run what they ran. */
  lemma StepsRunOn(h: ManagedHierarchy, volatile: set<Path>, active0: map<nat, Tree>, files0: Tree)
    requires h.sys.Valid() && NoTargets(h.sys.schema, volatile) && Calm(volatile + h.sys.retuned, files0, h.sys.files)
    requires InStepIn(h.sys.schema, h.sys.retuned, h.sys.targets, h.states, active0, files0)
    requires InStepIn(h.sys.schema, h.sys.retuned, h.sys.targets, h.states, h.sys.active, h.sys.files)
    ensures RunsOn(h, volatile + h.sys.retuned, active0)
  {
    var K, loose, targets, wider := h.sys.schema, h.sys.retuned, h.sys.targets, volatile + h.sys.retuned;
    assert NoTargets(K, wider);
    hide SysfsModel.Sysfs.Valid, NoTargets, Clean, InStepAt, Calm, SameRunning;
    forall i: nat | i < |h.states| && h.states[i].Running?
      ensures i in active0 && i in h.sys.active && SameRunning(K, wider, targets, active0[i], h.sys.active[i])
    {
      InStepTwice(K, loose, wider, targets, active0, files0, h.sys.active, h.sys.files, i);
    }
  }

  /** So does one that was undone, and nobody runs anything new. */
  lemma InStepAfterUndo(h: ManagedHierarchy, volatile: set<Path>, active0: map<nat, Tree>, files0: Tree, selected: seq<nat>)
    requires h.Valid() && h.sys.exclusive && NoTargets(h.sys.schema, volatile)
    requires Undone(h.sys.schema, h.sys.retuned, volatile, active0, files0, h.sys.active, h.sys.files, selected)
    requires SparesOthers(active0, h.sys.active, selected)
    requires UntouchedElsewhere(h.sys.schema, h.sys.retuned, files0, h.sys.files, Chosen(selected))
    requires InStepIn(h.sys.schema, h.sys.retuned, h.sys.targets, h.states, active0, files0) && h.staged.count == |h.states|
    requires OwnedIn(h.sys.schema, h.sys.retuned, h.staged, h.sys.files)
    ensures h.InStep() && RunsOn(h, volatile + h.sys.retuned, active0)
  {
    assert h.sys.Valid();
    hide ManagedHierarchy.Valid, SysfsModel.Sysfs.Valid, UntouchedElsewhere, InStepIn, OwnedIn, SparesOthers,
         NoTargets, RunsAsStaged, Calm, RunsOn;
    StepsAfterUndo(h.sys, h.states, volatile, active0, files0, selected);
    StepsRunOn(h, volatile, active0, files0);
  }

  /** The session has taken ownership of a fresh capture of the preceding configuration. */
  ghost predicate OwnsAgain(h: ManagedHierarchy, previous: DamonConfig)
    reads h
  {
    IsCapture(h.sys.schema, h.staged.entries) && h.staged == Ownership(h.sys.schema, h.staged.entries, previous)
  }

  /** The transaction proper. */
  method Transact(h: ManagedHierarchy, p: Prepared) returns (r: Result<()>, ghost seen: Tree, ghost final: Tree)
    requires h.Valid() && Sorted(p.snapshot) && Consistent(h.sys.schema, Values(p.snapshot))
    requires |p.effective.kdamonds| == |p.previous.kdamonds| == |h.states| && forall i | i in p.selected :: i < |h.states|
    requires DifferOnlyIn(p.effective, Some(p.previous), Chosen(p.selected))
    requires h.sys.exclusive ==> Calm(h.sys.retuned, Values(p.snapshot), h.sys.files)
    modifies h`staged, h.sys
    ensures h.Valid()
    ensures h.sys.exclusive ==> SparesOthers(old(h.sys.active), h.sys.active, p.selected)
    ensures r.Ok? ==> CommitsFollowCheck(h.states, old(h.sys.trace), h.sys.trace, p.effective, Some(p.previous))
    ensures r.Ok? ==> Updated(h.sys, p.effective, Some(p.previous), p.selected, seen, final, h.staged)
    ensures (r.Err? ==> !r.error.Rollback?) && h.sys.exclusive ==>
              UntouchedElsewhere(h.sys.schema, h.sys.retuned, Values(p.snapshot), h.sys.files, Chosen(p.selected))
    ensures r.Err? && !r.error.Rollback? && h.sys.exclusive ==>
              Undone(h.sys.schema, h.sys.retuned, old(h.staged.volatile), old(h.sys.active), Values(p.snapshot), h.sys.active, h.sys.files, p.selected)
    ensures (r.Err? ==> !r.error.Rollback?) ==> Owns(h)
    ensures Undisputed(h, old(h.sys.files), old(h.sys.threads)) && (forall i | i in p.selected :: h.OwnedPidOf(i).Some?) && StagedWell(h.sys.trace, |old(h.sys.trace)|, true) ==>
              r.Ok?
    ensures h.sys.exclusive && r.Ok? ==> KdamondsKept(h.sys, old(h.sys.files), old(h.sys.threads), h.sys.files, h.sys.threads)
    ensures r.Err? ==> h.staged == old(h.staged) || OwnsAgain(h, p.previous)
    ensures h.staged == old(h.staged) || h.staged.count == |h.states|
    ensures old(h.sys.trace) <= h.sys.trace
  {
    hide SysfsModel.Sysfs.Valid, RunInvariant, Sorted, Values, Consistent, Covered, BelowSome, RunsAsStaged, Realises,
         UntouchedElsewhere, DifferOnlyIn, Agrees, ContainsObsolete, WithoutObsolete, VolatilePaths,
         CommitsFollowCheck, KdamondsKept, AllFit, CountOf, StagedWell;
    ghost var start := h.sys.trace;
    ghost var base, allowed := Values(p.snapshot), Chosen(p.selected);
    h.sys.BeginJournal();
    if h.sys.exclusive { CoveredAtStart(h.sys, base); }
    var operation, seen', final' := StageAndCommitRunning(h, p.effective, p.previous, p.selected, base, allowed);
    seen, final := seen', final';
    var writes := h.sys.TakeJournal();
    ghost var staged := h.sys.trace;
    if operation.Ok? {
      if h.sys.exclusive { TrackedLeavesOthers(h.sys.schema, base, h.sys.retuned, h.sys.files, writes, allowed); }
      VolatileIsPlain(h.sys.schema, Settled(p.effective, p.selected));
      h.staged := operation.value;
      return Ok(()), seen, final;
    }
    r := Recover(h, p, writes, operation.error);
    if StagedWell(h.sys.trace, |start|, true) { StagedWellEarlier(h.sys.trace, staged, |start|, |start|, true); }
  }

  method Recover(h: ManagedHierarchy, p: Prepared, writes: seq<Path>, operation: Error) returns (r: Result<()>)
    requires h.Valid() && Sorted(p.snapshot) && Consistent(h.sys.schema, Values(p.snapshot))
    requires Recorded(h.sys, p.snapshot, Chosen(p.selected), writes)
    modifies h`staged, h.sys
    ensures h.Valid() && r.Err? && old(h.sys.trace) <= h.sys.trace
    ensures h.sys.exclusive ==> SparesOthers(old(h.sys.active), h.sys.active, p.selected)
    ensures !r.error.Rollback? ==> r.error == operation
    ensures !r.error.Rollback? && h.sys.exclusive ==>
              && Calm(old(h.staged.volatile) + h.sys.retuned, Values(p.snapshot), h.sys.files)
              && forall i | i in p.selected :: RunsAsStaged(h.sys.schema, h.sys.retuned, h.sys.active, h.sys.files, i)
    ensures h.sys.exclusive ==>
              UntouchedElsewhere(h.sys.schema, h.sys.retuned, Values(p.snapshot), h.sys.files, Chosen(p.selected))
    ensures !r.error.Rollback? ==> Owns(h)
    ensures h.staged == old(h.staged) || OwnsAgain(h, p.previous)
  {
    hide SysfsModel.Sysfs.Valid, RunInvariant, Sorted, Values, Consistent, Recorded, RunsAsStaged, Agrees,
         VolatilePaths, Calm, UntouchedElsewhere, NoTargets;
    var restored := RestoreAndCommitRunning(h, p.snapshot, p.previous, p.selected, writes, Chosen(p.selected));
    RecordedLeavesOthers(h.sys, p.snapshot, Chosen(p.selected), writes);
    if restored.Ok? {
      VolatileIsPlain(h.sys.schema, p.previous);
      h.staged := restored.value;
      r := Err(operation);
    } else {
      r := Err(Rollback(operation, restored.error));
    }
  }

  lemma RecordedLeavesOthers(sys: Sysfs, snapshot: seq<Entry>, allowed: set<nat>, writes: seq<Path>)
    requires sys.Valid() && Sorted(snapshot) && Recorded(sys, snapshot, allowed, writes)
    ensures sys.exclusive ==> UntouchedElsewhere(sys.schema, sys.retuned, Values(snapshot), sys.files, allowed)
  {
    assert sys.schema.Valid();
    hide SysfsModel.Sysfs.Valid, Covered, UntouchedElsewhere, Values, BelowSome;
    if sys.exclusive { TrackedLeavesOthers(sys.schema, Values(snapshot), sys.retuned, sys.files, writes, allowed); }
  }

  lemma CoveredAtStart(sys: Sysfs, base: Tree)
    requires sys.Valid() && Consistent(sys.schema, base) && Calm(sys.retuned, base, sys.files)
    ensures Covered(sys.schema, base, sys.retuned, sys.files, Elements([]))
  {
    assert Elements([]) == {};
  }

  /** The configuration settled on for a selected kdamond is its request without the obsolete targets. */
  lemma SettledConfiguration(config: DamonConfig, selected: seq<nat>, i: nat)
    requires (forall n | n in selected :: n < |config.kdamonds|) && i in selected
    ensures Settled(config, selected).kdamonds[i] == DropObsolete(config.kdamonds[i])
    ensures !HasObsolete(Settled(config, selected).kdamonds[i])
  {
    var k := config.kdamonds[i];
    forall c | 0 <= c < |k.contexts| ensures !HasObsoleteTarget(DropObsoleteContext(k.contexts[c])) {
      RetainedMembers(k.contexts[c].targets);
    }
    if !ContainsObsolete(config, selected) {
      assert !HasObsolete(k);
      forall c | 0 <= c < |k.contexts| ensures DropObsoleteContext(k.contexts[c]) == k.contexts[c] {
        assert k.contexts[c] in k.contexts;
        AllRetained(k.contexts[c].targets);
      }
      assert DropObsolete(k).contexts == k.contexts;
    }
  }

  predicate HasObsoleteTarget(c: ContextConfig) {
    exists t | t in c.targets :: t.obsolete
  }
}
