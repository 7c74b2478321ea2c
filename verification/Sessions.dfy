/** Opening, replacing and closing an owned hierarchy, and probing the kernel's capabilities. */
module Sessions {
  import opened Outcomes
  import opened Paths
  import opened KernelTree
  import opened Config
  import opened TuningGoals
  import opened SysfsModel
  import opened TargetLeaves
  import opened RunningState
  import opened Traces
  import opened Snapshots
  import opened Retries
  import opened Hierarchy
  import opened Validity
  import opened Updates
  import opened Rollbacks
  import opened OnlineUpdates
  import opened StagingRecords
  import opened StoppedRecords
  import opened Transactions
  import opened Readbacks

  /** Since `earlier` nothing was turned on. */
  lemma NothingPending(earlier: seq<Event>, later: seq<Event>)
    requires Uncommanded(earlier, later) && SafeStops(earlier) && SafeCommits(earlier) && forall i: nat :: !PendingOn(earlier, i)
    ensures SafeStops(later) && SafeCommits(later) && forall i: nat :: !PendingOn(later, i)
  {
    SafeWithoutOff(earlier, later);
    SafeWithoutCommit(earlier, later);
    forall i: nat ensures !PendingOn(later, i) { StaysSettled(earlier, later, i); }
  }

  /** Stages a runnable hierarchy and takes ownership of it, remembering what it replaced. */
  method Open(sys: Sysfs, config: DamonConfig, page: nat) returns (r: Result<()>, h: ManagedHierarchy?)
    requires sys.Valid() && 0 < page && SafeStops(sys.trace) && SafeCommits(sys.trace) && forall i: nat :: !PendingOn(sys.trace, i)
    modifies sys
    ensures r.Ok? ==>
              && h != null && fresh(h) && h.Valid() && h.sys == sys
              && h.ownsHierarchy && |h.states| == |config.kdamonds| && h.AllStaged()
              && h.previous.Some? && CapturedFirst(old(sys.trace), sys.trace, h.previous.value)
              && (sys.exclusive ==> Calm(sys.retuned, old(sys.files), Values(h.previous.value)))
              && StagedAs(sys, old(sys.trace), config, h.staged.entries)
              && h.staged == Ownership(sys.schema, h.staged.entries, config)
              && h.InStep() && Owns(h)
              && StagedExactly(sys, config)
    ensures OnlyWhenStopped(old(sys.trace), sys.trace) && (r.Ok? ==> ReadWhileStopped(old(sys.trace), sys.trace))
    ensures sys.exclusive && Serving(sys, old(sys.files), config) ==> Looked(old(sys.trace), sys.trace)
    ensures old(sys.Idle()) && Runnable(config, false, page) && StagedWell(sys.trace, |old(sys.trace)|, false) ==>
              r.Ok? && (sys.retuned <= VolatilePaths(sys.schema, config) ==> h.InOrder())
    ensures r.Err? && !r.error.Rollback? && sys.exclusive ==> Calm(sys.retuned, old(sys.files), sys.files)
  {
    hide SysfsModel.Sysfs.Valid, Looked, StagedAs, StagedExactly, Sorted, Values, Consistent, CapturedFirst,
         EndsCapturing, Runnable, VolatilePaths, SafeStops, StagedWell, AllFit, OnlyWhenStopped, ReadWhileStopped,
         Serving;
    h := null;
    LookedNothing(sys.trace);
    LookingIsWhenStopped(sys.trace, sys.trace);
    if !Runnable(config, false, page) { return Err(InvalidConfiguration), null; }
    var staged, previous := StageConfigurationLocked(sys, config);
    if staged.Err? { return Err(staged.error), null; }
    NothingPending(old(sys.trace), sys.trace);
    VolatileIsPlain(sys.schema, config);
    StagedIsSorted(sys, old(sys.trace), config, staged.value.current);
    var session := new ManagedHierarchy(sys, staged.value.previous, Ownership(sys.schema, staged.value.current, config));
    h := session;
    StagedInStep(h, old(sys.trace), config);
    NothingObsolete(config, page);
    StagedIsOwned(h, old(sys.trace), config);
    if sys.Idle() { AllStagedFits(h); }
    StagedReads(sys, old(sys.trace), config, h.staged.entries);
    r := Ok(());
  }

  /** A hierarchy in step whose kdamonds are all off and known to be staged. */
  lemma AllStagedFits(h: ManagedHierarchy)
    requires h.Valid() && h.sys.Idle() && h.AllStaged()
    ensures h.InStep() ==> AllFit(h.states, h.sys.threads)
  {
    EveryThreadOff(h.sys);
    if h.InStep() { CountIsStaged(h); }
  }

  /** So no thread runs while the session has started none. */
  lemma AllStagedIsIdle(h: ManagedHierarchy)
    requires h.Valid() && h.InOrder() && h.AllStaged()
    ensures h.sys.Idle()
  {
    CountIsStaged(h);
  }

  lemma CountIsStaged(h: ManagedHierarchy)
    requires h.InStep() && h.sys.exclusive
    ensures CountOf(h.sys.schema, h.sys.files, h.sys.schema.top) == |h.states|
  {
  }

  /** The staged tree, retuned leaves apart, reads as the request, field by field. */
  ghost predicate StagedExactly(sys: Sysfs, config: DamonConfig)
    reads sys
  {
    sys.exclusive ==> exists t: Tree :: Calm(sys.retuned, t, sys.files) && sys.reader(t).Some? && ReadsExactly(config, sys.reader(t).value)
  }

  lemma StagedReads(sys: Sysfs, earlier: seq<Event>, config: DamonConfig, entries: seq<Entry>)
    requires StagedAs(sys, earlier, config, entries)
    ensures StagedExactly(sys, config)
  {
    if sys.exclusive {
      var t: Tree :| Reads(sys, t, config);
      EquivalentReadback(config, sys.reader(t).value);
    }
  }

  lemma NothingObsolete(config: DamonConfig, page: nat)
    requires 0 < page && Runnable(config, false, page)
    ensures NothingMarkedIn(config)
  {
    forall k | k in config.kdamonds ensures !HasObsolete(k) {
      assert RunnableContext(k.contexts[0], false, page);
    }
  }

  predicate NothingMarkedIn(config: DamonConfig) {
    forall k | k in config.kdamonds :: !HasObsolete(k)
  }

  /** A hierarchy staged without marked targets, and not started yet, is in step. */
  lemma StagedInStep(h: ManagedHierarchy, earlier: seq<Event>, config: DamonConfig)
    requires h.Valid() && OwnsStaged(h, earlier, config) && |config.kdamonds| == |h.states|
    requires forall i | 0 <= i < |h.states| :: h.states[i].Staged?
    ensures NothingMarkedIn(config) ==> h.InStep()
  {
    assert h.sys.Valid() && h.staged.count == |h.states|;
    hide ManagedHierarchy.Valid, SysfsModel.Sysfs.Valid, OwnsStaged, InStepIn, OwnedIn;
    if h.sys.exclusive && NothingMarkedIn(config) {
      StagedIsClean(h.sys, h.states, earlier, config, h.staged.entries) by { assert OwnsStaged(h, earlier, config); }
      StagedOwned(h, earlier, config);
    }
  }

  lemma StagedIsClean(sys: Sysfs, states: seq<SessionState>, earlier: seq<Event>, config: DamonConfig, entries: seq<Entry>)
    requires sys.Valid() && sys.exclusive && StagedAs(sys, earlier, config, entries) && |config.kdamonds| == |states|
    requires (forall i | 0 <= i < |states| :: states[i].Staged?) && NothingMarkedIn(config)
    ensures InStepIn(sys.schema, sys.retuned, sys.targets, states, sys.active, sys.files)
  {
    var K, targets, reader := sys.schema, sys.targets, sys.reader;
    var t: Tree :| Reads(sys, t, config);
    assert NoTargets(K, sys.retuned) && ReadersLawful(K, reader, targets);
    hide SysfsModel.Sysfs.Valid, ReadersLawful, NoTargets, EquivalentAfterKernelNormalization, Clean, Calm;
    SameLength(config, reader(t).value);
    forall i: nat | i < |states| ensures Clean(K, targets, sys.files, i) {
      EquivalentHasSameTargets(config, reader(t).value, i);
      ReadTargets(K, reader, targets, t, i);
      NothingMarked(config.kdamonds[i]);
      CleanIs(K, targets, t, i, TargetsOf(config.kdamonds[i]));
      CleanByDrift(K, sys.retuned, targets, t, sys.files, i);
    }
  }

  /** What was staged, captured and read back as the request is what the session owns. */
  lemma StagedOwned(h: ManagedHierarchy, earlier: seq<Event>, config: DamonConfig)
    requires h.sys.Valid() && h.sys.exclusive && OwnsStaged(h, earlier, config)
    ensures OwnedIn(h.sys.schema, h.sys.retuned, h.staged, h.sys.files)
  {
    var K := h.sys.schema;
    var t: Tree :| Reads(h.sys, t, config);
    assert K.Lawful() && OnlyIntervals(h.sys.retuned) && ReadersLawful(K, h.sys.reader, h.sys.targets);
    CaptureAgrees(h.sys, h.staged.entries, h.staged.volatile + h.sys.retuned);
    hide SysfsModel.Sysfs.Valid, Schema.Lawful, Agrees, TunedAs, EquivalentAfterKernelNormalization, VolatilePaths,
         ViewsGoals, OnlyIntervals;
    EquivalentIsTuned(K, t, config, h.sys.reader(t).value);
    CalmIsSameTuning(K, h.sys.retuned, t, h.sys.files);
    TunedAsKept(K, t, h.sys.files, h.staged.volatile, h.staged.count);
  }

  lemma CleanIs(K: Schema, targets: TargetReader, t: Tree, i: nat, staged: seq<seq<TargetConfig>>)
    requires StagedTargets(K, targets, t, i) == Some(staged) && Unmarked(staged)
    ensures Clean(K, targets, t, i)
  {
  }

  lemma SameLength(request: DamonConfig, observed: DamonConfig)
    requires EquivalentAfterKernelNormalization(request, observed)
    ensures |request.kdamonds| == |observed.kdamonds|
  {
  }

  lemma StagedIsOwned(h: ManagedHierarchy, earlier: seq<Event>, config: DamonConfig)
    requires StagedAs(h.sys, earlier, config, h.staged.entries)
    ensures Owns(h)
  {
    if h.sys.exclusive { CaptureAgrees(h.sys, h.staged.entries, h.staged.volatile + h.sys.retuned); }
  }

  lemma StagedIsSorted(sys: Sysfs, earlier: seq<Event>, config: DamonConfig, entries: seq<Entry>)
    requires StagedAs(sys, earlier, config, entries)
    ensures Sorted(entries)
  {
  }

  /** Gives the hierarchy up. Ok on an owned hierarchy means: everything this session ran is
      off, and the last thing read was a capture equal to the hierarchy it had replaced. On
      any error the session keeps ownership. */
  method Close(h: ManagedHierarchy) returns (r: Result<()>)
    requires h.Valid()
    modifies h`states, h`ownsHierarchy, h.sys
    ensures h.Valid() && |h.states| == |old(h.states)|
    ensures !old(h.ownsHierarchy) ==> r.Ok? && h.sys.trace == old(h.sys.trace) && h.states == old(h.states)
    ensures r.Ok? ==> !h.ownsHierarchy
    ensures r.Ok? && old(h.ownsHierarchy) ==> h.previous.Some? && h.AllStaged() && Restored(h.sys, h.previous.value)
    ensures old(h.InOrder()) && h.previous.Some? ==> r.Ok?
    ensures r.Err? ==> h.ownsHierarchy && !r.error.Rollback?
    ensures Guarded(old(h.sys.trace), h.sys.trace)
  {
    hide SysfsModel.Sysfs.Valid, Looked, Uncommanded, Sorted, Values, Consistent, EndsCapturing, RunInvariant,
         Favourable, CountHeld, Agrees, Guarded, ManagedHierarchy.InStep, ManagedHierarchy.InOrder, Calm, NoTargets;
    ghost var t0 := h.sys.trace;
    GuardedNothing(t0);
    if !h.ownsHierarchy { return Ok(()); }
    r := h.StopAll();
    if r.Err? { return; }
    ghost var stopped := h.sys.trace;
    r := h.VerifyStaged();
    StagedLook(stopped, h.sys.trace);
    LookingIsGuarded(stopped, h.sys.trace);
    GuardedTransitive(t0, stopped, h.sys.trace);
    if r.Err? { return; }
    if h.InOrder() { AllStagedIsIdle(h); }
    if h.previous.None? { return Err(OwnershipLost(Unrestorable)); }
    ghost var t1 := h.sys.trace;
    var matches := RetryMatchesComplete(h.sys, h.previous.value);
    LookingKeepsInvariant(h.states, t1, h.sys.trace);
    LookingIsGuarded(t1, h.sys.trace);
    GuardedTransitive(t0, t1, h.sys.trace);
    if matches.Err? { return Err(matches.error); }
    if !matches.value {
      ghost var t2 := h.sys.trace;
      r := RestoreConfiguration(h.sys, h.previous.value);
      RestoringKeepsInvariant(h.states, t2, h.sys.trace);
      UncommandedIsGuarded(t2, h.sys.trace);
      GuardedTransitive(t0, t2, h.sys.trace);
      if r.Err? { return; }
    }
    h.ownsHierarchy := false;
    r := Ok(());
  }

  /** The session owns a hierarchy that was read back as `config`. */
  ghost predicate OwnsStaged(h: ManagedHierarchy, earlier: seq<Event>, config: DamonConfig)
    reads h, h.sys
  {
    && StagedAs(h.sys, earlier, config, h.staged.entries)
    && h.staged == Ownership(h.sys.schema, h.staged.entries, config)
  }

  /** `config` was read since `earlier`, before anything was written. */
  ghost predicate ReadFirst(earlier: seq<Event>, later: seq<Event>, config: DamonConfig) {
    exists k | |earlier| <= k < |later| :: later[k] == ConfigurationRead(Ok(config)) && forall m | |earlier| <= m < k :: later[m].Passive()
  }

  lemma ReadFirstExtends(earlier: seq<Event>, middle: seq<Event>, later: seq<Event>, config: DamonConfig)
    requires ReadFirst(earlier, middle, config) && middle <= later
    ensures ReadFirst(earlier, later, config)
  {
    var k :| |earlier| <= k < |middle| && middle[k] == ConfigurationRead(Ok(config)) && forall m | |earlier| <= m < k :: middle[m].Passive();
    assert later[k] == middle[k];
    assert forall m | |earlier| <= m < k :: later[m] == middle[m];
  }

  lemma ReadNowFirst(earlier: seq<Event>, middle: seq<Event>, later: seq<Event>, config: DamonConfig)
    requires Looked(earlier, middle) && |earlier| < |middle| && middle[|middle| - 1] == ConfigurationRead(Ok(config)) && middle <= later
    ensures ReadFirst(earlier, later, config)
  {
    ReadFirstExtends(earlier, middle, later, config);
  }

  /** Restages a stopped, owned hierarchy. When that fails, the configuration read before is
      staged again, so whatever happens short of a failed rollback the session owns a
      hierarchy that reads back as what it asked for. */
  method ReplaceStaged(h: ManagedHierarchy, config: DamonConfig, page: nat) returns (r: Result<()>, ghost standing: DamonConfig)
    requires h.Valid() && 0 < page
    modifies h`staged, h.sys
    ensures h.Valid()
    ensures r.Ok? ==> OwnsStaged(h, old(h.sys.trace), config) && |config.kdamonds| == |h.states| && h.AllStaged() && Runnable(config, false, page)
    ensures r.Err? && !r.error.Rollback? ==>
              || (h.staged == old(h.staged) && Looked(old(h.sys.trace), h.sys.trace))
              || (OwnsStaged(h, old(h.sys.trace), standing) && ReadFirst(old(h.sys.trace), h.sys.trace, standing))
    ensures OnlyWhenStopped(old(h.sys.trace), h.sys.trace)
    ensures r.Err? && r.error.Rollback? ==> h.staged == old(h.staged)
    ensures (old(h.InOrder()) && h.AllStaged() && |config.kdamonds| == |h.states| && Runnable(config, false, page)
             && h.sys.reader(old(h.sys.files)).Some? && StagedWell(h.sys.trace, |old(h.sys.trace)|, false)) ==> r.Ok? && h.sys.Idle()
    ensures r.Ok? || (old(h.InStep()) && !r.error.Rollback?) ==> h.InStep()
    ensures r.Ok? || (old(Owns(h)) && !r.error.Rollback?) ==> Owns(h)
  {
    hide ManagedHierarchy.Valid, ManagedHierarchy.InStep, ManagedHierarchy.InOrder, Looked, Uncommanded, OwnsStaged,
         ReadFirst, Runnable, NothingMarkedIn, StagedWell, Agrees, Calm, ReadFrom, VolatilePaths, OnlyWhenStopped;
    ghost var t0, f0 := h.sys.trace, h.sys.files;
    standing := config;
    LookedNothing(t0);
    LookingIsWhenStopped(t0, t0);
    if !Runnable(config, false, page) { return Err(InvalidConfiguration), standing; }
    if |config.kdamonds| != |h.states| { return Err(InvalidConfiguration), standing; }
    for i := 0 to |h.states|
      invariant forall j | 0 <= j < i :: h.states[j].Staged?
    {
      if !h.states[i].Staged? { return Err(KdamondRunning(i)), standing; }
    }
    if h.InOrder() { AllStagedIsIdle(h); }
    var previous := ReadStanding(h);
    StaysInOrder(h);
    if h.sys.exclusive { OwnsByDrift(h, f0); }
    LookingIsWhenStopped(t0, h.sys.trace);
    if previous.Err? { return Err(previous.error), standing; }
    LookedIsUncommanded(t0, h.sys.trace);
    UncommandedExtends(t0, h.sys.trace);
    ghost var t1 := h.sys.trace;
    NothingObsolete(config, page);
    if h.InStep() && h.sys.exclusive { StandingIsUnmarked(h, f0, previous.value); }
    r, standing := Swap(h, config, previous.value, t0);
    WhenStoppedTransitive(t0, t1, h.sys.trace);
    DisturbedIsInStep(h);
    if StagedWell(h.sys.trace, |t0|, false) { StagedWellEarlier(h.sys.trace, h.sys.trace, |t0|, |t1|, false); }
  }

  /** Stages the request, or else what was staged before it. */
  method Swap(h: ManagedHierarchy, config: DamonConfig, previous: DamonConfig, ghost t0: seq<Event>)
    returns (r: Result<()>, ghost standing: DamonConfig)
    requires h.Valid() && Uncommanded(t0, h.sys.trace) && ReadFirst(t0, h.sys.trace, previous) && |config.kdamonds| == |h.states| && h.AllStaged() && NothingMarkedIn(config)
    modifies h`staged, h.sys
    ensures h.Valid() && old(h.sys.trace) <= h.sys.trace
    ensures r.Ok? ==> OwnsStaged(h, t0, config) && h.InStep() && Owns(h)
    ensures r.Err? && !r.error.Rollback? ==> OwnsStaged(h, t0, standing) && ReadFirst(t0, h.sys.trace, standing) && Owns(h)
    ensures r.Err? && !r.error.Rollback? && NothingMarkedIn(previous) && |previous.kdamonds| == |h.states| ==> h.InStep()
    ensures r.Err? && r.error.Rollback? ==> h.staged == old(h.staged)
    ensures OnlyWhenStopped(old(h.sys.trace), h.sys.trace)
    ensures old(h.sys.Idle()) && StagedWell(h.sys.trace, |old(h.sys.trace)|, false) ==> r.Ok? && h.sys.Idle()
  {
    hide ManagedHierarchy.Valid, ManagedHierarchy.InStep, ManagedHierarchy.InOrder, Uncommanded, OwnsStaged,
         ReadFirst, NothingMarkedIn, StagedWell, Owns, OnlyWhenStopped, ReadWhileStopped;
    standing := config;
    ghost var t1 := h.sys.trace;
    r := Restage(h, config, t0);
    ghost var t2 := h.sys.trace;
    UncommandedExtends(t1, t2);
    if r.Ok? {
      RestagedInStep(h, t0, config);
      return;
    }
    standing := previous;
    var rollback := Restage(h, previous, t0);
    UncommandedExtends(t2, h.sys.trace);
    WhenStoppedTransitive(t1, t2, h.sys.trace);
    if StagedWell(h.sys.trace, |t1|, false) { StagedWellEarlier(h.sys.trace, t2, |t1|, |t1|, false); }
    ReadFirstExtends(t0, t1, h.sys.trace, standing);
    if rollback.Ok? { RestagedInStep(h, t0, standing); }
    r := Err(WithRollback(r.error, rollback));
  }

  lemma RestagedInStep(h: ManagedHierarchy, earlier: seq<Event>, config: DamonConfig)
    requires h.Valid() && OwnsStaged(h, earlier, config) && forall i | 0 <= i < |h.states| :: h.states[i].Staged?
    ensures NothingMarkedIn(config) && |config.kdamonds| == |h.states| ==> h.InStep()
    ensures Owns(h)
  {
    hide SysfsModel.Sysfs.Valid, StagedAs;
    StagedIsOwned(h, earlier, config);
    if |config.kdamonds| == |h.states| { StagedInStep(h, earlier, config); }
  }

  /** The configuration read from a hierarchy in step has no marked targets either. */
  lemma StandingIsUnmarked(h: ManagedHierarchy, earlier: Tree, standing: DamonConfig)
    requires h.Valid() && h.sys.exclusive && h.InStep() && Calm(h.sys.retuned, earlier, h.sys.files) && ReadFrom(h.sys, earlier, standing)
    ensures |standing.kdamonds| == |h.states| && NothingMarkedIn(standing)
  {
    var seen: Tree :| Calm(h.sys.retuned, earlier, seen) && h.sys.reader(seen) == Some(standing);
    CountIsStaged(h);
    CalmWidens(h.sys.retuned, h.sys.retuned, earlier, h.sys.files);
    CalmTransitive(h.sys.retuned, h.sys.files, earlier, seen);
    hide ManagedHierarchy.Valid, Calm, NothingMarkedIn, OwnedIn;
    assert h.sys.Valid() by { assert h.Valid(); }
    UnmarkedReading(h.sys, h.states, seen, standing);
  }

  lemma UnmarkedReading(sys: Sysfs, states: seq<SessionState>, seen: Tree, standing: DamonConfig)
    requires sys.Valid() && Calm(sys.retuned, sys.files, seen) && sys.reader(seen) == Some(standing)
    requires CountOf(sys.schema, sys.files, sys.schema.top) == |states|
    requires InStepIn(sys.schema, sys.retuned, sys.targets, states, sys.active, sys.files)
    ensures |standing.kdamonds| == |states| && NothingMarkedIn(standing)
  {
    var K, targets, reader := sys.schema, sys.targets, sys.reader;
    assert NoTargets(K, sys.retuned) && ReadersLawful(K, reader, targets) && IsReconstructionCount(K.top);
    forall k | k in standing.kdamonds ensures !HasObsolete(k) {
      var i: nat :| i < |standing.kdamonds| && standing.kdamonds[i] == k;
      hide SysfsModel.Sysfs.Valid, ReadersLawful, NoTargets, Calm;
      CleanByDrift(K, sys.retuned, targets, sys.files, seen, i);
      ReadTargets(K, reader, targets, seen, i);
      UnmarkedIsClean(k);
    }
  }

  lemma DisturbedIsInStep(h: ManagedHierarchy)
    ensures !h.sys.exclusive ==> h.InStep()
  {
  }

  lemma UnmarkedIsClean(k: KdamondConfig)
    ensures Unmarked(TargetsOf(k)) ==> !HasObsolete(k)
  {
    forall c, t | c in k.contexts && t in c.targets && Unmarked(TargetsOf(k)) ensures !t.obsolete {
      var i :| 0 <= i < |k.contexts| && k.contexts[i] == c;
      assert TargetsOf(k)[i] in TargetsOf(k);
    }
  }

  /** One staging of a stopped hierarchy; ownership moves only when it succeeds. */
  method Restage(h: ManagedHierarchy, config: DamonConfig, ghost since: seq<Event>) returns (r: Result<()>)
    requires h.Valid() && Uncommanded(since, h.sys.trace)
    modifies h`staged, h.sys
    ensures h.Valid() && Uncommanded(since, h.sys.trace) && Uncommanded(old(h.sys.trace), h.sys.trace)
    ensures r.Ok? ==> OwnsStaged(h, since, config)
    ensures old(h.sys.Idle()) ==> h.sys.Idle() && (StagedWell(h.sys.trace, |old(h.sys.trace)|, false) ==> r.Ok?)
    ensures OnlyWhenStopped(old(h.sys.trace), h.sys.trace) && (r.Ok? ==> ReadWhileStopped(old(h.sys.trace), h.sys.trace))
    ensures r.Err? ==> h.staged == old(h.staged) && !r.error.Rollback?
  {
    hide SysfsModel.Sysfs.Valid, Looked, Uncommanded, StagedAs, Sorted, Values, Consistent, RunInvariant,
         VolatilePaths, StagedWell, OnlyWhenStopped, ReadWhileStopped;
    ghost var t1 := h.sys.trace;
    var current := StageAndVerify(h.sys, config);
    UncommandedTransitive(since, t1, h.sys.trace);
    RestoringKeepsInvariant(h.states, t1, h.sys.trace);
    if current.Err? { return Err(current.error); }
    StagedEarlier(h.sys, since, t1, config, current.value);
    StagedIsSorted(h.sys, since, config, current.value);
    VolatileIsPlain(h.sys.schema, config);
    h.staged := Ownership(h.sys.schema, current.value, config);
    r := Ok(());
  }

  method ReadStanding(h: ManagedHierarchy) returns (r: Result<DamonConfig>)
    requires h.Valid()
    modifies h.sys
    ensures h.Valid() && h.sys.Still() && Looked(old(h.sys.trace), h.sys.trace)
    ensures r.Ok? ==> ReadFirst(old(h.sys.trace), h.sys.trace, r.value)
    ensures r.Ok? && h.sys.exclusive ==>
              ReadFrom(h.sys, old(h.sys.files), r.value) && CountOf(h.sys.schema, old(h.sys.files), h.sys.schema.top) == h.staged.count
    ensures old(h.InOrder() && h.sys.Idle()) && h.sys.reader(old(h.sys.files)).Some? ==> r.Ok?
    ensures r.Err? ==> !r.error.Rollback?
  {
    hide SysfsModel.Sysfs.Valid, IsCapture, Looked, ReadFirst, Sorted, Values, Consistent, RunInvariant, Agrees,
         ManagedHierarchy.InStep, AllFit;
    ghost var t0, f0 := h.sys.trace, h.sys.files;
    var checked := h.VerifyStaged();
    StagedLook(t0, h.sys.trace);
    if checked.Err? { return Err(checked.error); }
    label verified:
    ghost var t1 := h.sys.trace;
    checked := RetryStopped(h.sys);
    LookedTransitive(t0, t1, h.sys.trace);
    LookingKeepsInvariant(h.states, t1, h.sys.trace);
    if checked.Err? { return Err(checked.error); }
    ghost var t2 := h.sys.trace;
    var read, seen := RetryConfiguration(h.sys);
    if h.sys.exclusive && read.Ok? {
      assert Calm(h.sys.retuned, f0, seen);
      assert ReadFrom(h.sys, f0, read.value);
    }
    LookedTransitive(t0, t2, h.sys.trace);
    LookingKeepsInvariant(h.states, t2, h.sys.trace);
    LookedExtends(t0, t2);
    if read.Err? { return Err(read.error); }
    ghost var t3 := h.sys.trace;
    StaysInOrder@verified(h);
    checked := h.VerifyStaged();
    StagedLook(t3, h.sys.trace);
    LookedTransitive(t0, t3, h.sys.trace);
    if checked.Err? { return Err(checked.error); }
    LookedIsUncommanded(t3, h.sys.trace);
    UncommandedExtends(t3, h.sys.trace);
    ReadNowFirst(t0, t3, h.sys.trace, read.value);
    r := Ok(read.value);
  }

  // ---------- capability probing ----------

  /** Stages one representative kdamond and whatever children discovery needs below it, and
      captures what that left under the kdamond. */
  method StageProbe(sys: Sysfs) returns (r: Result<seq<Entry>>, ghost staging: Result<()>, ghost probe: Tree)
    requires sys.Valid()
    modifies sys
    ensures sys.Valid() && Uncommanded(old(sys.trace), sys.trace)
    ensures OnlyWhenStopped(old(sys.trace), sys.trace)
    ensures old(sys.Idle()) ==> sys.Idle()
    ensures old(sys.Idle()) && staging.Ok? ==> r.Ok? && sys.files == probe && Agrees(r.value, {}, probe)
    ensures r.Err? ==> !r.error.Rollback?
  {
    hide SysfsModel.Sysfs.Valid, Looked, Uncommanded, Sorted, Values, Consistent, OnlyWhenStopped, EndsStopped,
         WritesOnly;
    ghost var t0 := sys.trace;
    staging, probe := Err(Io), map[];
    var stopped := RetryStopped(sys);
    LookedIsUncommanded(t0, sys.trace);
    LookingIsWhenStopped(t0, sys.trace);
    if stopped.Err? { return Err(stopped.error), staging, probe; }
    ghost var t1 := sys.trace;
    var staged := StageAny(sys);
    UncommandedTransitive(t0, t1, sys.trace);
    EndThenWritten(t0, t1, sys.trace);
    staging, probe := staged, sys.files;
    if staged.Err? { return Err(staged.error), staging, probe; }
    ghost var t2 := sys.trace;
    var captured := RetryCapture(sys);
    LookedIsUncommanded(t2, sys.trace);
    LookingIsWhenStopped(t2, sys.trace);
    WhenStoppedTransitive(t0, t2, sys.trace);
    UncommandedTransitive(t0, t2, sys.trace);
    if captured.Ok? && Values(captured.value) == probe { BelowAgrees(captured.value, KdamondDir(sys.schema, 0), probe); }
    r := if captured.Err? then Err(captured.error) else Ok(Below(captured.value, KdamondDir(sys.schema, 0)));
  }

  lemma BelowAgrees(entries: seq<Entry>, root: Path, t: Tree)
    requires Sorted(entries) && Values(entries) == t
    ensures Agrees(Below(entries, root), {}, t)
  {
    BelowMembers(entries, root);
    forall e | e in entries ensures e.path in t && t[e.path] == e.value { assert e.path in Values(entries); }
  }

  /** Restores the preceding hierarchy, provided the probe is still there and not running. */
  method RestoreAfterProbe(sys: Sysfs, fingerprint: seq<Entry>, previous: seq<Entry>) returns (r: Result<()>)
    requires sys.Valid() && IsCapture(sys.schema, previous)
    modifies sys
    ensures sys.Valid() && Uncommanded(old(sys.trace), sys.trace)
    ensures r.Ok? ==> Restored(sys, previous)
    ensures OnlyWhenStopped(old(sys.trace), sys.trace)
    ensures old(sys.Idle()) && CountOf(sys.schema, old(sys.files), sys.schema.top) == 1 && Agrees(fingerprint, {}, old(sys.files)) ==> r.Ok? && sys.Idle()
    ensures r.Err? ==> !r.error.Rollback?
  {
    hide SysfsModel.Sysfs.Valid, Looked, Uncommanded, Sorted, Values, Consistent, Restored, Agrees, OnlyWhenStopped;
    ghost var t0 := sys.trace;
    if sys.Idle() { EveryThreadOff(sys); }
    var count := sys.ReadCount();
    LookedNothing(t0);
    LookedStep(t0, t0, CountRead(count));
    LookedIsUncommanded(t0, sys.trace);
    LookingIsWhenStopped(t0, sys.trace);
    if count.Err? { return Err(count.error); }
    if count.value != 1 { return Err(OwnershipLost(ValuesChanged)); }
    var intact := MatchesCurrentExcept(sys, fingerprint, {});
    if intact.Err? { return Err(intact.error); }
    if !intact.value { return Err(OwnershipLost(ValuesChanged)); }
    ghost var t1 := sys.trace;
    var state := RetryState(sys, 0);
    StateReadsLook(t1, sys.trace, 0, state);
    LookedIsUncommanded(t1, sys.trace);
    LookingIsWhenStopped(t1, sys.trace);
    WhenStoppedTransitive(t0, t1, sys.trace);
    UncommandedTransitive(t0, t1, sys.trace);
    if state.Err? { return Err(state.error); }
    if state.value != Off { return Err(OwnershipLost(StateChanged)); }
    ghost var t2 := sys.trace;
    r := RestoreConfiguration(sys, previous);
    UncommandedTransitive(t0, t2, sys.trace);
    WhenStoppedTransitive(t0, t2, sys.trace);
  }

  /** Discovers capabilities by staging a probe. Ok means the hierarchy captured first is
      staged again; so does every failure of the probe itself, unless its rollback failed
      too. A restoration that fails after a successful probe is reported as it is. On an idle
      kernel a probe that was staged, with its one kdamond, is all it takes. */
  method Capabilities(sys: Sysfs)
    returns (r: Result<()>, ghost previous: seq<Entry>, ghost probed: bool, ghost staging: Result<()>, ghost probe: Tree)
    requires sys.Valid()
    modifies sys
    ensures sys.Valid() && Uncommanded(old(sys.trace), sys.trace)
    ensures r.Ok? || (r.Err? && !r.error.Rollback? && !probed) ==>
              || (r.Err? && Looked(old(sys.trace), sys.trace))
              || (Sorted(previous) && CapturedFirst(old(sys.trace), sys.trace, previous) && Restored(sys, previous))
    ensures (r.Ok? || (!r.error.Rollback? && !probed)) && sys.exclusive ==> Calm(sys.retuned, old(sys.files), sys.files)
    ensures OnlyWhenStopped(old(sys.trace), sys.trace)
    ensures probed && r.Err? ==> !r.error.Rollback?
    ensures old(sys.Idle()) && staging.Ok? && CountOf(sys.schema, probe, sys.schema.top) == 1 ==> r.Ok?
  {
    hide SysfsModel.Sysfs.Valid, Looked, Uncommanded, Sorted, Values, Consistent, EndsCapturing, CapturedFirst,
         Agrees, OnlyWhenStopped;
    ghost var t0, f0 := sys.trace, sys.files;
    previous, probed, staging, probe := [], false, Err(Io), map[];
    var captured := CaptureForProbe(sys);
    LookedIsUncommanded(t0, sys.trace);
    LookingIsWhenStopped(t0, sys.trace);
    if captured.Err? { return Err(captured.error), previous, probed, staging, probe; }
    previous := captured.value;
    ghost var t1 := sys.trace;
    var fingerprint, staging', probe' := StageProbe(sys);
    staging, probe := staging', probe';
    UncommandedTransitive(t0, t1, sys.trace);
    WhenStoppedTransitive(t0, t1, sys.trace);
    ghost var t2 := sys.trace;
    if fingerprint.Ok? {
      probed := true;
      r := RestoreAfterProbe(sys, fingerprint.value, captured.value);
    } else {
      var restored := RestoreConfiguration(sys, captured.value);
      r := Err(WithRollback(fingerprint.error, restored));
    }
    UncommandedExtends(t1, t2);
    UncommandedExtends(t2, sys.trace);
    CapturedFirstExtends(t0, t1, sys.trace, previous);
    UncommandedTransitive(t0, t2, sys.trace);
    WhenStoppedTransitive(t0, t2, sys.trace);
    if (r.Ok? || (!r.error.Rollback? && !probed)) && sys.exclusive { CalmTransitive(sys.retuned, f0, Values(previous), sys.files); }
  }

  method CaptureForProbe(sys: Sysfs) returns (r: Result<seq<Entry>>)
    requires sys.Valid()
    modifies sys
    ensures sys.Valid() && Looked(old(sys.trace), sys.trace)
    ensures sys.exclusive ==> Calm(sys.retuned, old(sys.files), sys.files)
    ensures r.Ok? ==> IsCapture(sys.schema, r.value) && CapturedFirst(old(sys.trace), sys.trace, r.value)
    ensures r.Ok? && sys.exclusive ==> Calm(sys.retuned, old(sys.files), Values(r.value))
    ensures old(sys.Idle()) ==> r.Ok? && sys.Idle()
    ensures r.Err? ==> !r.error.Rollback?
  {
    hide SysfsModel.Sysfs.Valid, Looked, Sorted, Values, Consistent, CapturedFirst, Agrees;
    ghost var t0 := sys.trace;
    var stopped := RetryStopped(sys);
    if stopped.Err? { return Err(stopped.error); }
    ghost var t1 := sys.trace;
    r := RetryCapture(sys);
    LookedTransitive(t0, t1, sys.trace);
    if r.Err? { return; }
    LookedExtends(t0, t1);
    CapturedNowFirst(t0, sys.trace, r.value);
    if sys.Idle() { CaptureAgreesNow(sys, r.value); }
    var matches := RetryMatchesExcept(sys, r.value, {});
    if matches.Err? { return Err(matches.error); }
    if !matches.value { return Err(OwnershipLost(ValuesChanged)); }
  }
}
