/** A cooperatively owned hierarchy of kdamonds: starting, stopping and checking
    that what was staged and started is still there. */
module Hierarchy {
  import opened Outcomes
  import opened Paths
  import opened KernelTree
  import opened Restoration
  import opened Config
  import opened TuningGoals
  import opened TargetLeaves
  import opened SysfsModel
  import opened RunningState
  import opened Traces
  import opened Snapshots
  import opened Retries

  datatype SessionState = Staged | Running(pid: nat) | UnidentifiedRunning {
    /** The pid a stop may rely on. */
    function OwnedPid(): Option<nat> {
      if Running? then Some(pid) else None
    }
  }

  /** What the session staged, the leaves the kernel retunes meanwhile, and how many kdamonds there are. */
  datatype StagedOwnership = StagedOwnership(entries: seq<Entry>, volatile: set<Path>, count: nat)

  /** A capture of some well-formed hierarchy. */
  ghost predicate IsCapture(K: Schema, entries: seq<Entry>) {
    Sorted(entries) && Consistent(K, Values(entries))
  }

  /** The invariants of every run: each `off` and each commit ever sent was justified, and
      a kdamond the session regards as merely staged is not one it left running. */
  ghost predicate RunInvariant(states: seq<SessionState>, trace: seq<Event>) {
    SafeStops(trace) && SafeCommits(trace) && forall i | 0 <= i < |states| && states[i].Staged? :: !PendingOn(trace, i)
  }

  /** No staged target is marked obsolete, and every identified kdamond runs what is staged for it. */
  ghost predicate InStepIn(K: Schema, loose: set<Path>, targets: TargetReader, states: seq<SessionState>, active: map<nat, Tree>, t: Tree) {
    forall i: nat | i < |states| :: Clean(K, targets, t, i) && (states[i].Running? ==> InStepAt(K, loose, targets, active, t, i))
  }

  /** What the session owns is what `t` stages: the captured values, the leaves that tuning
      makes volatile, and the number of kdamonds. */
  ghost predicate OwnedIn(K: Schema, loose: set<Path>, staged: StagedOwnership, t: Tree) {
    IsCapture(K, staged.entries) && Agrees(staged.entries, staged.volatile + loose, t) && TunedAs(K, t, staged.volatile, staged.count)
  }

  lemma OwnedByDrift(K: Schema, loose: set<Path>, staged: StagedOwnership, t: Tree, u: Tree)
    requires K.Lawful() && OnlyIntervals(loose) && OwnedIn(K, loose, staged, t) && Calm(loose, t, u)
    ensures OwnedIn(K, loose, staged, u)
  {
    CalmIsSameTuning(K, loose, t, u);
    hide Schema.Lawful, Calm, Agrees, TunedAs;
    AgreesByDrift(staged.entries, staged.volatile + loose, loose, t, u);
    TunedAsKept(K, t, u, staged.volatile, staged.count);
  }

  /** `later` extends `earlier` without commands. */
  ghost predicate Commandless(earlier: seq<Event>, later: seq<Event>) {
    earlier <= later && forall k | |earlier| <= k < |later| :: !later[k].Commanded?
  }

  lemma CommandlessKeepsInvariant(states: seq<SessionState>, earlier: seq<Event>, later: seq<Event>)
    requires RunInvariant(states, earlier) && Commandless(earlier, later)
    ensures RunInvariant(states, later)
  {
    SafeWithoutOff(earlier, later);
    SafeWithoutCommit(earlier, later);
    forall i | 0 <= i < |states| && states[i].Staged? ensures !PendingOn(later, i) {
      StaysSettled(earlier, later, i);
    }
  }

  lemma LookingKeepsInvariant(states: seq<SessionState>, earlier: seq<Event>, later: seq<Event>)
    requires RunInvariant(states, earlier) && Looked(earlier, later)
    ensures RunInvariant(states, later)
  {
    hide RunInvariant;
    assert forall k | |earlier| <= k < |later| :: later[k].Passive();
    CommandlessKeepsInvariant(states, earlier, later);
  }

  lemma AccessKeepsInvariant(states: seq<SessionState>, t: seq<Event>, e: Event)
    requires RunInvariant(states, t) && !e.Commanded?
    ensures RunInvariant(states, t + [e])
  {
    hide RunInvariant;
    CommandlessKeepsInvariant(states, t, t + [e]);
  }

  /** A thread in the state the session left it. */
  predicate Fits(state: SessionState, thread: Thread) {
    match state
    case Staged => thread.state == Off
    case Running(pid) => thread == Thread(On, Some(pid))
    case UnidentifiedRunning => false
  }

  predicate AllFit(states: seq<SessionState>, threads: map<nat, Thread>) {
    forall i | 0 <= i < |states| :: i in threads && Fits(states[i], threads[i])
  }

  lemma FitsAfter(states: seq<SessionState>, before: map<nat, Thread>, after: map<nat, Thread>, i: nat, state: SessionState)
    requires AllFit(states, before) && i < |states| && i in after && Fits(state, after[i]) && after == before[i := after[i]]
    ensures AllFit(states[i := state], after)
  {
  }

  lemma TurnedOn(before: map<nat, Thread>, after: map<nat, Thread>, i: nat)
    requires Obeyed(before, after, i, TurnOn)
    ensures i in after && after[i].state == On && after[i].pid.Some? && after == before[i := after[i]]
  {
  }

  lemma TurnedOff(before: map<nat, Thread>, after: map<nat, Thread>, i: nat)
    requires Obeyed(before, after, i, TurnOff)
    ensures i in after && after[i].state == Off && after == before[i := after[i]]
  {
  }

  lemma FitsAt(states: seq<SessionState>, threads: map<nat, Thread>, i: nat)
    requires AllFit(states, threads) && i < |states|
    ensures i in threads && Fits(states[i], threads[i])
  {
  }

  class ManagedHierarchy {
    const sys: Sysfs
    var previous: Option<seq<Entry>>
    var staged: StagedOwnership
    var states: seq<SessionState>
    var ownsHierarchy: bool

    ghost predicate Valid()
      reads this, sys
    {
      && sys.Valid() && Sorted(staged.entries) && NoCounts(staged.volatile) && NoTargets(sys.schema, staged.volatile)
      && RunInvariant(states, sys.trace)
      && (previous.Some? ==> IsCapture(sys.schema, previous.value))
    }

    /** Takes over a hierarchy that was just staged; no kdamond has been turned on. */
    constructor (sys: Sysfs, previous: seq<Entry>, staged: StagedOwnership)
      requires sys.Valid() && Sorted(staged.entries) && NoCounts(staged.volatile) && NoTargets(sys.schema, staged.volatile) && SafeStops(sys.trace) && SafeCommits(sys.trace)
      requires IsCapture(sys.schema, previous)
      requires forall i | 0 <= i < staged.count :: !PendingOn(sys.trace, i)
      ensures Valid() && this.sys == sys && this.staged == staged && this.previous == Some(previous) && ownsHierarchy
      ensures |states| == staged.count && forall i | 0 <= i < |states| :: states[i].Staged?
    {
      this.sys := sys;
      this.previous := Some(previous);
      this.staged := staged;
      this.states := seq(staged.count, _ => Staged);
      this.ownsHierarchy := true;
    }

    /** Takes over a hierarchy another process left running, on the word of its receipt. */
    constructor Attach(sys: Sysfs, staged: StagedOwnership, states: seq<SessionState>)
      requires sys.Valid() && Sorted(staged.entries) && NoCounts(staged.volatile) && NoTargets(sys.schema, staged.volatile)
      requires RunInvariant(states, sys.trace)
      ensures Valid() && this.sys == sys && this.staged == staged && this.previous == None && ownsHierarchy && this.states == states
    {
      this.sys := sys;
      this.previous := None;
      this.staged := staged;
      this.states := states;
      this.ownsHierarchy := true;
    }

    /** Undisturbed, the kernel holds what this session owns and runs what it stages. */
    ghost predicate InStep()
      reads this, sys
    {
      sys.exclusive ==>
        && staged.count == |states| && OwnedIn(sys.schema, sys.retuned, staged, sys.files)
        && InStepIn(sys.schema, sys.retuned, sys.targets, states, sys.active, sys.files)
    }

    /** Nobody but this session acts, nothing fails of itself, nothing is retuned but what the
        session leaves to the kernel, and every kdamond is in the state the session left it. */
    ghost predicate Alive()
      reads this, sys
    {
      sys.exclusive && sys.steady && sys.retuned <= staged.volatile && AllFit(states, sys.threads)
    }

    /** Everything is as this session left it. */
    ghost predicate InOrder()
      reads this, sys
    {
      Alive() && InStep()
    }

    /** Every check of owned values succeeds. */
    ghost predicate Intact()
      reads this, sys
    {
      && sys.exclusive && sys.steady && sys.retuned <= staged.volatile
      && CountOf(sys.schema, sys.files, sys.schema.top) == staged.count == |states|
      && Agrees(staged.entries, staged.volatile, sys.files)
    }

    // ---------- ownership checks ----------

    method VerifyCount() returns (r: Result<()>)
      requires Valid()
      modifies sys
      ensures Valid() && sys.Still()
      ensures exists c :: sys.trace == old(sys.trace) + [CountRead(c)] && (r.Ok? <==> c == Ok(staged.count))
      ensures r.Ok? ==> CountOf(sys.schema, old(sys.files), sys.schema.top) == staged.count
      ensures sys.steady && CountOf(sys.schema, old(sys.files), sys.schema.top) == staged.count ==> r.Ok?
      ensures old(InStep()) ==> InStep()
      ensures old(InOrder()) ==> r.Ok? && InOrder()
      ensures r.Err? ==> r.error.IsAccessFailure() || r.error == OwnershipLost(CountChanged)
    {
      hide SysfsModel.Sysfs.Valid, IsCapture, InStepIn, OwnedIn, Calm, AllFit;
      if InOrder() { InOrderIsIntact(this); }
      var count := sys.ReadCount();
      LookedNothing(old(sys.trace));
      LookedStep(old(sys.trace), old(sys.trace), CountRead(count));
      LookingKeepsInvariant(states, old(sys.trace), sys.trace);
      InStepLater(this, states, old(sys.files));
      r := if count.Err? then Err(count.error)
           else if count.value != staged.count then Err(OwnershipLost(CountChanged))
           else Ok(());
    }

    /** The staged count and every captured value the kernel does not retune are unchanged. */
    method VerifyStaged() returns (r: Result<()>)
      requires Valid()
      modifies sys
      ensures Valid() && sys.Still()
      ensures exists c :: sys.trace == old(sys.trace) + [CountRead(c)] && (r.Ok? ==> c == Ok(staged.count))
      ensures r.Ok? ==> CountOf(sys.schema, old(sys.files), sys.schema.top) == staged.count
      ensures r.Ok? && sys.exclusive ==> Agrees(staged.entries, staged.volatile + sys.retuned, sys.files)
      ensures old(Intact()) ==> r.Ok? && Intact()
      ensures old(InStep()) ==> InStep()
      ensures old(InOrder()) ==> r.Ok? && InOrder()
      ensures r.Err? ==> r.error.IsAccessFailure() || r.error.OwnershipLost?
    {
      hide SysfsModel.Sysfs.Valid, IsCapture, RunInvariant, Sorted, InStepIn, OwnedIn, Agrees, AllFit;
      if InOrder() { InOrderIsIntact(this); }
      ghost var f0 := sys.files;
      r := VerifyCount();
      if r.Err? { return; }
      var matches := MatchesCurrentExcept(sys, staged.entries, staged.volatile);
      IntactLater(this, f0);
      InStepLater(this, states, f0);
      r := if matches.Err? then Err(matches.error)
           else if !matches.value then Err(OwnershipLost(ValuesChanged))
           else Ok(());
    }

    method VerifyKdamondConfiguration(i: nat) returns (r: Result<()>)
      requires Valid()
      modifies sys
      ensures Valid() && sys.Still()
      ensures exists intact :: sys.trace == old(sys.trace) + [ConfigurationChecked(i, intact)] && (r.Ok? <==> intact == Ok(true))
      ensures r.Ok? && sys.exclusive ==> Agrees(Below(staged.entries, KdamondDir(sys.schema, i)), staged.volatile + sys.retuned, sys.files)
      ensures r.Err? && sys.exclusive && sys.retuned <= staged.volatile && Agrees(Below(staged.entries, KdamondDir(sys.schema, i)), staged.volatile, sys.files) ==>
                r.error.IsAccessFailure()
      ensures old(InStep()) ==> InStep()
      ensures old(InOrder()) ==> r.Ok? && InOrder()
      ensures old(Intact()) ==> r.Ok? && Intact()
      ensures r.Err? ==> r.error.IsAccessFailure() || r.error == OwnershipLost(ValuesChanged)
    {
      hide SysfsModel.Sysfs.Valid, IsCapture, Sorted, RunInvariant, Agrees, InStepIn, OwnedIn, Calm, AllFit;
      if InOrder() { InOrderIsIntact(this); }
      ghost var f0 := sys.files;
      var intact := MatchesUnderExcept(sys, staged.entries, KdamondDir(sys.schema, i), staged.volatile);
      IntactLater(this, f0);
      InStepLater(this, states, f0);
      if Intact() { IntactBelow(this, i); }
      Note(ConfigurationChecked(i, intact));
      r := if intact.Err? then Err(intact.error)
           else if !intact.value then Err(OwnershipLost(ValuesChanged))
           else Ok(());
    }

    /** Records a passive fact in the history. */
    ghost method Note(e: Event)
      requires Valid() && e.Passive()
      modifies sys`trace
      ensures Valid() && sys.trace == old(sys.trace) + [e]
    {
      LookedNothing(sys.trace);
      LookedStep(sys.trace, sys.trace, e);
      LookingKeepsInvariant(states, sys.trace, sys.trace + [e]);
      sys.trace := sys.trace + [e];
    }

    /** Records how a staging ended. */
    ghost method NoteStaging(request: DamonConfig, observed: Option<DamonConfig>, outcome: Result<()>)
      requires Valid()
      modifies sys`trace
      ensures Valid() && sys.trace == old(sys.trace) + [StagingDone(request, observed, outcome)]
    {
      hide RunInvariant;
      AccessKeepsInvariant(states, sys.trace, StagingDone(request, observed, outcome));
      sys.NoteStaging(request, observed, outcome);
    }

    /** Marks the beginning of a stop, with the pid it may rely on. */
    ghost method NoteStop(i: nat)
      requires Valid() && i < |states|
      modifies sys`trace
      ensures Valid() && sys.trace == old(sys.trace) + [StopBegan(i, states[i].OwnedPid())]
    {
      hide RunInvariant;
      AccessKeepsInvariant(states, sys.trace, StopBegan(i, states[i].OwnedPid()));
      sys.trace := sys.trace + [StopBegan(i, states[i].OwnedPid())];
    }

    /** Marks the beginning of a commit, with the pid it may rely on. */
    ghost method NoteCommit(i: nat)
      requires Valid()
      modifies sys`trace
      ensures Valid() && sys.trace == old(sys.trace) + [CommitBegan(i, OwnedPidOf(i))]
    {
      hide RunInvariant;
      AccessKeepsInvariant(states, sys.trace, CommitBegan(i, OwnedPidOf(i)));
      sys.trace := sys.trace + [CommitBegan(i, OwnedPidOf(i))];
    }

    function OwnedPidOf(i: nat): Option<nat>
      reads this
    {
      if i < |states| then states[i].OwnedPid() else None
    }

    // ---------- identity checks ----------

    /** The pid of a kdamond that is on: `running_thread_pid`. */
    method RunningThreadPid(i: nat) returns (r: Result<nat>)
      requires Valid()
      modifies sys
      ensures Valid() && sys.Still() && Looked(old(sys.trace), sys.trace)
      ensures r.Ok? ==>
                && |old(sys.trace)| < |sys.trace| && sys.trace[|sys.trace| - 1] == PidRead(i, Ok(Some(r.value)))
                && SeenAs(sys.trace, |old(sys.trace)|, i, Some(r.value), true)
      ensures sys.steady && i in sys.threads && sys.threads[i].state == On && sys.threads[i].pid.Some? ==> r == Ok(sys.threads[i].pid.value)
      ensures r.Err? ==> !r.error.Rollback? && r.error.ClearsValues()
    {
      hide SysfsModel.Sysfs.Valid, IsCapture, RunInvariant, Sorted, SeenAs;
      var state := RetryState(sys, i);
      StateReadsLook(old(sys.trace), sys.trace, i, state);
      LookingKeepsInvariant(states, old(sys.trace), sys.trace);
      if state.Err? { return Err(state.error); }
      if state.value == Off { return Err(NotRunning); }
      if state.value == Unknown { return Err(UnexpectedKdamondState); }
      ghost var before := sys.trace;
      var pid := RetryPid(sys, i);
      PidReadsLook(before, sys.trace, i, pid);
      LookedTransitive(old(sys.trace), before, sys.trace);
      LookingKeepsInvariant(states, old(sys.trace), sys.trace);
      if pid.Err? { return Err(pid.error); }
      if pid.value.None? { return Err(OwnershipLost(IdentityChanged)); }
      OnThenPid(old(sys.trace), before, sys.trace, i, pid.value.value);
      r := Ok(pid.value.value);
    }

    function ExpectedRunningPid(i: nat): (r: Result<nat>)
      reads this
      ensures r.Ok? ==> i < |states| && states[i] == Running(r.value)
      ensures r.Err? ==> !r.error.Rollback? && r.error.ClearsValues()
    {
      if i >= |states| then Err(IndexOutOfBounds)
      else
        match states[i]
        case Running(pid) => Ok(pid)
        case Staged => Err(NotRunning)
        case UnidentifiedRunning => Err(OwnershipLost(Unidentified))
    }

    method VerifyRunningIdentityWithoutCount(i: nat) returns (r: Result<()>)
      requires Valid()
      modifies sys
      ensures Valid() && sys.Still() && Looked(old(sys.trace), sys.trace)
      ensures r.Ok? ==> OwnedPidOf(i).Some? && ReadsOfPid(old(sys.trace), sys.trace, i, Ok(OwnedPidOf(i)))
      ensures Alive() && OwnedPidOf(i).Some? ==> r.Ok?
      ensures r.Err? ==> !r.error.Rollback? && r.error.ClearsValues()
    {
      hide SysfsModel.Sysfs.Valid, IsCapture, RunInvariant, Sorted;
      LookedNothing(sys.trace);
      var expected := ExpectedRunningPid(i);
      if expected.Err? { return Err(expected.error); }
      var current := RetryPid(sys, i);
      PidReadsLook(old(sys.trace), sys.trace, i, current);
      LookingKeepsInvariant(states, old(sys.trace), sys.trace);
      r := if current.Err? then Err(current.error)
           else if current.value.None? then Err(NotRunning)
           else if current.value.value != expected.value then Err(OwnershipLost(IdentityChanged))
           else Ok(());
    }

    /** The kdamond count, and then the pid of one running kdamond, are what they were. */
    method VerifyRunningIdentityOnly(i: nat) returns (r: Result<()>)
      requires Valid()
      modifies sys
      ensures Valid() && sys.Still() && Looked(old(sys.trace), sys.trace)
      ensures r.Ok? ==> OwnedPidOf(i).Some? && ReadsOfPid(old(sys.trace) + [CountRead(Ok(|states|))], sys.trace, i, Ok(OwnedPidOf(i)))
      ensures Alive() && OwnedPidOf(i).Some? && CountOf(sys.schema, old(sys.files), sys.schema.top) == |states| ==> r.Ok?
      ensures r.Err? ==> !r.error.Rollback? && r.error.ClearsValues()
    {
      hide SysfsModel.Sysfs.Valid, IsCapture, RunInvariant, Sorted;
      LookedNothing(sys.trace);
      if i >= |states| { return Err(IndexOutOfBounds); }
      var count := ReadCountLooking();
      if count.Err? { return Err(count.error); }
      if count.value != |states| { return Err(OwnershipLost(CountChanged)); }
      ghost var before := sys.trace;
      r := VerifyRunningIdentityWithoutCount(i);
      LookedTransitive(old(sys.trace), before, sys.trace);
    }

    method ReadCountLooking() returns (r: Result<nat>)
      requires Valid()
      modifies sys
      ensures Valid() && sys.Still() && Looked(old(sys.trace), sys.trace) && sys.trace == old(sys.trace) + [CountRead(r)]
      ensures r.Ok? ==> r.value == CountOf(sys.schema, old(sys.files), sys.schema.top)
      ensures r.Err? ==> r.error.IsAccessFailure() && !sys.steady
    {
      hide SysfsModel.Sysfs.Valid, IsCapture, RunInvariant, Sorted;
      r := sys.ReadCount();
      LookedNothing(old(sys.trace));
      LookedStep(old(sys.trace), old(sys.trace), CountRead(r));
      LookingKeepsInvariant(states, old(sys.trace), sys.trace);
    }

    /** A merely staged kdamond must be off. */
    method VerifyStillOff(i: nat) returns (r: Result<()>)
      requires Valid()
      modifies sys
      ensures Valid() && sys.Still() && Looked(old(sys.trace), sys.trace)
      ensures r.Ok? ==> ReadsOfState(old(sys.trace), sys.trace, i, Ok(Off))
      ensures sys.steady && i in sys.threads && sys.threads[i].state == Off ==> r.Ok?
      ensures r.Err? ==> !r.error.Rollback? && r.error.ClearsValues()
    {
      hide SysfsModel.Sysfs.Valid, IsCapture, RunInvariant, Sorted;
      var state := RetryState(sys, i);
      StateReadsLook(old(sys.trace), sys.trace, i, state);
      LookingKeepsInvariant(states, old(sys.trace), sys.trace);
      r := if state.Err? then Err(state.error)
           else if state.value == On then Err(OwnershipLost(StateChanged))
           else if state.value == Unknown then Err(UnexpectedKdamondState)
           else Ok(());
    }

    /** The complete check: staged values, and each kdamond in the state the session left it in. */
    method VerifyOwnedState() returns (r: Result<()>)
      requires Valid()
      modifies sys
      ensures Valid() && sys.Still() && Looked(old(sys.trace), sys.trace)
      ensures ownsHierarchy && Alive() && old(Intact()) ==> r.Ok?
      ensures r.Err? ==> !r.error.Rollback?
      ensures r.Ok? ==> ownsHierarchy && AllSeen(|old(sys.trace)|, true) && |old(sys.trace)| < |sys.trace|
                        && sys.trace[|old(sys.trace)|] == CountRead(Ok(staged.count))
      ensures r.Ok? && sys.exclusive ==> Agrees(staged.entries, staged.volatile + sys.retuned, sys.files)
    {
      hide SysfsModel.Sysfs.Valid, IsCapture, RunInvariant, Sorted, Agrees, SeenAs, Looked;
      LookedNothing(sys.trace);
      if !ownsHierarchy { return Err(NotRunning); }
      r := VerifyStaged();
      StagedLook(old(sys.trace), sys.trace);
      if r.Err? { return; }
      ghost var t, counted := sys.files, sys.trace;
      r := VerifyIdentities(true, old(sys.trace));
      LookedExtends(counted, sys.trace);
      if sys.exclusive && r.Ok? { AgreesByDrift(staged.entries, staged.volatile + sys.retuned, sys.retuned, t, sys.files); }
    }

    /** Every kdamond is identified, and was seen since `from` as the session left it. */
    ghost predicate AllSeen(from: nat, withState: bool)
      reads this, sys
    {
      forall i: nat | i < |states| :: !states[i].UnidentifiedRunning? && SeenAs(sys.trace, from, i, states[i].OwnedPid(), withState)
    }

    /** Identities alone: used while this session is itself changing staged values. */
    method VerifyOwnedIdentitiesOnly() returns (r: Result<()>)
      requires Valid()
      modifies sys
      ensures Valid() && sys.Still() && Looked(old(sys.trace), sys.trace)
      ensures r.Ok? ==> AllSeen(|old(sys.trace)|, false) && |old(sys.trace)| < |sys.trace| && sys.trace[|old(sys.trace)|] == CountRead(Ok(|states|))
      ensures r.Ok? && sys.exclusive ==> CountOf(sys.schema, old(sys.files), sys.schema.top) == |states|
      ensures Alive() && CountOf(sys.schema, old(sys.files), sys.schema.top) == |states| ==> r.Ok?
      ensures r.Err? ==> !r.error.Rollback? && r.error.ClearsValues()
    {
      hide SysfsModel.Sysfs.Valid, IsCapture, RunInvariant, Sorted, SeenAs, Looked;
      var count := ReadCountLooking();
      if count.Err? { return Err(count.error); }
      if count.value != |states| { return Err(OwnershipLost(CountChanged)); }
      ghost var counted := sys.trace;
      r := VerifyIdentities(false, old(sys.trace));
      LookedExtends(counted, sys.trace);
    }

    method VerifyIdentities(withState: bool, ghost since: seq<Event>) returns (r: Result<()>)
      requires Valid() && Looked(since, sys.trace)
      modifies sys
      ensures Valid() && sys.Still() && Looked(since, sys.trace) && Looked(old(sys.trace), sys.trace)
      ensures Alive() ==> r.Ok?
      ensures r.Err? ==> !r.error.Rollback? && r.error.ClearsValues()
      ensures r.Ok? ==> AllSeen(|since|, withState)
    {
      hide SysfsModel.Sysfs.Valid, IsCapture, RunInvariant, Sorted, Looked, SeenAs;
      LookedNothing(sys.trace);
      LookedExtends(since, sys.trace);
      for i := 0 to |states|
        invariant Valid() && sys.Still() && Looked(since, sys.trace) && Looked(old(sys.trace), sys.trace)
        invariant forall j: nat | j < i :: !states[j].UnidentifiedRunning? && SeenAs(sys.trace, |since|, j, states[j].OwnedPid(), withState)
      {
        ghost var before := sys.trace;
        r := VerifyIdentity(i, withState);
        LookedTransitive(since, before, sys.trace);
        LookedTransitive(old(sys.trace), before, sys.trace);
        LookedExtends(since, before);
        LookedExtends(before, sys.trace);
        if r.Err? { return; }
        forall j: nat | j <= i ensures !states[j].UnidentifiedRunning? && SeenAs(sys.trace, |since|, j, states[j].OwnedPid(), withState) {
          if j < i {
            SeenAsExtends(before, sys.trace, |since|, |since|, j, states[j].OwnedPid(), withState);
          } else {
            SeenAsExtends(sys.trace, sys.trace, |before|, |since|, j, states[j].OwnedPid(), withState);
          }
        }
      }
      r := Ok(());
    }

    method VerifyIdentity(i: nat, withState: bool) returns (r: Result<()>)
      requires Valid() && i < |states|
      modifies sys
      ensures Valid() && sys.Still() && Looked(old(sys.trace), sys.trace)
      ensures Alive() ==> r.Ok?
      ensures r.Err? ==> !r.error.Rollback? && r.error.ClearsValues()
      ensures r.Ok? ==> !states[i].UnidentifiedRunning? && SeenAs(sys.trace, |old(sys.trace)|, i, states[i].OwnedPid(), withState)
    {
      hide SysfsModel.Sysfs.Valid, IsCapture, RunInvariant, Sorted, Looked, SeenAs;
      LookedNothing(sys.trace);
      match states[i] {
        case Staged =>
          r := VerifyStillOff(i);
          if r.Ok? { OffIsSeen(old(sys.trace), sys.trace, i, withState); }
          // Without the full check, any state but off counts as a change.
          if !withState && r == Err(UnexpectedKdamondState) { r := Err(OwnershipLost(StateChanged)); }
        case Running(expected) =>
          if withState {
            var current := RunningThreadPid(i);
            r := if current.Err? then Err(current.error)
                 else if current.value != expected then Err(OwnershipLost(IdentityChanged))
                 else Ok(());
          } else {
            r := VerifyRunningIdentityWithoutCount(i);
            if r.Ok? { PidIsSeen(old(sys.trace), sys.trace, i, expected); }
          }
        case UnidentifiedRunning =>
          r := Err(OwnershipLost(Unidentified));
      }
    }

    // ---------- one kdamond ----------

    /** Turns on a staged kdamond, reads its pid, and notes how far it got. */
    method TurnOnAndIdentify(i: nat) returns (r: Result<()>)
      requires Valid() && i < |states| && states[i].Staged?
      modifies this`states, sys
      ensures Valid() && |states| == |old(states)| && (forall j | 0 <= j < |states| && j != i :: states[j] == old(states)[j])
      ensures old(sys.trace) <= sys.trace
      ensures r.Ok? ==> states[i].Running? && CapturedAfterOn(sys.trace, |old(sys.trace)|, i, states[i].pid)
      ensures r.Err? ==> !r.error.Rollback?
      ensures old(Alive()) ==> r.Ok? && Alive()
      ensures old(InStep()) ==> InStep()
      ensures OneCommand(old(sys.trace), sys.trace, i, TurnOn)
    {
      hide SysfsModel.Sysfs.Valid, IsCapture, RunInvariant, Sorted, Agrees, CapturedAfterOn, SeenAs, ReadsOfPid,
           InStepIn, OwnedIn, Calm, NoTargets, OneCommand, AllFit, Obeyed;
      ghost var t0, s0, threads := sys.trace, states, sys.threads;
      if Alive() { FitsAt(s0, threads, i); }
      var on, handed := SendOn(i);
      if on.Err? { return on; }
      if sys.steady { TurnedOn(threads, sys.threads, i); }
      ghost var t1, f1 := sys.trace, sys.files;
      var pid := RunningThreadPid(i);
      ghost var t2 := sys.trace;
      InStepLater(this, states, f1);
      OneCommandLooks(t0, t1, t2, i, TurnOn);
      LookedExtends(t1, t2);
      if pid.Err? { return Err(pid.error); }
      CapturedNow(t0, t1, t2, i, pid.value);
      IdentifyKeepsInvariant(states, i, pid.value, t2);
      if sys.exclusive { CalmTransitive(sys.retuned, handed, f1, sys.files); }
      InStepStarted(this, i, pid.value, handed);
      states := states[i := Running(pid.value)];
      assert states == s0[i := Running(pid.value)];
      if sys.steady && AllFit(s0, threads) { FitsAfter(s0, threads, sys.threads, i, states[i]); }
      r := Ok(());
    }

    /** The `on` itself. Once it is accepted the kdamond counts as unidentified. */
    method SendOn(i: nat) returns (r: Result<()>, ghost handed: Tree)
      requires Valid() && i < |states| && states[i].Staged?
      modifies this`states, sys
      ensures Valid() && states == (if r.Ok? then old(states)[i := UnidentifiedRunning] else old(states))
      ensures AttemptsAt(old(sys.trace), sys.trace, i, TurnOn, r.Ok?) && old(sys.trace) <= sys.trace
      ensures sys.exclusive ==> Calm(sys.retuned, handed, sys.files)
      ensures r.Ok? && sys.exclusive ==> i in sys.active && sys.active[i] == Subtree(handed, KdamondDir(sys.schema, i))
      ensures sys.steady ==> (r.Ok? <==> i in old(sys.threads) && old(sys.threads)[i].state != On)
      ensures sys.steady && r.Ok? ==> Obeyed(old(sys.threads), sys.threads, i, TurnOn)
      ensures r.Err? ==> !r.error.Rollback?
      ensures old(InStep()) ==> InStep()
      ensures OneCommand(old(sys.trace), sys.trace, i, TurnOn)
    {
      hide SysfsModel.Sysfs.Valid, IsCapture, RunInvariant, Sorted, Agrees, InStepIn, OwnedIn, Calm, NoTargets,
           OneCommand, Obeyed;
      ghost var t0, f0, a0, s0 := sys.trace, sys.files, sys.active, states;
      var on, taken := RetryOrder(sys, i, TurnOn);
      handed := taken;
      OneCommandAttempts(t0, t0, sys.trace, i, TurnOn, on.Ok?);
      StartKeepsInvariant(states, t0, sys.trace, i, on.Ok?);
      if sys.exclusive { CalmTransitive(sys.retuned, f0, handed, sys.files); }
      if on.Err? {
        InStepLater(this, states, f0);
      } else {
        states := states[i := UnidentifiedRunning];
        if sys.exclusive { InStepExcept(this, s0, a0, f0, i); }
      }
      r := on;
    }

    /** Turns on a staged kdamond and captures its pid immediately afterwards. */
    method StartOne(i: nat) returns (r: Result<()>)
      requires Valid() && i < |states| && states[i].Staged?
      modifies this`states, sys
      ensures Valid() && |states| == |old(states)| && (forall j | 0 <= j < |states| && j != i :: states[j] == old(states)[j])
      ensures old(sys.trace) <= sys.trace
      ensures r.Ok? ==> states[i].Running? && CapturedAfterOn(sys.trace, |old(sys.trace)|, i, states[i].pid)
      ensures r.Ok? ==> sys.trace != [] && sys.trace[|sys.trace| - 1] == ConfigurationChecked(i, Ok(true))
      ensures r.Err? ==> !r.error.Rollback?
      ensures old(InOrder()) ==> r.Ok? && InOrder()
      ensures old(InStep()) ==> InStep()
      ensures OneCommand(old(sys.trace), sys.trace, i, TurnOn)
    {
      hide SysfsModel.Sysfs.Valid, IsCapture, RunInvariant, Sorted, Agrees, CapturedAfterOn, SeenAs, ReadsOfPid,
           InStepIn, OwnedIn, Calm, NoTargets, OneCommand, AllFit;
      ghost var t0 := sys.trace;
      r := TurnOnAndIdentify(i);
      if r.Err? { return; }
      if InOrder() { InOrderIsIntact(this); }
      ghost var t2, f2, pid := sys.trace, sys.files, states[i].pid;
      r := VerifyRunningIdentityOnly(i);
      OneCommandLooks(t0, t2, sys.trace, i, TurnOn);
      LookedExtends(t2, sys.trace);
      CapturedAfterOnExtends(t2, sys.trace, |t0|, |t0|, i, pid);
      InStepLater(this, states, f2);
      if r.Err? { return; }
      if InOrder() { InOrderIsIntact(this); }
      ghost var t3, f3 := sys.trace, sys.files;
      r := VerifyKdamondConfiguration(i);
      CheckLooks(t3, sys.trace, i);
      OneCommandLooks(t0, t3, sys.trace, i, TurnOn);
      CapturedAfterOnExtends(t3, sys.trace, |t0|, |t0|, i, pid);
      InStepLater(this, states, f3);
    }

    /** Stops kdamond `i` if, and only if, it is still the one this session runs. */
    method StopOne(i: nat) returns (r: Result<()>)
      requires Valid() && i < |states|
      modifies this`states, sys
      ensures Valid() && |states| == |old(states)| && (forall j | 0 <= j < |states| && j != i :: states[j] == old(states)[j])
      ensures states[i] == old(states)[i] || states[i].Staged?
      ensures |old(sys.trace)| < |sys.trace| && old(sys.trace) <= sys.trace
      ensures sys.trace[|old(sys.trace)|] == StopBegan(i, old(states)[i].OwnedPid())
      ensures r.Ok? ==> states[i].Staged?
      ensures !old(states)[i].UnidentifiedRunning? && Favourable(sys.trace, |old(sys.trace)|, i, old(states)[i].OwnedPid()) ==> r.Ok?
      ensures Uncounted(old(sys.trace), sys.trace)
      ensures r.Err? ==> !r.error.Rollback?
      ensures old(Alive()) ==> r.Ok? && Alive()
      ensures old(InOrder()) ==> r.Ok? && InOrder()
      ensures old(InStep()) ==> InStep()
      ensures OneCommand(old(sys.trace), sys.trace, i, TurnOff)
    {
      hide ManagedHierarchy.Valid, SafeStops, InStepIn, OwnedIn, OneCommand, AllFit, Favourable, Uncounted,
           FavoursStop, ReadsOfState;
      RecordIsSafe(this);
      ghost var t0, owned := sys.trace, states[i].OwnedPid();
      if Alive() { FitsAt(states, sys.threads, i); }
      var state := BeginStop(i);
      ghost var t1, t2 := t0 + [StopBegan(i, owned)], sys.trace;
      UnfavourableState(t2, t0, i, state, owned);
      if state.Err? { return Err(state.error); }
      if state.value == Unknown { return Err(UnexpectedKdamondState); }
      if state.value == Off {
        SettleOff(i);
        return Ok(());
      }
      match states[i] {
        case Staged => r := Err(OwnershipLost(StateChanged));
        case UnidentifiedRunning => r := Err(OwnershipLost(Unidentified));
        case Running(expected) =>
          r := StopRunning(i, expected, t0, t1);
          UncountedTransitive(t0, t2, sys.trace);
      }
    }

    /** A kdamond just seen off is staged. */
    method SettleOff(i: nat)
      requires Valid() && i < |states| && sys.trace != [] && sys.trace[|sys.trace| - 1] == StateRead(i, Ok(Off))
      modifies this`states
      ensures Valid() && states == old(states)[i := Staged]
      ensures old(InStep()) ==> InStep()
      ensures old(Alive()) && i in sys.threads && sys.threads[i].state == Off ==> Alive()
    {
      hide SysfsModel.Sysfs.Valid, IsCapture, RunInvariant, Sorted, InStepIn, OwnedIn, AllFit;
      ghost var s0 := states;
      SettledKeepsInvariant(states, sys.trace, i);
      if Alive() {
        FitsAt(states, sys.threads, i);
        if sys.threads[i].state == Off { FitsAfter(states, sys.threads, sys.threads, i, Staged); }
      }
      states := states[i := Staged];
      InStepWithFewer(this, s0);
    }

    /** A stop begins by reading the state. */
    method BeginStop(i: nat) returns (state: Result<KdamondState>)
      requires Valid() && i < |states|
      modifies sys
      ensures Valid() && ReadsOfState(old(sys.trace) + [StopBegan(i, states[i].OwnedPid())], sys.trace, i, state)
      ensures old(sys.trace) < sys.trace && sys.trace[|old(sys.trace)|] == StopBegan(i, states[i].OwnedPid()) && sys.trace[|sys.trace| - 1] == StateRead(i, state)
      ensures OneCommand(old(sys.trace), sys.trace, i, TurnOff) && Uncounted(old(sys.trace), sys.trace)
      ensures sys.steady ==> sys.threads == old(sys.threads) && (i in sys.threads ==> state == Ok(sys.threads[i].state))
      ensures state.Err? ==> state.error.IsAccessFailure()
      ensures old(InStep()) ==> InStep()
    {
      hide SysfsModel.Sysfs.Valid, IsCapture, RunInvariant, Sorted, InStepIn, OwnedIn, Calm, NoTargets, OneCommand,
           Uncounted;
      ghost var t0, f0 := sys.trace, sys.files;
      NoteStop(i);
      ghost var t1 := sys.trace;
      state := RetryState(sys, i);
      StateReadsLook(t1, sys.trace, i, state);
      BeganLooking(t0, t1, sys.trace, i);
      BeganUncounted(t0, t1, sys.trace, i, state);
      LookingKeepsInvariant(states, t1, sys.trace);
      InStepLater(this, states, f0);
    }

    /** The rest of a stop: the kdamond is on and ought to run as `expected`. */
    method StopRunning(i: nat, expected: nat, ghost t0: seq<Event>, ghost t1: seq<Event>) returns (r: Result<()>)
      requires Valid() && i < |states| && states[i] == Running(expected)
      requires SafeStops(t0) && t1 == t0 + [StopBegan(i, Some(expected))] && ReadsOfState(t1, sys.trace, i, Ok(On))
      modifies this`states, sys
      ensures Valid() && |states| == |old(states)| && (forall j | 0 <= j < |states| && j != i :: states[j] == old(states)[j])
      ensures states[i] == old(states)[i] || states[i].Staged?
      ensures old(sys.trace) <= sys.trace
      ensures r.Ok? ==> states[i].Staged?
      ensures Favourable(sys.trace, |t0|, i, Some(expected)) ==> r.Ok?
      ensures Uncounted(old(sys.trace), sys.trace)
      ensures r.Err? ==> !r.error.Rollback?
      ensures old(Alive()) ==> r.Ok? && Alive()
      ensures old(InStep()) ==> InStep()
      ensures OneCommand(t0, sys.trace, i, TurnOff)
    {
      hide SysfsModel.Sysfs.Valid, IsCapture, RunInvariant, Sorted, SafeStops, InStepIn, OwnedIn, Calm, NoTargets,
           NoCounts, OneCommand, AllFit, Obeyed, Favourable, Uncounted;
      ghost var t2, f0, s0, threads := sys.trace, sys.files, states, sys.threads;
      if Alive() { FitsAt(states, threads, i); }
      var current := RetryPid(sys, i);
      ghost var t3 := sys.trace;
      PidReadsLook(t2, t3, i, current);
      PidReadsUncounted(t2, t3, i, current);
      StopLooking(t0, t1, t2, t3, i);
      LookingKeepsInvariant(states, t2, t3);
      InStepLater(this, states, f0);
      if current != Ok(Some(expected)) { Unfavourable(t3, |t0|, |t3| - 1, i, Some(expected)); }
      if current.Err? { return Err(current.error); }
      if current.value.None? { return Err(NotRunning); }
      if current.value.value != expected { return Err(OwnershipLost(IdentityChanged)); }
      r := SendOff(i, expected, t0, t1, t2);
      ghost var t4 := sys.trace;
      AttemptsUncounted(t3, t4, i, TurnOff, r.Ok?);
      UncountedTransitive(t2, t3, t4);
      if r.Err? {
        Unfavourable(t4, |t0|, |t4| - 1, i, Some(expected));
        return;
      }
      if sys.steady { TurnedOff(threads, sys.threads, i); }
      r := ConfirmOff(i, expected, t0);
      if sys.steady && AllFit(s0, threads) { FitsAfter(s0, threads, sys.threads, i, Staged); }
      UncountedTransitive(t2, t4, sys.trace);
      OneCommandLooks(t0, t4, sys.trace, i, TurnOff);
    }

    /** After an accepted `off` the kdamond has to be seen off. */
    method ConfirmOff(i: nat, expected: nat, ghost t0: seq<Event>) returns (r: Result<()>)
      requires Valid() && i < |states| && t0 < sys.trace && sys.trace[|sys.trace| - 1] == Commanded(i, TurnOff, true)
      modifies this`states, sys
      ensures Valid() && |states| == |old(states)| && (forall j | 0 <= j < |states| && j != i :: states[j] == old(states)[j])
      ensures states[i] == old(states)[i] || states[i].Staged?
      ensures r.Ok? ==> states[i].Staged?
      ensures Looked(old(sys.trace), sys.trace) && Uncounted(old(sys.trace), sys.trace) && old(sys.trace) <= sys.trace
      ensures Favourable(sys.trace, |t0|, i, Some(expected)) ==> r.Ok?
      ensures sys.steady ==> sys.threads == old(sys.threads)
      ensures sys.steady && i in sys.threads && sys.threads[i].state == Off ==> r.Ok? && states == old(states)[i := Staged]
      ensures r.Err? ==> !r.error.Rollback?
      ensures old(InStep()) ==> InStep()
    {
      hide SysfsModel.Sysfs.Valid, IsCapture, RunInvariant, Sorted, SafeStops, InStepIn, OwnedIn, Calm, NoTargets,
           NoCounts, Looked;
      ghost var t4, f2 := sys.trace, sys.files;
      var after := RetryState(sys, i);
      StateReadsLook(t4, sys.trace, i, after);
      LookingKeepsInvariant(states, t4, sys.trace);
      InStepLater(this, states, f2);
      assert sys.trace[|t4| - 1] == Commanded(i, TurnOff, true);
      if after.Err? { return Err(after.error); }
      if after.value == On { return Err(OwnershipLost(StateChanged)); }
      if after.value == Unknown { return Err(UnexpectedKdamondState); }
      SettleOff(i);
      r := Ok(());
    }

    /** The `off` itself, sent right after the owned pid was read. */
    method SendOff(i: nat, expected: nat, ghost t0: seq<Event>, ghost t1: seq<Event>, ghost t2: seq<Event>) returns (r: Result<()>)
      requires Valid() && SafeStops(t0) && t1 == t0 + [StopBegan(i, Some(expected))]
      requires ReadsOfState(t1, t2, i, Ok(On)) && ReadsOfPid(t2, sys.trace, i, Ok(Some(expected)))
      modifies sys
      ensures Valid() && AttemptsAt(old(sys.trace), sys.trace, i, TurnOff, r.Ok?)
      ensures sys.steady ==> (r.Ok? <==> i in old(sys.threads) && old(sys.threads)[i].state == On)
      ensures sys.steady && r.Ok? ==> Obeyed(old(sys.threads), sys.threads, i, TurnOff)
      ensures r.Err? ==> !r.error.Rollback?
      ensures old(InStep()) ==> InStep()
      ensures OneCommand(t0, sys.trace, i, TurnOff)
    {
      hide SysfsModel.Sysfs.Valid, IsCapture, RunInvariant, Sorted, SafeStops, InStepIn, OwnedIn, Calm, NoTargets,
           NoCounts, OneCommand, Obeyed;
      ghost var t3, f1 := sys.trace, sys.files;
      PidReadsLook(t2, t3, i, Ok(Some(expected)));
      StopLooking(t0, t1, t2, t3, i);
      var off, handed := RetryOrder(sys, i, TurnOff);
      OneCommandAttempts(t0, t3, sys.trace, i, TurnOff, off.Ok?);
      StopIsSafe(t0, t1, t2, t3, sys.trace, i, expected, off.Ok?);
      StoppingKeepsInvariant(states, t3, sys.trace, i, off.Ok?);
      if sys.exclusive { CalmTransitive(sys.retuned, f1, handed, sys.files); }
      InStepLater(this, states, f1);
      r := off;
    }

    // ---------- the whole hierarchy ----------

    /** Stops, in reverse order, whatever this session has turned on so far. */
    method RollbackStarted() returns (r: Result<()>)
      requires Valid()
      modifies this`states, sys
      ensures Valid() && |states| == |old(states)| && old(sys.trace) <= sys.trace
      ensures r.Ok? ==> AllStaged()
      ensures r.Err? ==> !r.error.Rollback?
      ensures old(InOrder()) ==> r.Ok? && InOrder()
      ensures old(InStep()) ==> InStep()
      ensures Guarded(old(sys.trace), sys.trace)
    {
      hide SysfsModel.Sysfs.Valid, IsCapture, RunInvariant, Sorted, Favourable, ManagedHierarchy.InStep,
           ManagedHierarchy.InOrder, Calm, NoTargets, Guarded, Looked;
      ghost var t0 := sys.trace;
      GuardedNothing(t0);
      if AllStaged() { return Ok(()); }
      r := VerifyCount();
      StagedLook(t0, sys.trace);
      LookingIsGuarded(t0, sys.trace);
      if r.Err? { return; }
      var firstError: Option<Error> := None;
      for i := |states| downto 0
        invariant Valid() && |states| == |old(states)| && old(sys.trace) <= sys.trace
        invariant old(InStep()) ==> InStep()
        invariant Guarded(t0, sys.trace)
        invariant old(InOrder()) ==> InOrder() && firstError.None?
        invariant firstError.None? ==> forall j | i <= j < |states| :: states[j].Staged?
        invariant firstError.Some? ==> !firstError.value.Rollback?
      {
        if !states[i].Staged? {
          ghost var t1 := sys.trace;
          var outcome := RollbackOne(i);
          GuardedTransitive(t0, t1, sys.trace);
          if outcome.Err? && firstError.None? { firstError := Some(outcome.error); }
        }
      }
      r := if firstError.Some? then Err(firstError.value) else Ok(());
    }

    predicate AllStaged()
      reads this
    {
      forall i | 0 <= i < |states| :: states[i].Staged?
    }

    method RollbackOne(i: nat) returns (r: Result<()>)
      requires Valid() && i < |states|
      modifies this`states, sys
      ensures Valid() && |states| == |old(states)| && (forall j | 0 <= j < |states| && j != i :: states[j] == old(states)[j])
      ensures old(sys.trace) <= sys.trace
      ensures r.Ok? ==> states[i].Staged?
      ensures r.Err? ==> !r.error.Rollback?
      ensures old(InOrder()) ==> r.Ok? && InOrder()
      ensures old(InStep()) ==> InStep()
      ensures Guarded(old(sys.trace), sys.trace)
    {
      hide SysfsModel.Sysfs.Valid, IsCapture, RunInvariant, Sorted, Favourable, ManagedHierarchy.InStep,
           ManagedHierarchy.InOrder, Calm, NoTargets, OneCommand, Guarded, Looked;
      ghost var t0 := sys.trace;
      GuardedNothing(t0);
      r := VerifyKdamondConfiguration(i);
      ghost var t1 := sys.trace;
      CheckLooks(t0, t1, i);
      LookingIsGuarded(t0, t1);
      if r.Err? { return; }
      r := StopOne(i);
      CheckGuards(t0, t1, sys.trace, i, TurnOff);
    }

    /** Starts every staged kdamond in index order. Either every kdamond runs under a pid
        captured after its own `on` and was found so in a final complete check, or - unless
        the rollback failed too - every session state is staged again and no kdamond turned
        on here was left unread as off. Nothing is sent before all were read off. */
    method StartAll() returns (r: Result<()>)
      requires Valid()
      modifies this`states, sys
      ensures Valid() && |states| == |old(states)|
      ensures r.Ok? ==> forall i | 0 <= i < |states| ::
                states[i].Running? && CapturedAfterOn(sys.trace, |old(sys.trace)|, i, states[i].pid)
      ensures r.Ok? ==> AllSeen(|old(sys.trace)|, true)
      ensures old(sys.trace) <= sys.trace && (Looked(old(sys.trace), sys.trace) || AllReadOffFirst(sys.trace, |old(sys.trace)|, |states|))
      ensures r.Err? && !r.error.Rollback? && old(ownsHierarchy && AllStaged()) ==>
                forall i | 0 <= i < |states| :: states[i].Staged? && !PendingOn(sys.trace, i)
      ensures !old(ownsHierarchy && AllStaged()) ==> r.Err? && states == old(states) && sys.trace == old(sys.trace)
      ensures old(InOrder() && ownsHierarchy && AllStaged()) ==> r.Ok? && InOrder()
      ensures old(InStep()) ==> InStep()
      ensures Guarded(old(sys.trace), sys.trace)
    {
      hide SysfsModel.Sysfs.Valid, IsCapture, Sorted, SafeStops, SafeCommits, CapturedAfterOn, Agrees, SeenAs, Looked,
           ReadOffFirst, ManagedHierarchy.InStep, ManagedHierarchy.InOrder, Calm, NoTargets, Guarded;
      LookedNothing(sys.trace);
      GuardedNothing(sys.trace);
      if !ownsHierarchy { return Err(NotRunning); }
      for i := 0 to |states|
        invariant forall j | 0 <= j < i :: states[j].Staged?
      {
        if states[i].Running? { return Err(KdamondRunning(i)); }
        if states[i].UnidentifiedRunning? { return Err(OwnershipLost(Unidentified)); }
      }
      ghost var before := sys.trace;
      r := VerifyStaged();
      StagedLook(before, sys.trace);
      LookingIsGuarded(before, sys.trace);
      if r.Err? { return; }
      r := VerifyAllOff(before);
      LookingIsGuarded(before, sys.trace);
      if r.Err? { return; }
      ghost var ready := sys.trace;
      for i := 0 to |states|
        invariant Valid() && |states| == |old(states)| && before <= sys.trace && AllReadOffFirst(sys.trace, |before|, |states|)
        invariant old(InStep()) ==> InStep()
        invariant Guarded(before, sys.trace)
        invariant old(InOrder()) ==> InOrder()
        invariant forall j | 0 <= j < i :: states[j].Running? && CapturedAfterOn(sys.trace, |before|, j, states[j].pid)
        invariant forall j | i <= j < |states| :: states[j].Staged?
      {
        ghost var t := sys.trace;
        r := StartNext(i, before);
        GuardedTransitive(before, t, sys.trace);
        AllReadOffExtends(t, sys.trace, |before|, |states|);
        if r.Err? { return; }
      }
      ghost var started := sys.trace;
      r := ConfirmStarted(before);
      GuardedTransitive(before, started, sys.trace);
      AllReadOffExtends(started, sys.trace, |before|, |states|);
    }

    method VerifyAllOff(ghost since: seq<Event>) returns (r: Result<()>)
      requires Valid() && Looked(since, sys.trace)
      modifies sys
      ensures Valid() && Looked(since, sys.trace) && since <= sys.trace
      ensures r.Ok? ==> AllReadOffFirst(sys.trace, |since|, |states|)
      ensures r.Err? ==> !r.error.Rollback?
      ensures old(InOrder()) && AllStaged() ==> r.Ok? && InOrder()
      ensures old(InStep()) ==> InStep()
    {
      hide SysfsModel.Sysfs.Valid, IsCapture, RunInvariant, Sorted, Looked, ReadOffFirst, AllFit, InStepIn, OwnedIn,
           Calm, NoTargets;
      LookedExtends(since, sys.trace);
      for i := 0 to |states|
        invariant Valid() && Looked(since, sys.trace) && since <= sys.trace && AllReadOffFirst(sys.trace, |since|, i)
        invariant old(InStep()) ==> InStep()
        invariant sys.steady ==> sys.threads == old(sys.threads)
      {
        ghost var before, f := sys.trace, sys.files;
        if Alive() { FitsAt(states, sys.threads, i); }
        r := VerifyStillOff(i);
        InStepLater(this, states, f);
        LookedTransitive(since, before, sys.trace);
        LookedExtends(before, sys.trace);
        if r.Err? { return; }
        OffReadFirst(since, before, sys.trace, i);
        AllReadOffExtends(before, sys.trace, |since|, i);
      }
      r := Ok(());
    }

    /** Checks and starts kdamond `i`, or rolls the earlier ones back. */
    method StartNext(i: nat, ghost before: seq<Event>) returns (r: Result<()>)
      requires Valid() && i < |states| && states[i].Staged? && before <= sys.trace
      requires forall j | 0 <= j < i :: states[j].Running? && CapturedAfterOn(sys.trace, |before|, j, states[j].pid)
      modifies this`states, sys
      ensures Valid() && |states| == |old(states)| && before <= sys.trace && old(sys.trace) <= sys.trace
      ensures r.Ok? ==> forall j | 0 <= j <= i :: states[j].Running? && CapturedAfterOn(sys.trace, |before|, j, states[j].pid)
      ensures r.Ok? ==> forall j | i < j < |states| :: states[j] == old(states)[j]
      ensures r.Err? && !r.error.Rollback? ==> AllStaged()
      ensures old(InOrder()) ==> r.Ok? && InOrder()
      ensures old(InStep()) ==> InStep()
      ensures Guarded(old(sys.trace), sys.trace)
    {
      hide SysfsModel.Sysfs.Valid, IsCapture, RunInvariant, Sorted, CapturedAfterOn, ManagedHierarchy.InStep,
           ManagedHierarchy.InOrder, Calm, NoTargets, OneCommand, Guarded, Looked;
      ghost var t0, running, checked := sys.trace, states, sys.trace;
      GuardedNothing(t0);
      r := VerifyCount();
      StagedLook(t0, sys.trace);
      LookingIsGuarded(t0, sys.trace);
      if r.Ok? {
          ghost var t := sys.trace;
        r := VerifyKdamondConfiguration(i);
        CheckLooks(t, sys.trace, i);
        LookedTransitive(t0, t, sys.trace);
        LookingIsGuarded(t0, sys.trace);
        if r.Ok? { checked := t; }
        }
      if r.Ok? {
        ghost var t1 := sys.trace;
        r := StartOne(i);
        CheckGuards(checked, t1, sys.trace, i, TurnOn);
        GuardedTransitive(t0, checked, sys.trace);
        if r.Ok? { CapturedAfterOnExtends(sys.trace, sys.trace, |t1|, |before|, i, states[i].pid); }
      }
      if r.Ok? {
        forall j | 0 <= j < i ensures states[j].Running? && CapturedAfterOn(sys.trace, |before|, j, states[j].pid) {
          CapturedAfterOnExtends(t0, sys.trace, |before|, |before|, j, running[j].pid);
        }
      } else {
        ghost var t2 := sys.trace;
        r := UndoStart(r.error);
        GuardedTransitive(t0, t2, sys.trace);
      }
    }

    method UndoStart(operation: Error) returns (r: Result<()>)
      requires Valid() && !operation.Rollback?
      modifies this`states, sys
      ensures Valid() && |states| == |old(states)| && old(sys.trace) <= sys.trace
      ensures r.Err? && (!r.error.Rollback? ==> AllStaged())
      ensures old(InOrder()) ==> InOrder() && r.error == operation
      ensures old(InStep()) ==> InStep()
      ensures Guarded(old(sys.trace), sys.trace)
    {
      hide SysfsModel.Sysfs.Valid, IsCapture, RunInvariant, Sorted, AllFit, InStepIn, OwnedIn, Calm, NoTargets, Guarded;
      var rollback := RollbackStarted();
      r := Err(WithRollback(operation, rollback));
    }

    method ConfirmStarted(ghost before: seq<Event>) returns (r: Result<()>)
      requires Valid() && before <= sys.trace
      requires forall j | 0 <= j < |states| :: states[j].Running? && CapturedAfterOn(sys.trace, |before|, j, states[j].pid)
      modifies this`states, sys
      ensures Valid() && |states| == |old(states)| && old(sys.trace) <= sys.trace
      ensures r.Ok? ==> forall j | 0 <= j < |states| :: states[j].Running? && CapturedAfterOn(sys.trace, |before|, j, states[j].pid)
      ensures r.Ok? ==> AllSeen(|before|, true)
      ensures r.Err? && !r.error.Rollback? ==> AllStaged()
      ensures ownsHierarchy && old(InOrder()) ==> r.Ok? && InOrder()
      ensures old(InStep()) ==> InStep()
      ensures Guarded(old(sys.trace), sys.trace)
    {
      hide SysfsModel.Sysfs.Valid, IsCapture, RunInvariant, Sorted, CapturedAfterOn, SeenAs, AllFit, InStepIn,
           OwnedIn, Calm, NoTargets, Guarded;
      ghost var t0 := sys.trace;
      if InOrder() { InOrderIsIntact(this); }
      r := VerifyOwnedState();
      LookingIsGuarded(t0, sys.trace);
      InStepLater(this, states, old(sys.files));
      if r.Ok? {
        forall j: nat | j < |states| ensures SeenAs(sys.trace, |before|, j, states[j].OwnedPid(), true) {
          SeenAsExtends(sys.trace, sys.trace, |t0|, |before|, j, states[j].OwnedPid(), true);
        }
        forall j | 0 <= j < |states| ensures CapturedAfterOn(sys.trace, |before|, j, states[j].pid) {
          CapturedAfterOnExtends(t0, sys.trace, |before|, |before|, j, states[j].pid);
        }
      } else {
        ghost var t1 := sys.trace;
        r := UndoStart(r.error);
        GuardedTransitive(t0, t1, sys.trace);
      }
    }

    /** Stops every kdamond that is still this session's, in reverse order. Losing one does
        not keep the others from being stopped: while the count holds, an identified kdamond
        whose own checks and commands are good ends staged whatever happens to the rest. */
    method StopAll() returns (r: Result<()>)
      requires Valid()
      modifies this`states, sys
      ensures Valid() && |states| == |old(states)| && old(sys.trace) <= sys.trace
      ensures r.Err? ==> !r.error.Rollback?
      ensures old(InOrder()) ==> r.Ok? && InOrder()
      ensures forall i | 0 <= i < |states| :: states[i] == old(states)[i] || states[i].Staged?
      ensures r.Ok? && ownsHierarchy ==> AllStaged()
      ensures ownsHierarchy && CountHeld(sys.trace, |old(sys.trace)|, staged.count) ==>
                forall i | 0 <= i < |states| && !old(states)[i].UnidentifiedRunning?
                  && Favourable(sys.trace, |old(sys.trace)|, i, old(states)[i].OwnedPid()) :: states[i].Staged?
      ensures old(InStep()) ==> InStep()
      ensures Guarded(old(sys.trace), sys.trace)
    {
      hide SysfsModel.Sysfs.Valid, IsCapture, RunInvariant, Sorted, Agrees, Favourable, ManagedHierarchy.InStep,
           ManagedHierarchy.InOrder, Calm, NoTargets, Guarded, Looked;
      GuardedNothing(sys.trace);
      if !ownsHierarchy { return Ok(()); }
      ghost var t0 := sys.trace;
      r := VerifyCount();
      StagedLook(t0, sys.trace);
      LookingIsGuarded(t0, sys.trace);
      assert sys.trace[|t0|].CountRead?;
      if r.Err? { return; }
      var firstError: Option<Error> := None;
      var i := |states|;
      var broken := false;
      while i > 0 && !broken
        invariant 0 <= i <= |states| == |old(states)| && Valid() && t0 <= sys.trace
        invariant old(InStep()) ==> InStep()
        invariant Guarded(t0, sys.trace)
        invariant old(InOrder()) ==> InOrder() && firstError.None? && !broken
        invariant forall j | 0 <= j < i :: states[j] == old(states)[j]
        invariant forall j | i <= j < |states| :: states[j] == old(states)[j] || states[j].Staged?
        invariant firstError.None? && !broken ==> forall j | i <= j < |states| :: states[j].Staged?
        invariant firstError.Some? ==> !firstError.value.Rollback?
        invariant broken ==> firstError.Some? && !CountHeld(sys.trace, |t0|, staged.count)
        invariant !broken ==> forall j | i <= j < |states| && !old(states)[j].UnidentifiedRunning?
                    && Favourable(sys.trace, |t0|, j, old(states)[j].OwnedPid()) :: states[j].Staged?
        decreases i, !broken
      {
        ghost var t1 := sys.trace;
          var count := VerifyCount();
        StagedLook(t1, sys.trace);
        LookingIsGuarded(t1, sys.trace);
        GuardedTransitive(t0, t1, sys.trace);
        assert sys.trace[|t1|].CountRead?;
        if count.Err? {
          if firstError.None? { firstError := Some(count.error); }
          broken := true;
        } else {
          i := i - 1;
          ghost var t2 := sys.trace;
          var outcome := StopOwned(i, t0);
          GuardedTransitive(t0, t2, sys.trace);
          if outcome.Err? && firstError.None? { firstError := Some(outcome.error); }
          forall j | i < j < |states| && Favourable(sys.trace, |t0|, j, old(states)[j].OwnedPid())
            ensures Favourable(t1, |t0|, j, old(states)[j].OwnedPid())
          {
            FavourablePart(sys.trace, |t0|, t1, |t0|, j, old(states)[j].OwnedPid());
          }
        }
      }
      if firstError.Some? { return Err(firstError.value); }
      ghost var t3 := sys.trace;
      r := VerifyStaged();
      StagedLook(t3, sys.trace);
      LookingIsGuarded(t3, sys.trace);
      GuardedTransitive(t0, t3, sys.trace);
    }

    /** One kdamond's share of `StopAll`: nothing is sent unless its own staged values are intact. */
    method StopOwned(i: nat, ghost t0: seq<Event>) returns (r: Result<()>)
      requires Valid() && i < |states| && t0 <= sys.trace
      modifies this`states, sys
      ensures Valid() && |states| == |old(states)| && (forall j | 0 <= j < |states| && j != i :: states[j] == old(states)[j])
      ensures old(sys.trace) <= sys.trace
      ensures states[i] == old(states)[i] || states[i].Staged?
      ensures r.Ok? ==> states[i].Staged?
      ensures r.Err? ==> !r.error.Rollback?
      ensures old(InOrder()) ==> r.Ok? && InOrder()
      ensures !old(states)[i].UnidentifiedRunning? && Favourable(sys.trace, |t0|, i, old(states)[i].OwnedPid()) ==> states[i].Staged?
      ensures old(InStep()) ==> InStep()
      ensures Guarded(old(sys.trace), sys.trace)
    {
      hide SysfsModel.Sysfs.Valid, IsCapture, RunInvariant, Sorted, ManagedHierarchy.InStep, ManagedHierarchy.InOrder,
           Calm, NoTargets, OneCommand, Guarded, Looked;
      ghost var before, owned := sys.trace, states[i].OwnedPid();
      r := VerifyKdamondConfiguration(i);
      CheckLooks(before, sys.trace, i);
      LookingIsGuarded(before, sys.trace);
      assert sys.trace[|before|].ConfigurationChecked?;
      if r.Err? { return; }
      ghost var middle := sys.trace;
      r := StopOne(i);
      CheckGuards(before, middle, sys.trace, i, TurnOff);
      if Favourable(sys.trace, |t0|, i, owned) { FavourablePart(sys.trace, |t0|, sys.trace, |middle|, i, owned); }
    }
  }

  // ---------- when nothing goes wrong ----------

  lemma InOrderIsIntact(h: ManagedHierarchy)
    requires h.Alive() && h.InStep()
    ensures h.Intact()
  {
    assert h.staged.volatile + h.sys.retuned == h.staged.volatile;
  }

  lemma IntactLater(h: ManagedHierarchy, t: Tree)
    requires h.sys.Valid() && (h.sys.exclusive ==> Calm(h.sys.retuned, t, h.sys.files))
    ensures (h.sys.exclusive && h.sys.steady && h.sys.retuned <= h.staged.volatile && CountOf(h.sys.schema, t, h.sys.schema.top) == h.staged.count == |h.states|
             && Agrees(h.staged.entries, h.staged.volatile, t)) ==> h.Intact()
  {
    if h.sys.exclusive && h.sys.retuned <= h.staged.volatile && Agrees(h.staged.entries, h.staged.volatile, t) {
      AgreesByDrift(h.staged.entries, h.staged.volatile, h.sys.retuned, t, h.sys.files);
      assert IsReconstructionCount(h.sys.schema.top);
    }
  }

  lemma IntactBelow(h: ManagedHierarchy, i: nat)
    requires h.Intact()
    ensures Agrees(Below(h.staged.entries, KdamondDir(h.sys.schema, i)), h.staged.volatile, h.sys.files)
  {
    BelowMembers(h.staged.entries, KdamondDir(h.sys.schema, i));
  }

  // ---------- staying in step ----------

  /** As long as what the kdamonds that stay identified run does not change. */
  lemma InStepInLater(K: Schema, loose: set<Path>, targets: TargetReader, states: seq<SessionState>, active0: map<nat, Tree>, t: Tree,
                      states': seq<SessionState>, active: map<nat, Tree>, u: Tree)
    requires InStepIn(K, loose, targets, states, active0, t) && Calm(loose, t, u) && NoTargets(K, loose) && |states'| == |states|
    requires forall i: nat | i < |states| && states'[i].Running? :: states[i].Running? && (i in active0 ==> i in active && active[i] == active0[i])
    ensures InStepIn(K, loose, targets, states', active, u)
  {
    hide Calm, NoTargets, Clean, SameRunning;
    forall i: nat | i < |states'| ensures Clean(K, targets, u, i) && (states'[i].Running? ==> InStepAt(K, loose, targets, active, u, i)) {
      CleanByDrift(K, loose, targets, t, u, i);
      if states'[i].Running? { InStepByDrift(K, loose, targets, active0, t, u, i); }
    }
  }

  /** Kdamonds may be given up, and retuned leaves move. */
  lemma InStepLater(h: ManagedHierarchy, states: seq<SessionState>, t: Tree)
    requires h.Valid() && |states| == |h.states| && (h.sys.exclusive ==> Calm(h.sys.retuned, t, h.sys.files))
    requires forall i | 0 <= i < |states| :: h.states[i] == states[i] || !h.states[i].Running?
    ensures (h.sys.exclusive ==>
               && h.staged.count == |states| && OwnedIn(h.sys.schema, h.sys.retuned, h.staged, t)
               && InStepIn(h.sys.schema, h.sys.retuned, h.sys.targets, states, h.sys.active, t)) ==> h.InStep()
  {
    var K, loose, targets := h.sys.schema, h.sys.retuned, h.sys.targets;
    assert NoTargets(K, loose) && OnlyIntervals(loose) && K.Lawful();
    hide SysfsModel.Sysfs.Valid, Calm, NoTargets, InStepIn, OwnedIn, OnlyIntervals, Schema.Lawful;
    if h.sys.exclusive && OwnedIn(K, loose, h.staged, t) && InStepIn(K, loose, targets, states, h.sys.active, t) {
      OwnedByDrift(K, loose, h.staged, t, h.sys.files);
      InStepInLater(K, loose, targets, states, h.sys.active, t, h.states, h.sys.active, h.sys.files);
    }
  }

  lemma InStepWithFewer(h: ManagedHierarchy, states: seq<SessionState>)
    requires h.Valid() && |states| == |h.states|
    requires forall i | 0 <= i < |states| :: h.states[i] == states[i] || !h.states[i].Running?
    ensures (h.sys.exclusive ==>
               && h.staged.count == |states| && OwnedIn(h.sys.schema, h.sys.retuned, h.staged, h.sys.files)
               && InStepIn(h.sys.schema, h.sys.retuned, h.sys.targets, states, h.sys.active, h.sys.files)) ==> h.InStep()
  {
    CalmNothing(h.sys.retuned, h.sys.files);
    InStepLater(h, states, h.sys.files);
  }

  /** Looking leaves a hierarchy in order. */
  twostate lemma StaysInOrder(h: ManagedHierarchy)
    requires h.Valid() && h.sys.Still() && h.staged == old(h.staged) && h.states == old(h.states)
    ensures old(h.InStep()) ==> h.InStep()
    ensures old(h.InOrder()) ==> h.InOrder()
  {
    hide SysfsModel.Sysfs.Valid, InStepIn, OwnedIn, AllFit;
    InStepLater(h, old(h.states), old(h.sys.files));
  }

  /** Turning on one kdamond changes what that one runs. */
  lemma InStepExcept(h: ManagedHierarchy, states: seq<SessionState>, active: map<nat, Tree>, t: Tree, i: nat)
    requires h.Valid() && Calm(h.sys.retuned, t, h.sys.files) && i < |states| == |h.states| && !h.states[i].Running?
    requires forall j | 0 <= j < |states| && j != i :: h.states[j] == states[j]
    requires forall j | j in active && j != i :: j in h.sys.active && h.sys.active[j] == active[j]
    ensures h.staged.count == |states| && OwnedIn(h.sys.schema, h.sys.retuned, h.staged, t) ==>
              InStepIn(h.sys.schema, h.sys.retuned, h.sys.targets, states, active, t) ==> h.InStep()
  {
    var K, loose, targets := h.sys.schema, h.sys.retuned, h.sys.targets;
    assert NoTargets(K, loose) && OnlyIntervals(loose) && K.Lawful();
    hide ManagedHierarchy.Valid, Calm, InStepIn, OwnedIn, Schema.Lawful, NoTargets, OnlyIntervals;
    assert forall j: nat | j < |states| && h.states[j].Running? :: j != i && states[j].Running? && (j in active ==> j in h.sys.active);
    if OwnedIn(K, loose, h.staged, t) && InStepIn(K, loose, targets, states, active, t) {
      OwnedByDrift(K, loose, h.staged, t, h.sys.files);
      InStepInLater(K, loose, targets, states, active, t, h.states, h.sys.active, h.sys.files);
    }
  }

  lemma InStepStarted(h: ManagedHierarchy, i: nat, pid: nat, handed: Tree)
    requires h.Valid() && i < |h.states| && (h.sys.exclusive ==> Calm(h.sys.retuned, handed, h.sys.files))
    requires h.sys.exclusive ==> i in h.sys.active && h.sys.active[i] == Subtree(handed, KdamondDir(h.sys.schema, i))
    ensures h.InStep() && h.sys.exclusive ==>
              InStepIn(h.sys.schema, h.sys.retuned, h.sys.targets, h.states[i := Running(pid)], h.sys.active, h.sys.files)
  {
    assert NoTargets(h.sys.schema, h.sys.retuned);
    hide SysfsModel.Sysfs.Valid, Calm, NoTargets, Clean, InStepAt, OwnedIn;
    if h.sys.exclusive {
      TurnedOnInStep(h.sys.schema, h.sys.retuned, h.sys.targets, h.sys.active, handed, h.sys.files, i);
    }
  }

  // ---------- the run invariant, step by step ----------

  lemma StartKeepsInvariant(states: seq<SessionState>, t0: seq<Event>, t1: seq<Event>, i: nat, accepted: bool)
    requires RunInvariant(states, t0) && i < |states| && AttemptsAt(t0, t1, i, TurnOn, accepted)
    ensures RunInvariant(if accepted then states[i := UnidentifiedRunning] else states, t1)
  {
    SafeWithoutOff(t0, t1);
    SafeWithoutCommit(t0, t1);
    forall j | 0 <= j < |states| && states[j].Staged? && (j != i || !accepted) ensures !PendingOn(t1, j) {
      StaysSettled(t0, t1, j);
    }
  }

  lemma CapturedNow(t0: seq<Event>, t1: seq<Event>, t2: seq<Event>, i: nat, p: nat)
    requires AttemptsAt(t0, t1, i, TurnOn, true) && Looked(t1, t2) && |t1| < |t2|
    requires t2[|t2| - 1] == PidRead(i, Ok(Some(p)))
    ensures CapturedAfterOn(t2, |t0|, i, p)
  {
    assert t2[|t1| - 1] == t1[|t1| - 1];
  }

  lemma IdentifyKeepsInvariant(states: seq<SessionState>, i: nat, p: nat, t: seq<Event>)
    requires RunInvariant(states, t) && i < |states|
    ensures RunInvariant(states[i := Running(p)], t)
  {
  }

  lemma StoppingKeepsInvariant(states: seq<SessionState>, t3: seq<Event>, t4: seq<Event>, i: nat, accepted: bool)
    requires RunInvariant(states, t3) && AttemptsAt(t3, t4, i, TurnOff, accepted) && SafeStops(t4)
    ensures RunInvariant(states, t4)
  {
    SafeWithoutCommit(t3, t4);
    forall j | 0 <= j < |states| && states[j].Staged? ensures !PendingOn(t4, j) { StaysSettled(t3, t4, j); }
  }

  /** A commit sent after the count and the owned pid were read. */
  lemma CommittingKeepsInvariant(states: seq<SessionState>, t0: seq<Event>, t1: seq<Event>, t2: seq<Event>, t3: seq<Event>,
                                 i: nat, p: nat, count: nat, c: Command, accepted: bool)
    requires RunInvariant(states, t0) && t1 == t0 + [CommitBegan(i, Some(p)), CountRead(Ok(count))]
    requires ReadsOfPid(t1, t2, i, Ok(Some(p))) && AttemptsAt(t2, t3, i, c, accepted) && IsCommit(c)
    ensures RunInvariant(states, t3)
  {
    CommitIsSafe(t0, t1, t2, t3, i, p, count, c, accepted);
    assert forall m | |t1| <= m < |t2| :: t3[m] == t2[m];
    assert t3[|t0|] == t1[|t0|] && t3[|t0| + 1] == t1[|t0| + 1];
    SafeWithoutOff(t0, t3);
    forall j | 0 <= j < |states| && states[j].Staged? ensures !PendingOn(t3, j) { StaysSettled(t0, t3, j); }
  }

  lemma OffReadFirst(since: seq<Event>, before: seq<Event>, later: seq<Event>, i: nat)
    requires Looked(since, before) && Looked(since, later) && ReadsOfState(before, later, i, Ok(Off))
    ensures ReadOffFirst(later, |since|, i)
  {
    assert forall m | |since| <= m < |later| :: later[m].Passive();
    assert FirstOffAt(later, |since|, i, |later| - 1);
  }

  lemma AllReadOffExtends(earlier: seq<Event>, later: seq<Event>, from: nat, count: nat)
    requires earlier <= later && AllReadOffFirst(earlier, from, count)
    ensures AllReadOffFirst(later, from, count)
  {
    forall i: nat | i < count ensures ReadOffFirst(later, from, i) {
      assert ReadOffFirst(earlier, from, i);
      var k: nat :| FirstOffAt(earlier, from, i, k);
      assert FirstOffAt(later, from, i, k);
    }
  }

  lemma OnThenPid(t0: seq<Event>, t1: seq<Event>, t2: seq<Event>, i: nat, p: nat)
    requires ReadsOfState(t0, t1, i, Ok(On)) && ReadsOfPid(t1, t2, i, Ok(Some(p)))
    ensures SeenAs(t2, |t0|, i, Some(p), true)
  {
    assert t2[|t1| - 1] == t1[|t1| - 1] && t2[|t2| - 1] == Sight(i, Some(p));
  }

  lemma OffIsSeen(t0: seq<Event>, t1: seq<Event>, i: nat, withState: bool)
    requires ReadsOfState(t0, t1, i, Ok(Off))
    ensures SeenAs(t1, |t0|, i, None, withState)
  {
    assert t1[|t1| - 1] == Sight(i, None);
  }

  lemma PidIsSeen(t0: seq<Event>, t1: seq<Event>, i: nat, p: nat)
    requires ReadsOfPid(t0, t1, i, Ok(Some(p)))
    ensures SeenAs(t1, |t0|, i, Some(p), false)
  {
    assert t1[|t1| - 1] == Sight(i, Some(p));
  }

  lemma RecordIsSafe(h: ManagedHierarchy)
    requires h.Valid()
    ensures SafeStops(h.sys.trace)
  {
  }

  /** A kdamond just read back off may be called staged again. */
  lemma SettledKeepsInvariant(states: seq<SessionState>, t: seq<Event>, i: nat)
    requires RunInvariant(states, t) && i < |states| && t != [] && t[|t| - 1] == StateRead(i, Ok(Off))
    ensures RunInvariant(states[i := Staged], t)
  {
    assert t == t[..|t| - 1] + [StateRead(i, Ok(Off))];
    ReadOffSettles(t[..|t| - 1], i);
  }

  lemma StateReadsLook(earlier: seq<Event>, later: seq<Event>, i: nat, r: Result<KdamondState>)
    requires ReadsOfState(earlier, later, i, r)
    ensures Looked(earlier, later)
  {
  }

  lemma PidReadsLook(earlier: seq<Event>, later: seq<Event>, i: nat, r: Result<Option<nat>>)
    requires ReadsOfPid(earlier, later, i, r)
    ensures Looked(earlier, later)
  {
  }

  lemma BeganUncounted(t0: seq<Event>, t1: seq<Event>, t2: seq<Event>, i: nat, r: Result<KdamondState>)
    requires (exists p :: t1 == t0 + [StopBegan(i, p)]) && ReadsOfState(t1, t2, i, r)
    ensures Uncounted(t0, t2)
  {
    assert forall k | |t0| <= k < |t1| :: t2[k] == t1[k];
  }

  lemma PidReadsUncounted(earlier: seq<Event>, later: seq<Event>, i: nat, r: Result<Option<nat>>)
    requires ReadsOfPid(earlier, later, i, r)
    ensures Uncounted(earlier, later)
  {
  }

  lemma AttemptsUncounted(earlier: seq<Event>, later: seq<Event>, i: nat, c: Command, accepted: bool)
    requires AttemptsAt(earlier, later, i, c, accepted)
    ensures Uncounted(earlier, later)
  {
  }

  lemma CheckLooks(earlier: seq<Event>, later: seq<Event>, i: nat)
    requires exists intact :: later == earlier + [ConfigurationChecked(i, intact)]
    ensures Looked(earlier, later)
  {
  }

  lemma BeganLooking(t0: seq<Event>, t1: seq<Event>, t2: seq<Event>, i: nat)
    requires (exists p :: t1 == t0 + [StopBegan(i, p)]) && Looked(t1, t2)
    ensures OneCommand(t0, t2, i, TurnOff)
  {
    assert forall k | |t1| <= k < |t2| :: t2[k].Passive();
    assert forall k | |t0| <= k < |t1| :: t2[k] == t1[k];
  }

  lemma StopLooking(t0: seq<Event>, t1: seq<Event>, t2: seq<Event>, t3: seq<Event>, i: nat)
    requires (exists p :: t1 == t0 + [StopBegan(i, p)]) && ReadsOfState(t1, t2, i, Ok(On)) && Looked(t2, t3)
    ensures OneCommand(t0, t3, i, TurnOff) && forall k | |t0| <= k < |t3| :: !t3[k].Commanded?
  {
    assert forall k | |t2| <= k < |t3| :: t3[k].Passive();
    assert forall k | |t0| <= k < |t2| :: t3[k] == t2[k];
  }

  lemma StagedLook(earlier: seq<Event>, later: seq<Event>)
    requires exists c :: later == earlier + [CountRead(c)]
    ensures Looked(earlier, later)
  {
  }
}
