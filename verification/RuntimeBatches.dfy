/** Reads and refreshes of a running kdamond between two ownership checks. */
module RuntimeBatches {
  import opened Outcomes
  import opened KernelTree
  import opened SysfsModel
  import opened Traces
  import opened Snapshots
  import opened Retries
  import opened Hierarchy

  /** The staged values, and then the state and pid of one running kdamond: `verify_running`. */
  method VerifyRunning(h: ManagedHierarchy, i: nat) returns (r: Result<()>)
    requires h.Valid()
    modifies h.sys
    ensures h.Valid() && h.sys.Still() && Looked(old(h.sys.trace), h.sys.trace)
    ensures r.Ok? ==> h.OwnedPidOf(i).Some? && SeenAs(h.sys.trace, |old(h.sys.trace)|, i, h.OwnedPidOf(i), true)
    ensures r.Ok? && h.sys.exclusive ==> Agrees(h.staged.entries, h.staged.volatile + h.sys.retuned, h.sys.files)
    ensures old(h.InOrder()) && h.OwnedPidOf(i).Some? ==> r.Ok? && h.InOrder()
    ensures r.Err? ==> !r.error.Rollback?
  {
    hide SysfsModel.Sysfs.Valid, IsCapture, RunInvariant, Agrees, Looked, SeenAs, InStepIn, OwnedIn, AllFit;
    LookedNothing(h.sys.trace);
    if i >= |h.states| { return Err(IndexOutOfBounds); }
    ghost var t0 := h.sys.trace;
    r := h.VerifyStaged();
    StagedLook(t0, h.sys.trace);
    if r.Err? { return; }
    ghost var t1, f1 := h.sys.trace, h.sys.files;
    var expected := h.ExpectedRunningPid(i);
    if expected.Err? { return Err(expected.error); }
    var current := h.RunningThreadPid(i);
    StaysInOrder(h);
    if h.InOrder() { OwnedThread(h, i); }
    LookedTransitive(t0, t1, h.sys.trace);
    LookedExtends(t0, t1);
    if h.sys.exclusive { AgreesByDrift(h.staged.entries, h.staged.volatile + h.sys.retuned, h.sys.retuned, f1, h.sys.files); }
    if current.Err? { return Err(current.error); }
    if current.value != expected.value { return Err(OwnershipLost(IdentityChanged)); }
    SeenAsExtends(h.sys.trace, h.sys.trace, |t1|, |t0|, i, h.OwnedPidOf(i), true);
    r := Ok(());
  }

  /** A kdamond owned in a hierarchy in order is on, under the pid owned. */
  lemma OwnedThread(h: ManagedHierarchy, i: nat)
    requires h.Alive() && h.OwnedPidOf(i).Some?
    ensures i in h.sys.threads && h.sys.threads[i] == Thread(On, h.OwnedPidOf(i))
  {
  }

  /** The staged values, and then the identity of one running kdamond: `verify_running_identity`. */
  method VerifyRunningIdentity(h: ManagedHierarchy, i: nat) returns (r: Result<()>)
    requires h.Valid()
    modifies h.sys
    ensures h.Valid() && h.sys.Still() && Looked(old(h.sys.trace), h.sys.trace)
    ensures r.Ok? && h.sys.exclusive ==> Agrees(h.staged.entries, h.staged.volatile + h.sys.retuned, h.sys.files)
    ensures old(h.InOrder()) && h.OwnedPidOf(i).Some? ==> r.Ok? && h.InOrder()
    ensures r.Err? ==> !r.error.Rollback?
  {
    hide SysfsModel.Sysfs.Valid, IsCapture, RunInvariant, Agrees, Looked, InStepIn, OwnedIn, AllFit;
    ghost var t0 := h.sys.trace;
    r := h.VerifyStaged();
    StagedLook(t0, h.sys.trace);
    if r.Err? { return; }
    ghost var t1, f1 := h.sys.trace, h.sys.files;
    if h.InOrder() { InOrderIsIntact(h); }
    r := h.VerifyRunningIdentityOnly(i);
    StaysInOrder(h);
    if h.InOrder() { InOrderIsIntact(h); }
    LookedTransitive(t0, t1, h.sys.trace);
    if h.sys.exclusive { AgreesByDrift(h.staged.entries, h.staged.volatile + h.sys.retuned, h.sys.retuned, f1, h.sys.files); }
  }

  lemma RefreshKeepsInvariant(states: seq<SessionState>, t0: seq<Event>, t1: seq<Event>, i: nat, accepted: bool)
    requires RunInvariant(states, t0) && AttemptsAt(t0, t1, i, Refresh, accepted)
    ensures RunInvariant(states, t1)
  {
    SafeWithoutOff(t0, t1);
    SafeWithoutCommit(t0, t1);
    forall j | 0 <= j < |states| && states[j].Staged? ensures !PendingOn(t1, j) { StaysSettled(t0, t1, j); }
  }

  /** Has a running kdamond refresh its results: nothing staged and nothing it runs changes. */
  method IssueRefresh(h: ManagedHierarchy, i: nat) returns (r: Result<()>)
    requires h.Valid()
    modifies h.sys
    ensures h.Valid() && h.sys.Still() && old(h.sys.trace) <= h.sys.trace
    ensures old(h.InOrder()) && h.OwnedPidOf(i).Some? ==> r.Ok? && h.InOrder()
    ensures r.Err? ==> !r.error.Rollback?
  {
    hide SysfsModel.Sysfs.Valid, IsCapture, RunInvariant, Looked, InStepIn, OwnedIn, AllFit;
    ghost var t0, f0 := h.sys.trace, h.sys.files;
    if h.InOrder() {
      InOrderIsIntact(h);
      if h.OwnedPidOf(i).Some? { OwnedThread(h, i); }
    }
    r := h.VerifyRunningIdentityOnly(i);
    LookedExtends(t0, h.sys.trace);
    if r.Ok? {
      ghost var t1, f1 := h.sys.trace, h.sys.files;
      var refreshed, handed := RetryOrder(h.sys, i, Refresh);
      RefreshKeepsInvariant(h.states, t1, h.sys.trace, i, refreshed.Ok?);
      if h.sys.exclusive { CalmTransitive(h.sys.retuned, f1, handed, h.sys.files); }
      r := refreshed;
    }
    StaysInOrder(h);
  }
}
