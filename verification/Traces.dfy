/** What a record of kernel accesses shows about starts and stops. */
module Traces {
  import opened Outcomes
  import opened SysfsModel

  // ---------- starts ----------

  /** The last word on kdamond `i`: it was turned on, and has not been read back off since. */
  predicate PendingOn(trace: seq<Event>, i: nat)
    decreases |trace|
  {
    trace != []
    && var last, init := trace[|trace| - 1], trace[..|trace| - 1];
       last == Commanded(i, TurnOn, true) || (last != StateRead(i, Ok(Off)) && PendingOn(init, i))
  }

  lemma {:induction false} PendingOnAppend(earlier: seq<Event>, e: Event, i: nat)
    ensures PendingOn(earlier + [e], i) ==
              (e == Commanded(i, TurnOn, true) || (e != StateRead(i, Ok(Off)) && PendingOn(earlier, i)))
  {
    assert (earlier + [e])[..|earlier|] == earlier;
  }

  /** Without a new `on`, a kdamond cannot become pending. */
  lemma {:induction false} StaysSettled(earlier: seq<Event>, later: seq<Event>, i: nat)
    requires earlier <= later && !PendingOn(earlier, i)
    requires forall k | |earlier| <= k < |later| :: later[k] != Commanded(i, TurnOn, true)
    ensures !PendingOn(later, i)
    decreases |later|
  {
    if |later| > |earlier| {
      var init := later[..|later| - 1];
      StaysSettled(earlier, init, i);
      assert later == init + [later[|later| - 1]];
      PendingOnAppend(init, later[|later| - 1], i);
    } else {
      assert earlier == later;
    }
  }

  lemma ReadOffSettles(earlier: seq<Event>, i: nat)
    ensures !PendingOn(earlier + [StateRead(i, Ok(Off))], i)
  {
    PendingOnAppend(earlier, StateRead(i, Ok(Off)), i);
  }

  /** Since `from`, kdamond `i` was read off before any command was sent. */
  ghost predicate ReadOffFirst(trace: seq<Event>, from: nat, i: nat) {
    exists k: nat :: FirstOffAt(trace, from, i, k)
  }

  ghost predicate FirstOffAt(trace: seq<Event>, from: nat, i: nat, k: nat) {
    from <= k < |trace| && trace[k] == StateRead(i, Ok(Off)) && forall m | from <= m < k :: !trace[m].Commanded?
  }

  ghost predicate AllReadOffFirst(trace: seq<Event>, from: nat, count: nat) {
    forall i: nat | i < count :: ReadOffFirst(trace, from, i)
  }

  /** From position `from` on, `i` was turned on and its pid read afterwards as `p`. */
  ghost predicate CapturedAfterOn(trace: seq<Event>, from: nat, i: nat, p: nat) {
    exists j, k | from <= j < k < |trace| :: trace[j] == Commanded(i, TurnOn, true) && trace[k] == PidRead(i, Ok(Some(p)))
  }

  lemma CapturedAfterOnExtends(earlier: seq<Event>, later: seq<Event>, from: nat, from': nat, i: nat, p: nat)
    requires earlier <= later && from' <= from && CapturedAfterOn(earlier, from, i, p)
    ensures CapturedAfterOn(later, from', i, p)
  {
    var j, k :| from <= j < k < |earlier| && earlier[j] == Commanded(i, TurnOn, true) && earlier[k] == PidRead(i, Ok(Some(p)));
    assert later[j] == earlier[j] && later[k] == earlier[k];
  }

  // ---------- stops ----------

  /** The accesses one stop makes between its beginning and its `off`. */
  predicate StopAccess(e: Event, i: nat) {
    match e
    case StateRead(j, _) => j == i
    case PidRead(j, _) => j == i
    case Commanded(j, c, _) => j == i && c == TurnOff
    case _ => false
  }

  /** An `off` sent by a stop that began while the session owned pid `p`, and that
      has read exactly that pid since. */
  ghost predicate JustifiedOff(trace: seq<Event>, k: nat, i: nat) {
    exists b: nat, j: nat, p: nat :: OffShown(trace, k, i, b, j, p)
  }

  ghost predicate OffShown(trace: seq<Event>, k: nat, i: nat, b: nat, j: nat, p: nat) {
    && b < j < k < |trace|
    && trace[b] == StopBegan(i, Some(p)) && trace[j] == PidRead(i, Ok(Some(p)))
    && forall m | b < m < k :: StopAccess(trace[m], i)
  }

  /** Every `off` ever attempted was justified. */
  ghost predicate SafeStops(trace: seq<Event>) {
    forall k, i, accepted | 0 <= k < |trace| && trace[k] == Commanded(i, TurnOff, accepted) :: JustifiedOff(trace, k, i)
  }

  lemma JustifiedOffExtends(earlier: seq<Event>, later: seq<Event>, k: nat, i: nat)
    requires earlier <= later && JustifiedOff(earlier, k, i)
    ensures JustifiedOff(later, k, i)
  {
    var b: nat, j: nat, p: nat :| OffShown(earlier, k, i, b, j, p);
    assert OffShown(later, k, i, b, j, p);
  }

  lemma SafeWithoutOff(earlier: seq<Event>, later: seq<Event>)
    requires earlier <= later && SafeStops(earlier)
    requires forall k | |earlier| <= k < |later| :: !(later[k].Commanded? && later[k].command == TurnOff)
    ensures SafeStops(later)
  {
    forall k, i, accepted | 0 <= k < |later| && later[k] == Commanded(i, TurnOff, accepted)
      ensures JustifiedOff(later, k, i)
    {
      assert k < |earlier| && earlier[k] == later[k];
      JustifiedOffExtends(earlier, later, k, i);
    }
  }

  // ---------- commits ----------

  predicate IsCommit(c: Command) {
    c == Commit || c == CommitQuotaGoals
  }

  /** The accesses made between the beginning of a commit and its command. */
  predicate CommitAccess(e: Event, i: nat) {
    match e
    case CountRead(_) => true
    case PidRead(j, _) => j == i
    case Commanded(j, c, _) => j == i && IsCommit(c)
    case _ => false
  }

  /** A commit that began while the session owned pid `p`, and that has since read the
      kdamond count and exactly that pid. */
  ghost predicate JustifiedCommit(trace: seq<Event>, k: nat, i: nat) {
    exists b: nat, j: nat, p: nat :: CommitShown(trace, k, i, b, j, p)
  }

  ghost predicate CommitShown(trace: seq<Event>, k: nat, i: nat, b: nat, j: nat, p: nat) {
    && b + 1 < j < k < |trace|
    && trace[b] == CommitBegan(i, Some(p)) && trace[b + 1].CountRead? && trace[b + 1].count.Ok?
    && trace[j] == PidRead(i, Ok(Some(p))) && forall m | b < m < k :: CommitAccess(trace[m], i)
  }

  /** Every commit ever attempted, while updating or while undoing an update, was justified. */
  ghost predicate SafeCommits(trace: seq<Event>) {
    forall k, i, c, accepted | 0 <= k < |trace| && trace[k] == Commanded(i, c, accepted) && IsCommit(c) :: JustifiedCommit(trace, k, i)
  }

  lemma JustifiedCommitExtends(earlier: seq<Event>, later: seq<Event>, k: nat, i: nat)
    requires earlier <= later && JustifiedCommit(earlier, k, i)
    ensures JustifiedCommit(later, k, i)
  {
    var b: nat, j: nat, p: nat :| CommitShown(earlier, k, i, b, j, p);
    assert CommitShown(later, k, i, b, j, p);
  }

  lemma SafeWithoutCommit(earlier: seq<Event>, later: seq<Event>)
    requires earlier <= later && SafeCommits(earlier)
    requires forall k | |earlier| <= k < |later| :: !(later[k].Commanded? && IsCommit(later[k].command))
    ensures SafeCommits(later)
  {
    forall k, i, c, accepted | 0 <= k < |later| && later[k] == Commanded(i, c, accepted) && IsCommit(c)
      ensures JustifiedCommit(later, k, i)
    {
      assert k < |earlier| && earlier[k] == later[k];
      JustifiedCommitExtends(earlier, later, k, i);
    }
  }

  // ---------- retried accesses ----------

  /** `state` was read, again after EBUSY, with result `r`. */
  ghost predicate ReadsOfState(earlier: seq<Event>, later: seq<Event>, i: nat, r: Result<KdamondState>) {
    && |earlier| < |later| && earlier <= later && later[|later| - 1] == StateRead(i, r)
    && forall k | |earlier| <= k < |later| - 1 :: later[k] == StateRead(i, Err(Busy))
  }

  ghost predicate ReadsOfPid(earlier: seq<Event>, later: seq<Event>, i: nat, r: Result<Option<nat>>) {
    && |earlier| < |later| && earlier <= later && later[|later| - 1] == PidRead(i, r)
    && forall k | |earlier| <= k < |later| - 1 :: later[k] == PidRead(i, Err(Busy))
  }

  ghost predicate AttemptsAt(earlier: seq<Event>, later: seq<Event>, i: nat, c: Command, accepted: bool) {
    && |earlier| < |later| && earlier <= later && later[|later| - 1] == Commanded(i, c, accepted)
    && forall k | |earlier| <= k < |later| - 1 :: later[k] == Commanded(i, c, false)
  }

  lemma ReadsOfStateStart(t: seq<Event>, i: nat, r: Result<KdamondState>)
    ensures ReadsOfState(t, t + [StateRead(i, r)], i, r)
  {
  }

  lemma ReadsOfStateAgain(t0: seq<Event>, t1: seq<Event>, i: nat, r: Result<KdamondState>)
    requires ReadsOfState(t0, t1, i, Err(Busy))
    ensures ReadsOfState(t0, t1 + [StateRead(i, r)], i, r)
  {
  }

  lemma ReadsOfPidStart(t: seq<Event>, i: nat, r: Result<Option<nat>>)
    ensures ReadsOfPid(t, t + [PidRead(i, r)], i, r)
  {
  }

  lemma ReadsOfPidAgain(t0: seq<Event>, t1: seq<Event>, i: nat, r: Result<Option<nat>>)
    requires ReadsOfPid(t0, t1, i, Err(Busy))
    ensures ReadsOfPid(t0, t1 + [PidRead(i, r)], i, r)
  {
  }

  lemma AttemptsStart(t: seq<Event>, i: nat, c: Command, accepted: bool)
    ensures AttemptsAt(t, t + [Commanded(i, c, accepted)], i, c, accepted)
  {
  }

  lemma AttemptsAgain(t0: seq<Event>, t1: seq<Event>, i: nat, c: Command, accepted: bool)
    requires AttemptsAt(t0, t1, i, c, false)
    ensures AttemptsAt(t0, t1 + [Commanded(i, c, accepted)], i, c, accepted)
  {
  }

  /** The whole of a stop that reached its `off`: each attempt is justified by the pid read before it. */
  lemma StopIsSafe(t0: seq<Event>, t1: seq<Event>, t2: seq<Event>, t3: seq<Event>, t4: seq<Event>, i: nat, p: nat, accepted: bool)
    requires SafeStops(t0) && t1 == t0 + [StopBegan(i, Some(p))]
    requires ReadsOfState(t1, t2, i, Ok(On)) && ReadsOfPid(t2, t3, i, Ok(Some(p))) && AttemptsAt(t3, t4, i, TurnOff, accepted)
    ensures SafeStops(t4)
  {
    assert forall m | |t1| <= m < |t2| :: t4[m] == t2[m];
    assert forall m | |t2| <= m < |t3| :: t4[m] == t3[m];
    assert t4[|t0|] == t1[|t0|] && t4[|t3| - 1] == t3[|t3| - 1];
    forall k, j, ok | 0 <= k < |t4| && t4[k] == Commanded(j, TurnOff, ok) ensures JustifiedOff(t4, k, j) {
      if k < |t0| {
        assert t0[k] == t4[k];
        JustifiedOffExtends(t0, t4, k, j);
      } else {
        assert k >= |t3| && j == i;
        assert OffShown(t4, k, i, |t0|, |t3| - 1, p);
      }
    }
  }

  /** The whole of a commit: every attempt follows the pid read before the first. */
  lemma CommitIsSafe(t0: seq<Event>, t1: seq<Event>, t2: seq<Event>, t3: seq<Event>, i: nat, p: nat, count: nat, c: Command, accepted: bool)
    requires SafeCommits(t0) && t1 == t0 + [CommitBegan(i, Some(p)), CountRead(Ok(count))]
    requires ReadsOfPid(t1, t2, i, Ok(Some(p))) && AttemptsAt(t2, t3, i, c, accepted) && IsCommit(c)
    ensures SafeCommits(t3)
  {
    assert forall m | |t1| <= m < |t2| :: t3[m] == t2[m];
    assert t3[|t0|] == t1[|t0|] && t3[|t0| + 1] == t1[|t0| + 1] && t3[|t2| - 1] == t2[|t2| - 1];
    forall k, j, d, ok | 0 <= k < |t3| && t3[k] == Commanded(j, d, ok) && IsCommit(d) ensures JustifiedCommit(t3, k, j) {
      if k < |t0| {
        assert t0[k] == t3[k];
        JustifiedCommitExtends(t0, t3, k, j);
      } else {
        assert k >= |t2| && j == i;
        assert CommitShown(t3, k, i, |t0|, |t2| - 1, p);
      }
    }
  }

  /** From position `from` on, a commit to `i` was accepted and its pid read afterwards as `p`. */
  ghost predicate ConfirmedCommit(trace: seq<Event>, from: nat, i: nat, p: nat, c: Command) {
    exists j, k | from <= j < k < |trace| :: trace[j] == Commanded(i, c, true) && trace[k] == PidRead(i, Ok(Some(p)))
  }

  lemma ConfirmedCommitExtends(earlier: seq<Event>, later: seq<Event>, from: nat, from': nat, i: nat, p: nat, c: Command)
    requires earlier <= later && from' <= from && ConfirmedCommit(earlier, from, i, p, c)
    ensures ConfirmedCommit(later, from', i, p, c)
  {
    var j, k :| from <= j < k < |earlier| && earlier[j] == Commanded(i, c, true) && earlier[k] == PidRead(i, Ok(Some(p)));
    assert later[j] == earlier[j] && later[k] == earlier[k];
  }

  lemma CommitThenPid(t0: seq<Event>, t1: seq<Event>, t2: seq<Event>, i: nat, p: nat, count: nat, c: Command)
    requires AttemptsAt(t0, t1, i, c, true) && ReadsOfPid(t1 + [CountRead(Ok(count))], t2, i, Ok(Some(p)))
    ensures ConfirmedCommit(t2, |t0|, i, p, c)
  {
    assert t2[|t1| - 1] == t1[|t1| - 1];
  }

  // ---------- checks before commands ----------

  /** Since `earlier` nothing was commanded but `c` to kdamond `i`, and nothing after it was accepted. */
  ghost predicate OneCommand(earlier: seq<Event>, later: seq<Event>, i: nat, c: Command) {
    && earlier <= later
    && (forall k | |earlier| <= k < |later| && later[k].Commanded? :: later[k].index == i && later[k].command == c)
    && forall k, m | |earlier| <= k < m < |later| && later[k].Commanded? && later[m].Commanded? :: !later[k].accepted
  }

  /** Before the command at `k`, kdamond `i`'s owned values were found intact, and since then it
      was sent nothing but refused attempts at the same command. */
  ghost predicate CheckedFirst(trace: seq<Event>, from: nat, k: nat, i: nat, c: Command) {
    exists j | from <= j < k < |trace| ::
      && trace[j] == ConfigurationChecked(i, Ok(true))
      && forall m | j < m < k && trace[m].Commanded? && trace[m].index == i :: trace[m] == Commanded(i, c, false)
  }

  /** No kdamond was turned on or off since `earlier` without such a check since `earlier`. */
  ghost predicate Guarded(earlier: seq<Event>, later: seq<Event>) {
    && earlier <= later
    && forall k, i, c, accepted | |earlier| <= k < |later| && later[k] == Commanded(i, c, accepted) && (c == TurnOn || c == TurnOff) ::
         CheckedFirst(later, |earlier|, k, i, c)
  }

  lemma GuardedExtends(earlier: seq<Event>, later: seq<Event>)
    requires Guarded(earlier, later)
    ensures earlier <= later
  {
  }

  lemma OneCommandLooks(t0: seq<Event>, t1: seq<Event>, t2: seq<Event>, i: nat, c: Command)
    requires OneCommand(t0, t1, i, c) && Looked(t1, t2)
    ensures OneCommand(t0, t2, i, c)
  {
    assert forall k | |t1| <= k < |t2| :: t2[k].Passive();
    assert forall k | |t0| <= k < |t1| :: t2[k] == t1[k];
  }

  lemma OneCommandAttempts(t0: seq<Event>, t1: seq<Event>, t2: seq<Event>, i: nat, c: Command, accepted: bool)
    requires t0 <= t1 && (forall k | |t0| <= k < |t1| :: !t1[k].Commanded?) && AttemptsAt(t1, t2, i, c, accepted)
    ensures OneCommand(t0, t2, i, c)
  {
    assert forall k | |t0| <= k < |t1| :: t2[k] == t1[k];
  }

  lemma GuardedNothing(t: seq<Event>)
    ensures Guarded(t, t)
  {
  }

  lemma CheckedFirstExtends(earlier: seq<Event>, later: seq<Event>, from: nat, from': nat, k: nat, i: nat, c: Command)
    requires earlier <= later && from' <= from && CheckedFirst(earlier, from, k, i, c)
    ensures CheckedFirst(later, from', k, i, c)
  {
    var j :| from <= j < k < |earlier| && earlier[j] == ConfigurationChecked(i, Ok(true))
      && forall m | j < m < k && earlier[m].Commanded? && earlier[m].index == i :: earlier[m] == Commanded(i, c, false);
    assert later[j] == earlier[j];
    assert forall m | j < m < k :: later[m] == earlier[m];
  }

  lemma GuardedTransitive(t0: seq<Event>, t1: seq<Event>, t2: seq<Event>)
    requires Guarded(t0, t1) && Guarded(t1, t2)
    ensures Guarded(t0, t2)
  {
    forall k, i, c, accepted | |t0| <= k < |t2| && t2[k] == Commanded(i, c, accepted) && (c == TurnOn || c == TurnOff)
      ensures CheckedFirst(t2, |t0|, k, i, c)
    {
      if k < |t1| {
        assert t1[k] == t2[k];
        CheckedFirstExtends(t1, t2, |t0|, |t0|, k, i, c);
      } else {
        CheckedFirstExtends(t2, t2, |t1|, |t0|, k, i, c);
      }
    }
  }

  lemma LookingIsGuarded(t0: seq<Event>, t1: seq<Event>)
    requires Looked(t0, t1)
    ensures Guarded(t0, t1)
  {
    assert forall k | |t0| <= k < |t1| :: t1[k].Passive();
  }

  lemma UncommandedIsGuarded(t0: seq<Event>, t1: seq<Event>)
    requires Uncommanded(t0, t1)
    ensures Guarded(t0, t1)
  {
  }

  /** A check, and then that one command. */
  lemma CheckGuards(t0: seq<Event>, t1: seq<Event>, t2: seq<Event>, i: nat, c: Command)
    requires t1 == t0 + [ConfigurationChecked(i, Ok(true))] && OneCommand(t1, t2, i, c)
    ensures Guarded(t0, t2)
  {
    assert t2[|t0|] == t1[|t0|];
    forall k, j, d, accepted | |t0| <= k < |t2| && t2[k] == Commanded(j, d, accepted) && (d == TurnOn || d == TurnOff)
      ensures CheckedFirst(t2, |t0|, k, j, d)
    {
      assert |t1| <= k && j == i && d == c;
      assert forall m | |t0| < m < k && t2[m].Commanded? && t2[m].index == i :: t2[m] == Commanded(i, c, false);
    }
  }

  // ---------- what a check has seen ----------

  /** The access that shows a kdamond as the session left it: its pid, or that it is off. */
  function Sight(i: nat, owned: Option<nat>): Event {
    match owned
    case Some(p) => PidRead(i, Ok(Some(p)))
    case None => StateRead(i, Ok(Off))
  }

  /** Since `from` kdamond `i` was seen as the session left it, and if asked for, on before its pid was read. */
  ghost predicate SeenAs(trace: seq<Event>, from: nat, i: nat, owned: Option<nat>, withState: bool) {
    exists j, k | from <= j <= k < |trace| ::
      trace[k] == Sight(i, owned) && (withState && owned.Some? ==> trace[j] == StateRead(i, Ok(On)))
  }

  lemma SeenAsExtends(earlier: seq<Event>, later: seq<Event>, from: nat, from': nat, i: nat, owned: Option<nat>, withState: bool)
    requires earlier <= later && from' <= from && SeenAs(earlier, from, i, owned, withState)
    ensures SeenAs(later, from', i, owned, withState)
  {
    var j, k :| from <= j <= k < |earlier| && earlier[k] == Sight(i, owned) && (withState && owned.Some? ==> earlier[j] == StateRead(i, Ok(On)));
    assert later[k] == earlier[k] && later[j] == earlier[j];
  }

  // ---------- isolation ----------

  /** Nothing in this event speaks against stopping kdamond `i` running as `p`. */
  predicate FavoursStop(e: Event, i: nat, p: Option<nat>) {
    match e
    case ConfigurationChecked(j, intact) => j == i ==> intact == Ok(true)
    case StateRead(j, state) => j == i ==> state.Ok? && state.value != Unknown && (p.None? ==> state.value == Off)
    case PidRead(j, pid) => j == i ==> p.Some? && pid == Ok(p)
    case Commanded(j, c, accepted) => j == i && c == TurnOff ==> accepted
    case _ => true
  }

  /** Since `from`, kdamond `i`'s configuration, pid and commands were good and it did not restart. */
  ghost predicate Favourable(trace: seq<Event>, from: nat, i: nat, p: Option<nat>) {
    && (forall k | from <= k < |trace| :: FavoursStop(trace[k], i, p))
    && (forall j, k | from <= j < k < |trace| ::
          trace[j] == Commanded(i, TurnOff, true) ==> trace[k] != StateRead(i, Ok(On)))
  }

  lemma FavourablePart(trace: seq<Event>, from: nat, part: seq<Event>, from': nat, i: nat, p: Option<nat>)
    requires Favourable(trace, from, i, p) && part <= trace && from <= from'
    ensures Favourable(part, from', i, p)
  {
    assert forall k | from' <= k < |part| :: part[k] == trace[k];
  }

  lemma Unfavourable(trace: seq<Event>, from: nat, k: nat, i: nat, p: Option<nat>)
    requires from <= k < |trace| && !FavoursStop(trace[k], i, p)
    ensures !Favourable(trace, from, i, p)
  {
  }

  lemma UnfavourableState(trace: seq<Event>, earlier: seq<Event>, i: nat, state: Result<KdamondState>, p: Option<nat>)
    requires |earlier| < |trace| && trace[|trace| - 1] == StateRead(i, state)
    ensures state.Err? || state.value == Unknown || (p.None? && state.value == On) ==> !Favourable(trace, |earlier|, i, p)
  {
    assert FavoursStop(trace[|trace| - 1], i, p) <==> state.Ok? && state.value != Unknown && (p.None? ==> state.value == Off);
  }

  /** The kdamond count was not looked at. */
  ghost predicate Uncounted(earlier: seq<Event>, later: seq<Event>) {
    earlier <= later && forall k | |earlier| <= k < |later| :: !later[k].CountRead?
  }

  lemma UncountedTransitive(a: seq<Event>, b: seq<Event>, c: seq<Event>)
    requires Uncounted(a, b) && Uncounted(b, c)
    ensures Uncounted(a, c)
  {
    forall k | |a| <= k < |c| ensures !c[k].CountRead? {
      if k < |b| { assert c[k] == b[k]; }
    }
  }

  /** The kdamond count held at every check since `from`. */
  ghost predicate CountHeld(trace: seq<Event>, from: nat, count: nat) {
    forall k | from <= k < |trace| :: trace[k].CountRead? ==> trace[k].count == Ok(count)
  }

  /** Before the first access nothing is owed and nothing was sent. */
  lemma EmptyRecord()
    ensures SafeStops([]) && SafeCommits([]) && forall i: nat :: !PendingOn([], i)
  {
  }
}
