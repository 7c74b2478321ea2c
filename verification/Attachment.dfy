/** What a receipt records of a session's kdamonds, and the session states rebuilt from it. */
module Attachment {
  import opened Outcomes
  import opened Config
  import opened Hierarchy
  import opened Receipts

  /** The running kdamonds, by index: what a capture records, provided every one is identified. */
  function RunningIdentities(states: seq<SessionState>): seq<Identity>
    decreases |states|
  {
    if states == [] then []
    else
      var last := |states| - 1;
      RunningIdentities(states[..last]) + (if states[last].Running? then [Identity(last, states[last].pid)] else [])
  }

  /** Kernel-thread ids are positive and fit 31 bits. */
  predicate PidsFit(states: seq<SessionState>) {
    forall s | s in states && s.Running? :: 1 <= s.pid <= I32_MAX
  }

  predicate Identified(states: seq<SessionState>) {
    forall s | s in states :: !s.UnidentifiedRunning?
  }

  lemma RunningOneMore(states: seq<SessionState>, s: SessionState)
    ensures RunningIdentities(states + [s]) == RunningIdentities(states) + if s.Running? then [Identity(|states|, s.pid)] else []
  {
    assert (states + [s])[..|states|] == states;
  }

  /** Recorded identities are ordered, distinct, in range and identify exactly the running kdamonds. */
  lemma {:induction false} RunningIsValid(states: seq<SessionState>)
    requires PidsFit(states)
    ensures ValidIdentities(RunningIdentities(states), |states|)
    ensures forall i: nat, p: nat :: Identity(i, p) in RunningIdentities(states) <==> i < |states| && states[i] == Running(p)
    decreases |states|
  {
    if states != [] {
      var init, s := states[..|states| - 1], states[|states| - 1];
      assert states == init + [s] && s in states;
      RunningOneMore(init, s);
      forall x | x in init ensures x in states {
      }
      RunningIsValid(init);
      RunningGrows(RunningIdentities(init), |init|, s);
      hide RunningIdentities, ValidIdentities;
    }
  }

  lemma RunningGrows(identities: seq<Identity>, count: nat, s: SessionState)
    requires ValidIdentities(identities, count) && (s.Running? ==> 1 <= s.pid <= I32_MAX)
    ensures ValidIdentities(identities + (if s.Running? then [Identity(count, s.pid)] else []), count + 1)
  {
    var all := identities + (if s.Running? then [Identity(count, s.pid)] else []);
    assert forall k | 0 <= k < |identities| :: all[k] == identities[k];
  }

  /** Every listed identity is running under its pid, and every other kdamond is staged. */
  ghost predicate Marked(states: seq<SessionState>, identities: seq<Identity>) {
    && (forall i | 0 <= i < |states| :: states[i].Staged? || states[i].Running?)
    && forall i: nat, p: nat | i < |states| :: states[i] == Running(p) <==> Identity(i, p) in identities
  }

  lemma MarkOne(states: seq<SessionState>, identities: seq<Identity>, next: Identity)
    requires Marked(states, identities) && next.index < |states|
    requires forall k | 0 <= k < |identities| :: identities[k].index < next.index
    ensures Marked(states[next.index := Running(next.pid)], identities + [next])
  {
    forall p: nat ensures Identity(next.index, p) !in identities {
    }
  }

  lemma NoneMarked(count: nat)
    ensures Marked(seq(count, _ => Staged), [])
  {
  }

  predicate Ordered(identities: seq<Identity>) {
    forall k | 0 < k < |identities| :: identities[k - 1].index < identities[k].index
  }

  /** `attach_persistent`: every kdamond staged, except those the receipt identifies. */
  method AttachStates(count: nat, identities: seq<Identity>) returns (r: Result<seq<SessionState>>)
    ensures r.Ok? <==> (forall k | 0 <= k < |identities| :: identities[k].index < count) && Ordered(identities)
    ensures r.Ok? ==> |r.value| == count && Marked(r.value, identities)
    ensures r.Err? ==> r.error == InvalidReceipt
  {
    hide Marked;
    var states: seq<SessionState> := seq(count, _ => Staged);
    NoneMarked(count);
    assert identities[..0] == [];
    for n := 0 to |identities|
      invariant |states| == count && Marked(states, identities[..n])
      invariant forall k | 0 < k < n :: identities[k - 1].index < identities[k].index
      invariant forall k | 0 <= k < n :: identities[k].index < count && identities[k].index <= identities[n - 1].index
    {
      var next := identities[n];
      if next.index >= count { return Err(InvalidReceipt); }
      if n > 0 && identities[n - 1].index >= next.index { return Err(InvalidReceipt); }
      assert identities[..n + 1] == identities[..n] + [next];
      MarkOne(states, identities[..n], next);
      states := states[next.index := Running(next.pid)];
    }
    assert identities[..|identities|] == identities;
    r := Ok(states);
  }

  /** A session with every running kdamond identified comes back from its receipt as it was. */
  lemma AttachRestoresStates(states: seq<SessionState>, attached: seq<SessionState>)
    requires PidsFit(states) && Identified(states)
    requires |attached| == |states| && Marked(attached, RunningIdentities(states))
    ensures attached == states
  {
    RunningIsValid(states);
    forall i | 0 <= i < |states| ensures attached[i] == states[i] {
      assert states[i] in states;
      if states[i].Running? {
        assert Identity(i, states[i].pid) in RunningIdentities(states);
      } else if attached[i].Running? {
        assert Identity(i, attached[i].pid) in RunningIdentities(states);
      }
    }
  }

  /** A receipt survives being attached and captured again: the states it is turned into
      record the same identities. */
  lemma AttachKeepsIdentities(states: seq<SessionState>, identities: seq<Identity>)
    requires Marked(states, identities) && ValidIdentities(identities, |states|)
    ensures RunningIdentities(states) == identities && Identified(states) && PidsFit(states)
  {
    forall s | s in states ensures !s.UnidentifiedRunning? && (s.Running? ==> 1 <= s.pid <= I32_MAX) {
      var i: nat :| i < |states| && states[i] == s;
      if s.Running? { assert Identity(i, s.pid) in identities; }
    }
    RunningIsValid(states);
    forall x ensures x in RunningIdentities(states) <==> x in identities {
      if x in RunningIdentities(states) || x in identities { assert x == Identity(x.index, x.pid); }
    }
    SameIdentities(RunningIdentities(states), identities, |states|);
  }

  /** Ordered lists of the same identities are the same list. */
  lemma {:induction false} SameIdentities(a: seq<Identity>, b: seq<Identity>, count: nat)
    requires ValidIdentities(a, count) && ValidIdentities(b, count)
    requires forall x :: x in a <==> x in b
    ensures a == b
    decreases |a|
  {
    if a == [] {
      Inhabited(b);
    } else {
      assert a[0] in b;
      var ia, la, ib, lb := a[..|a| - 1], a[|a| - 1], b[..|b| - 1], b[|b| - 1];
      assert a == ia + [la] && b == ib + [lb];
      LastIsHighest(ia, la, count);
      LastIsHighest(ib, lb, count);
      SameInit(ia, la, ib, lb);
      SameIdentities(ia, ib, count);
    }
  }

  lemma Inhabited(identities: seq<Identity>)
    ensures identities == [] || exists x :: x in identities
  {
    if identities != [] { assert identities[0] in identities; }
  }

  lemma SameInit(ia: seq<Identity>, la: Identity, ib: seq<Identity>, lb: Identity)
    requires forall x :: x in ia + [la] <==> x in ib + [lb]
    requires (forall x | x in ia :: x.index < la.index) && forall x | x in ib :: x.index < lb.index
    ensures la == lb && forall x :: x in ia <==> x in ib
  {
    assert la in ia + [la] && lb in ib + [lb];
    forall x ensures x in ia <==> x in ib {
      assert x in ia + [la] <==> x in ia || x == la;
      assert x in ib + [lb] <==> x in ib || x == lb;
    }
  }

  lemma {:induction false} LastIsHighest(init: seq<Identity>, last: Identity, count: nat)
    requires ValidIdentities(init + [last], count)
    ensures ValidIdentities(init, count) && forall x | x in init :: x.index < last.index
    decreases |init|
  {
    var all := init + [last];
    assert forall k | 0 <= k < |init| :: all[k] == init[k];
    if init != [] {
      var rest, y := init[..|init| - 1], init[|init| - 1];
      assert init == rest + [y] && all[|init| - 1] == y && all[|init|] == last;
      LastIsHighest(rest, y, count);
    }
  }
}
