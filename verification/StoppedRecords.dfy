/** What the record says about stopped hierarchies: when every kdamond was seen off. */
module StoppedRecords {
  import opened Outcomes
  import opened SysfsModel

  /** The record of one complete check that `count` kdamonds are off. */
  function StoppedRecord(count: nat): (record: seq<Event>)
    ensures |record| == count + 2 && forall k | 0 <= k < |record| :: record[k].Passive() && !record[k].ConfigurationRead?
  {
    [CountRead(Ok(count))] + seq(count, i requires 0 <= i < count => StateRead(i, Ok(Off))) + [CountRead(Ok(count))]
  }

  ghost predicate SeenStopped(trace: seq<Event>, j: nat, n: nat) {
    j + n + 2 <= |trace| && trace[j..j + n + 2] == StoppedRecord(n)
  }

  /** Before the write at `k` came such a check since `from`, and nothing but writes between them. */
  ghost predicate StoppedBefore(trace: seq<Event>, from: nat, k: nat) {
    exists j: nat, n: nat | SeenStopped(trace, j, n) :: from <= j && j + n + 2 <= k <= |trace| && forall m | j + n + 2 <= m < k :: trace[m].IsWrite()
  }

  /** Nothing was written since `earlier` but to a hierarchy just seen stopped. */
  ghost predicate OnlyWhenStopped(earlier: seq<Event>, later: seq<Event>) {
    earlier <= later && forall k | |earlier| <= k < |later| && later[k].IsWrite() :: StoppedBefore(later, |earlier|, k)
  }

  /** The last thing seen since `earlier` is that every kdamond is off. */
  ghost predicate EndsStopped(earlier: seq<Event>, later: seq<Event>) {
    exists j: nat, n: nat | SeenStopped(later, j, n) :: |earlier| <= j && j + n + 2 == |later|
  }

  /** Every kdamond was seen off since the last write, if there was one. */
  ghost predicate StoppedSinceWriting(earlier: seq<Event>, later: seq<Event>) {
    exists j: nat, n: nat | SeenStopped(later, j, n) :: |earlier| <= j && forall m | j <= m < |later| :: !later[m].IsWrite()
  }

  /** The configuration was read between two such checks, and nothing was written meanwhile. */
  ghost predicate ReadWhileStopped(earlier: seq<Event>, later: seq<Event>) {
    exists j: nat, n: nat, k: nat | ReadBetween(later, j, n, k) :: |earlier| <= j && forall m | j <= m < |later| :: !later[m].IsWrite()
  }

  ghost predicate ReadBetween(trace: seq<Event>, j: nat, n: nat, k: nat) {
    SeenStopped(trace, j, n) && j + n + 2 <= k < |trace| && trace[k].ConfigurationRead? && EndsStopped(trace[..k + 1], trace)
  }

  lemma SeenStoppedExtends(part: seq<Event>, trace: seq<Event>, j: nat, n: nat)
    requires part <= trace && SeenStopped(part, j, n)
    ensures SeenStopped(trace, j, n)
  {
    assert trace[j..j + n + 2] == part[j..j + n + 2];
  }

  lemma LookingIsWhenStopped(t0: seq<Event>, t1: seq<Event>)
    requires Looked(t0, t1)
    ensures OnlyWhenStopped(t0, t1)
  {
    assert forall k | |t0| <= k < |t1| :: t1[k].Passive();
  }

  lemma WhenStoppedTransitive(t0: seq<Event>, t1: seq<Event>, t2: seq<Event>)
    requires OnlyWhenStopped(t0, t1) && OnlyWhenStopped(t1, t2)
    ensures OnlyWhenStopped(t0, t2)
  {
    hide SeenStopped;
    forall k | |t0| <= k < |t2| && t2[k].IsWrite() ensures StoppedBefore(t2, |t0|, k) {
      if k < |t1| {
        assert t1[k] == t2[k];
        var j: nat, n: nat :| SeenStopped(t1, j, n) && |t0| <= j && j + n + 2 <= k <= |t1| && forall m | j + n + 2 <= m < k :: t1[m].IsWrite();
        SeenStoppedExtends(t1, t2, j, n);
        assert forall m | j + n + 2 <= m < k :: t2[m] == t1[m];
      } else {
        var j: nat, n: nat :| SeenStopped(t2, j, n) && |t1| <= j && j + n + 2 <= k <= |t2| && forall m | j + n + 2 <= m < k :: t2[m].IsWrite();
        assert |t0| <= j;
      }
    }
  }

  /** A check, and then writes. */
  lemma CheckedWrites(t0: seq<Event>, n: nat, t1: seq<Event>, t2: seq<Event>)
    requires t1 == t0 + StoppedRecord(n) && WritesOnly(t1, t2)
    ensures OnlyWhenStopped(t0, t2)
  {
    assert t1[|t0|..|t0| + n + 2] == StoppedRecord(n);
    SeenStoppedExtends(t1, t2, |t0|, n);
    forall k | |t0| <= k < |t1| ensures t2[k].Passive() { assert t2[k] == StoppedRecord(n)[k - |t0|]; }
  }

  /** The same after looking that ended with a check. */
  lemma EndThenWritten(t0: seq<Event>, t1: seq<Event>, t2: seq<Event>)
    requires Looked(t0, t1) && EndsStopped(t0, t1) && WritesOnly(t1, t2)
    ensures OnlyWhenStopped(t0, t2)
  {
    var j: nat, n: nat :| SeenStopped(t1, j, n) && |t0| <= j && j + n + 2 == |t1|;
    SeenStoppedExtends(t1, t2, j, n);
    forall k | |t0| <= k < |t1| ensures t2[k].Passive() { assert t2[k] == t1[k]; }
  }

  lemma NotingIsWhenStopped(t0: seq<Event>, t1: seq<Event>, e: Event)
    requires OnlyWhenStopped(t0, t1) && !e.IsWrite()
    ensures OnlyWhenStopped(t0, t1 + [e])
  {
    hide SeenStopped;
    var t2 := t1 + [e];
    forall k | |t0| <= k < |t2| && t2[k].IsWrite() ensures StoppedBefore(t2, |t0|, k) {
      assert t1[k] == t2[k];
      var j: nat, n: nat :| SeenStopped(t1, j, n) && |t0| <= j && j + n + 2 <= k <= |t1| && forall m | j + n + 2 <= m < k :: t1[m].IsWrite();
      SeenStoppedExtends(t1, t2, j, n);
      assert forall m | j + n + 2 <= m < k :: t2[m] == t1[m];
    }
  }

  lemma CheckEnds(t0: seq<Event>, n: nat)
    ensures EndsStopped(t0, t0 + StoppedRecord(n))
  {
    var t1 := t0 + StoppedRecord(n);
    assert t1[|t0|..|t0| + n + 2] == StoppedRecord(n);
    assert SeenStopped(t1, |t0|, n);
  }

  lemma EndsStoppedEarlier(t0: seq<Event>, t1: seq<Event>, t2: seq<Event>)
    requires EndsStopped(t1, t2) && |t0| <= |t1|
    ensures EndsStopped(t0, t2)
  {
    var j: nat, n: nat :| SeenStopped(t2, j, n) && |t1| <= j && j + n + 2 == |t2|;
  }

  /** Reading after a check. */
  lemma StoppedThenLooked(t0: seq<Event>, t1: seq<Event>, t2: seq<Event>)
    requires EndsStopped(t0, t1) && Looked(t1, t2)
    ensures StoppedSinceWriting(t0, t2)
  {
    var j: nat, n: nat :| SeenStopped(t1, j, n) && |t0| <= j && j + n + 2 == |t1|;
    NothingWritten(t1, t2, j, n);
  }

  lemma NothingWritten(t1: seq<Event>, t2: seq<Event>, j: nat, n: nat)
    requires SeenStopped(t1, j, n) && j + n + 2 == |t1| && Looked(t1, t2)
    ensures SeenStopped(t2, j, n) && forall m | j <= m < |t2| :: !t2[m].IsWrite()
  {
    SeenStoppedExtends(t1, t2, j, n);
    forall m | j <= m < |t2| ensures !t2[m].IsWrite() {
      if m < |t1| {
        assert t2[m] == t1[m] == t1[j..j + n + 2][m - j];
      } else {
        assert t2[m].Passive();
      }
    }
  }

  lemma StoppedSinceWritingEarlier(t0: seq<Event>, t1: seq<Event>, t2: seq<Event>)
    requires StoppedSinceWriting(t1, t2) && |t0| <= |t1|
    ensures StoppedSinceWriting(t0, t2)
  {
    hide SeenStopped;
    var j: nat, n: nat :| SeenStopped(t2, j, n) && |t1| <= j && forall m | j <= m < |t2| :: !t2[m].IsWrite();
  }

  /** A check, a reading, and a check again. */
  lemma CheckedReading(t0: seq<Event>, t1: seq<Event>, t2: seq<Event>, t3: seq<Event>)
    requires EndsStopped(t0, t1) && Looked(t1, t2) && |t1| < |t2| && t2[|t2| - 1].ConfigurationRead?
    requires Looked(t2, t3) && EndsStopped(t2, t3)
    ensures ReadWhileStopped(t0, t3)
  {
    LookedTransitive(t1, t2, t3);
    var j: nat, n: nat :| SeenStopped(t1, j, n) && |t0| <= j && j + n + 2 == |t1|;
    NothingWritten(t1, t3, j, n);
    assert t3[..|t2|] == t2 && t3[|t2| - 1] == t2[|t2| - 1];
    assert ReadBetween(t3, j, n, |t2| - 1);
  }

  lemma ReadWhileStoppedEarlier(t0: seq<Event>, t1: seq<Event>, t2: seq<Event>)
    requires ReadWhileStopped(t1, t2) && |t0| <= |t1|
    ensures ReadWhileStopped(t0, t2)
  {
    hide ReadBetween;
    var j: nat, n: nat, k: nat :| ReadBetween(t2, j, n, k) && |t1| <= j && forall m | j <= m < |t2| :: !t2[m].IsWrite();
  }
}
