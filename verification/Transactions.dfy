/** Transactions over the whole stopped hierarchy: staging with restoration on failure,
    capability probing, replacing what is staged, and closing a session. */
module Transactions {
  import opened Outcomes
  import opened Paths
  import opened KernelTree
  import opened Config
  import opened SysfsModel
  import opened Snapshots
  import opened Retries
  import opened StagingRecords
  import opened StoppedRecords

  // ---------- what the record of accesses shows ----------

  /** The most recent event is a capture equal to `snapshot`. */
  ghost predicate EndsCapturing(trace: seq<Event>, snapshot: seq<Entry>) {
    trace != [] && trace[|trace| - 1] == Captured(Ok(snapshot))
  }

  /** `snapshot` was captured since `earlier` before anything was written. */
  ghost predicate CapturedFirst(earlier: seq<Event>, later: seq<Event>, snapshot: seq<Entry>) {
    exists k | |earlier| <= k < |later| :: later[k] == Captured(Ok(snapshot)) && forall m | |earlier| <= m < k :: later[m].Passive()
  }

  /** Since `earlier`, a configuration realising the request was read, and nothing was written after that. */
  ghost predicate ReadBackSince(earlier: seq<Event>, later: seq<Event>, config: DamonConfig) {
    exists k | |earlier| <= k < |later| && later[k].ConfigurationRead? && later[k].config.Ok? ::
      && EquivalentAfterKernelNormalization(config, later[k].config.value)
      && forall m | k < m < |later| :: later[m].Passive()
  }

  lemma CapturedFirstExtends(earlier: seq<Event>, middle: seq<Event>, later: seq<Event>, snapshot: seq<Entry>)
    requires CapturedFirst(earlier, middle, snapshot) && middle <= later
    ensures CapturedFirst(earlier, later, snapshot)
  {
    var k :| |earlier| <= k < |middle| && middle[k] == Captured(Ok(snapshot)) && forall m | |earlier| <= m < k :: middle[m].Passive();
    assert later[k] == middle[k];
    assert forall m | |earlier| <= m < k :: later[m] == middle[m];
  }

  lemma CapturedNowFirst(earlier: seq<Event>, later: seq<Event>, snapshot: seq<Entry>)
    requires Looked(earlier, later) && |earlier| < |later| && EndsCapturing(later, snapshot)
    ensures CapturedFirst(earlier, later, snapshot)
  {
  }

  lemma ReadBackNow(earlier: seq<Event>, middle: seq<Event>, later: seq<Event>, read: DamonConfig, config: DamonConfig)
    requires |earlier| < |middle| && middle[|middle| - 1] == ConfigurationRead(Ok(read)) && Looked(middle, later)
    requires EquivalentAfterKernelNormalization(config, read)
    ensures ReadBackSince(earlier, later, config)
  {
    var k := |middle| - 1;
    assert later[k] == middle[k];
  }

  lemma ReadBackEarlier(earlier: seq<Event>, middle: seq<Event>, later: seq<Event>, config: DamonConfig)
    requires earlier <= middle && ReadBackSince(middle, later, config)
    ensures ReadBackSince(earlier, later, config)
  {
  }

  // ---------- every kdamond is off ----------

  /** Failures of the check that every kdamond is off. */
  predicate IsStopFailure(e: Error) {
    e.IsAccessFailure() || e.KdamondRunning? || e == UnexpectedKdamondState || e == OwnershipLost(CountChanged)
  }

  /** Succeeds only after reading the count, every state as off, and the same count again. */
  method EnsureStopped(sys: Sysfs) returns (r: Result<()>)
    requires sys.Valid()
    modifies sys
    ensures sys.Valid() && sys.Still() && Looked(old(sys.trace), sys.trace)
    ensures r.Ok? ==> exists n :: sys.trace == old(sys.trace) + StoppedRecord(n)
    ensures r.Err? ==> IsStopFailure(r.error)
    ensures old(sys.Idle()) ==> r.Ok?
    ensures r.Err? && sys.exclusive ==> r.error != OwnershipLost(CountChanged)
  {
    hide SysfsModel.Sysfs.Valid, Looked, CountOf;
    ghost var t0, f0 := sys.trace, sys.files;
    if sys.Idle() { EveryThreadOff(sys); }
    LookedNothing(t0);
    var count := sys.ReadCount();
    LookedStep(t0, t0, CountRead(count));
    if count.Err? { return Err(count.error); }
    ghost var n := count.value;
    ghost var states := seq(n, i requires 0 <= i < n => StateRead(i, Ok(Off)));
    assert states[..0] == [];
    for i := 0 to count.value
      invariant sys.Valid() && sys.Still() && Looked(t0, sys.trace)
      invariant sys.trace == t0 + [CountRead(Ok(n))] + states[..i]
    {
      ghost var before := sys.trace;
      var state := sys.ReadState(i);
      LookedStep(t0, before, StateRead(i, state));
      if state.Err? { return Err(state.error); }
      if state.value == On { return Err(KdamondRunning(i)); }
      if state.value == Unknown { return Err(UnexpectedKdamondState); }
      assert states[..i + 1] == states[..i] + [StateRead(i, Ok(Off))];
    }
    ghost var before, f1 := sys.trace, sys.files;
    assert states[..n] == states;
    var again := sys.ReadCount();
    LookedStep(t0, before, CountRead(again));
    if again.Err? { return Err(again.error); }
    if sys.exclusive { SameCount(sys, f0, f1); }
    if again.value != count.value { return Err(OwnershipLost(CountChanged)); }
    assert sys.trace == t0 + StoppedRecord(n);
    r := Ok(());
  }

  lemma SameCount(sys: Sysfs, t: Tree, u: Tree)
    requires sys.Valid() && Calm(sys.retuned, t, u)
    ensures CountOf(sys.schema, t, sys.schema.top) == CountOf(sys.schema, u, sys.schema.top)
  {
    assert IsReconstructionCount(sys.schema.top);
  }

  method RetryStopped(sys: Sysfs) returns (r: Result<()>)
    requires sys.Valid()
    modifies sys
    ensures sys.Valid() && sys.Still() && Looked(old(sys.trace), sys.trace)
    ensures r.Ok? ==> EndsStopped(old(sys.trace), sys.trace)
    ensures r.Err? ==> IsStopFailure(r.error)
    ensures old(sys.Idle()) ==> r.Ok?
    ensures r.Err? && sys.exclusive ==> r.error != OwnershipLost(CountChanged)
  {
    hide SysfsModel.Sysfs.Valid, Looked, EndsStopped;
    r := EnsureStopped(sys);
    if r.Ok? { SeenToEnd(old(sys.trace), sys.trace); }
    var retries := 0;
    while r.Err? && r.error.Busy? && retries < MAX_RETRIES
      invariant sys.Valid() && sys.Still() && Looked(old(sys.trace), sys.trace)
      invariant r.Ok? ==> EndsStopped(old(sys.trace), sys.trace)
      invariant r.Err? ==> IsStopFailure(r.error)
      invariant old(sys.Idle()) ==> r.Ok?
      invariant r.Err? && sys.exclusive ==> r.error != OwnershipLost(CountChanged)
      decreases MAX_RETRIES - retries
    {
      ghost var before := sys.trace;
      r := EnsureStopped(sys);
      LookedExtends(old(sys.trace), before);
      if r.Ok? {
        SeenToEnd(before, sys.trace);
        EndsStoppedEarlier(old(sys.trace), before, sys.trace);
      }
      LookedTransitive(old(sys.trace), before, sys.trace);
      retries := retries + 1;
    }
  }

  lemma SeenToEnd(t0: seq<Event>, t1: seq<Event>)
    requires exists n :: t1 == t0 + StoppedRecord(n)
    ensures EndsStopped(t0, t1)
  {
    var n :| t1 == t0 + StoppedRecord(n);
    CheckEnds(t0, n);
  }

  lemma SeenThenWritten(t0: seq<Event>, t1: seq<Event>, t2: seq<Event>)
    requires (exists n :: t1 == t0 + StoppedRecord(n)) && WritesOnly(t1, t2)
    ensures OnlyWhenStopped(t0, t2)
  {
    var n :| t1 == t0 + StoppedRecord(n);
    CheckedWrites(t0, n, t1, t2);
  }

  // ---------- restoring a captured hierarchy ----------

  /** A complete comparison: everything is captured afresh. */
  method RetryMatchesComplete(sys: Sysfs, snapshot: seq<Entry>) returns (r: Result<bool>)
    requires sys.Valid() && Sorted(snapshot)
    modifies sys
    ensures sys.Valid() && sys.Still() && Looked(old(sys.trace), sys.trace) && |old(sys.trace)| < |sys.trace|
    ensures r == Ok(true) ==> EndsCapturing(sys.trace, snapshot)
    ensures r == Ok(true) && sys.exclusive ==> Calm(sys.retuned, Values(snapshot), sys.files)
    ensures sys.exclusive && sys.retuned == {} && old(sys.files) == Values(snapshot) ==> r != Ok(false)
    ensures old(sys.Idle()) ==> r.Ok? && (old(sys.files) == Values(snapshot) ==> r.value)
    ensures r.Err? ==> r.error.IsAccessFailure()
  {
    hide SysfsModel.Sysfs.Valid, Looked, Sorted, Values, Consistent;
    var current := RetryCapture(sys);
    if current.Err? { return Err(current.error); }
    if sys.exclusive && sys.retuned == {} && old(sys.files) == Values(snapshot) {
      CalmIsEqual(old(sys.files), Values(current.value));
      SameValuesSameCapture(current.value, snapshot);
    }
    if old(sys.Idle()) && old(sys.files) == Values(snapshot) { SameValuesSameCapture(current.value, snapshot); }
    r := Ok(current.value == snapshot);
  }

  /** The captured hierarchy is the staged one again. */
  ghost predicate Restored(sys: Sysfs, snapshot: seq<Entry>)
    requires Sorted(snapshot)
    reads sys
  {
    EndsCapturing(sys.trace, snapshot) && (sys.exclusive ==> Calm(sys.retuned, Values(snapshot), sys.files))
  }

  /** Puts a captured hierarchy back, checking before and after that nothing runs. Succeeds
      only on a fresh capture equal to the old one. Undisturbed, restoration itself cannot
      fail: only an access, or a kdamond somebody else started, can stop it. */
  method RestoreConfiguration(sys: Sysfs, snapshot: seq<Entry>) returns (r: Result<()>)
    requires sys.Valid() && Sorted(snapshot) && Consistent(sys.schema, Values(snapshot))
    modifies sys
    ensures sys.Valid() && Uncommanded(old(sys.trace), sys.trace)
    ensures r.Ok? ==> Restored(sys, snapshot) && StoppedSinceWriting(old(sys.trace), sys.trace)
    ensures OnlyWhenStopped(old(sys.trace), sys.trace)
    ensures r.Err? && sys.exclusive && sys.retuned == {} ==> IsStopFailure(r.error) && r.error != OwnershipLost(CountChanged)
    ensures old(sys.Idle()) ==> r.Ok? && sys.Idle()
    ensures r.Err? ==> !r.error.Rollback?
  {
    hide SysfsModel.Sysfs.Valid, Looked, Sorted, Values, Consistent, Uncommanded, OnlyWhenStopped,
         StoppedSinceWriting, EndsStopped;
    ghost var t0 := sys.trace;
    r := RetryStopped(sys);
    LookedIsUncommanded(t0, sys.trace);
    LookingIsWhenStopped(t0, sys.trace);
    if r.Err? { return; }
    ghost var t1 := sys.trace;
    r := RetryRestore(sys, snapshot);
    UncommandedTransitive(t0, t1, sys.trace);
    WhenStoppedTransitive(t0, t1, sys.trace);
    if r.Err? { return; }
    ghost var t2, f2 := sys.trace, sys.files;
    r := RetryStopped(sys);
    LookedIsUncommanded(t2, sys.trace);
    LookingIsWhenStopped(t2, sys.trace);
    WhenStoppedTransitive(t0, t2, sys.trace);
    UncommandedExtends(t0, t2);
    UncommandedTransitive(t0, t2, sys.trace);
    if r.Err? { return; }
    ghost var t3 := sys.trace;
    if sys.exclusive && sys.retuned == {} { CalmIsEqual(f2, sys.files); }
    var matches := RetryMatchesComplete(sys, snapshot);
    LookedIsUncommanded(t3, sys.trace);
    LookingIsWhenStopped(t3, sys.trace);
    WhenStoppedTransitive(t0, t3, sys.trace);
    StoppedThenLooked(t2, t3, sys.trace);
    StoppedSinceWritingEarlier(t0, t2, sys.trace);
    UncommandedTransitive(t0, t3, sys.trace);
    if matches.Err? { return Err(matches.error); }
    r := if matches.value then Ok(()) else Err(OwnershipLost(ValuesChanged));
  }

  method RetryRestore(sys: Sysfs, snapshot: seq<Entry>) returns (r: Result<()>)
    requires sys.Valid() && Sorted(snapshot) && Consistent(sys.schema, Values(snapshot))
    modifies sys
    ensures sys.Valid() && Uncommanded(old(sys.trace), sys.trace)
    ensures r.Ok? && sys.exclusive && sys.retuned == {} ==> sys.files == Values(snapshot)
    ensures r.Err? && sys.exclusive && sys.retuned == {} ==> IsStopFailure(r.error) && r.error != OwnershipLost(CountChanged)
    ensures old(sys.Idle()) ==> r.Ok? && sys.Idle() && sys.files == Values(snapshot)
    ensures OnlyWhenStopped(old(sys.trace), sys.trace)
    ensures r.Err? ==> !r.error.Rollback?
  {
    hide SysfsModel.Sysfs.Valid, Looked, Sorted, Values, Consistent, Uncommanded, OnlyWhenStopped;
    r := RestoreOnce(sys, snapshot);
    var retries := 0;
    while r.Err? && r.error.Busy? && retries < MAX_RETRIES
      invariant sys.Valid() && Uncommanded(old(sys.trace), sys.trace)
      invariant r.Ok? && sys.exclusive && sys.retuned == {} ==> sys.files == Values(snapshot)
      invariant r.Err? && sys.exclusive && sys.retuned == {} ==> IsStopFailure(r.error) && r.error != OwnershipLost(CountChanged)
      invariant old(sys.Idle()) ==> r.Ok? && sys.Idle() && sys.files == Values(snapshot)
      invariant OnlyWhenStopped(old(sys.trace), sys.trace)
      invariant r.Err? ==> !r.error.Rollback?
      decreases MAX_RETRIES - retries
    {
      ghost var before := sys.trace;
      r := RestoreOnce(sys, snapshot);
      UncommandedTransitive(old(sys.trace), before, sys.trace);
      WhenStoppedTransitive(old(sys.trace), before, sys.trace);
      retries := retries + 1;
    }
  }

  method RestoreOnce(sys: Sysfs, snapshot: seq<Entry>) returns (r: Result<()>)
    requires sys.Valid() && Sorted(snapshot) && Consistent(sys.schema, Values(snapshot))
    modifies sys
    ensures sys.Valid() && Uncommanded(old(sys.trace), sys.trace)
    ensures r.Ok? && sys.exclusive && sys.retuned == {} ==> sys.files == Values(snapshot)
    ensures r.Err? && sys.exclusive && sys.retuned == {} ==> IsStopFailure(r.error) && r.error != OwnershipLost(CountChanged)
    ensures old(sys.Idle()) ==> r.Ok? && sys.Idle() && sys.files == Values(snapshot)
    ensures OnlyWhenStopped(old(sys.trace), sys.trace)
    ensures r.Err? ==> !r.error.Rollback?
  {
    hide SysfsModel.Sysfs.Valid, Looked, Sorted, Values, Consistent, Uncommanded, WritesOnly, Agrees, OnlyWhenStopped;
    ghost var t0 := sys.trace;
    r := EnsureStopped(sys);
    LookedIsUncommanded(t0, sys.trace);
    LookingIsWhenStopped(t0, sys.trace);
    if r.Err? { return; }
    ghost var t1 := sys.trace;
    r := RestoreExcept(sys, snapshot, {});
    UncommandedTransitive(t0, t1, sys.trace);
    SeenThenWritten(t0, t1, sys.trace);
    if old(sys.Idle()) || (r.Ok? && sys.exclusive && sys.retuned == {}) {
      assert sys.retuned == {} ==> {} + sys.retuned == {};
      AgreesIsCalm(snapshot, {}, sys.files);
      CalmIsEqual(Values(snapshot), sys.files);
    }
  }

  // ---------- staging and verifying ----------

  /** One attempt at staging: any leaves in any order, given up at any write. */
  method StageAny(sys: Sysfs) returns (r: Result<()>)
    requires sys.Valid()
    modifies sys
    ensures sys.Valid() && Uncommanded(old(sys.trace), sys.trace)
    ensures old(sys.Idle()) ==> sys.Idle()
    ensures WritesOnly(old(sys.trace), sys.trace)
    ensures r.Err? ==> !r.error.Rollback?
  {
    hide SysfsModel.Sysfs.Valid, Uncommanded, Legal, AfterWrite;
    UncommandedNothing(sys.trace);
    var steps: int := *;
    while steps > 0
      invariant sys.Valid() && Uncommanded(old(sys.trace), sys.trace) && old(sys.trace) <= sys.trace
      invariant old(sys.Idle()) ==> sys.Idle()
      invariant WritesOnly(old(sys.trace), sys.trace)
    {
      steps := steps - 1;
      var p: Path := *;
      var v: string := *;
      ghost var before := sys.trace;
      r := sys.Write(p, v);
      WriteUncommanded(old(sys.trace), before, if r.Ok? then Wrote(p) else WriteFailed(p));
      if r.Err? { return; }
    }
    var unsupported: bool := *;
    r := if unsupported then Err(UnsupportedFeature) else Ok(());
  }

  /** Such an attempt, for a request, on record. */
  method StageRequest(sys: Sysfs, config: DamonConfig) returns (r: Result<()>)
    requires sys.Valid()
    modifies sys
    ensures sys.Valid() && Uncommanded(old(sys.trace), sys.trace)
    ensures old(sys.Idle()) ==> sys.Idle()
    ensures StagingEnds(sys.trace, |old(sys.trace)|, config, None, r)
    ensures sys.trace[..|sys.trace| - 1] + [StagingDone(config, None, r)] == sys.trace && WritesOnly(old(sys.trace), sys.trace[..|sys.trace| - 1])
    ensures r.Err? ==> !r.error.Rollback?
  {
    hide SysfsModel.Sysfs.Valid, Uncommanded;
    r := StageAny(sys);
    UncommandedExtends(old(sys.trace), sys.trace);
    WriteUncommanded(old(sys.trace), sys.trace, StagingDone(config, None, r));
    ghost var written := sys.trace;
    sys.NoteStaging(config, None, r);
    assert sys.trace[..|sys.trace| - 1] == written;
  }

  method StageStopped(sys: Sysfs, config: DamonConfig) returns (r: Result<()>)
    requires sys.Valid()
    modifies sys
    ensures sys.Valid() && Uncommanded(old(sys.trace), sys.trace)
    ensures old(sys.Idle()) ==> sys.Idle() && StagingEnds(sys.trace, |old(sys.trace)|, config, None, r)
    ensures OnlyWhenStopped(old(sys.trace), sys.trace)
    ensures r.Err? ==> !r.error.Rollback?
  {
    hide SysfsModel.Sysfs.Valid, Looked, Uncommanded, WritesOnly, OnlyWhenStopped;
    r := EnsureStopped(sys);
    LookedIsUncommanded(old(sys.trace), sys.trace);
    LookedExtends(old(sys.trace), sys.trace);
    LookingIsWhenStopped(old(sys.trace), sys.trace);
    if r.Err? { return; }
    ghost var before := sys.trace;
    r := StageRequest(sys, config);
    UncommandedTransitive(old(sys.trace), before, sys.trace);
    ghost var written := sys.trace[..|sys.trace| - 1];
    SeenThenWritten(old(sys.trace), before, written);
    NotingIsWhenStopped(old(sys.trace), written, StagingDone(config, None, r));
  }

  method RetryStage(sys: Sysfs, config: DamonConfig) returns (r: Result<()>)
    requires sys.Valid()
    modifies sys
    ensures sys.Valid() && Uncommanded(old(sys.trace), sys.trace)
    ensures old(sys.Idle()) ==> sys.Idle() && StagingEnds(sys.trace, |old(sys.trace)|, config, None, r)
    ensures OnlyWhenStopped(old(sys.trace), sys.trace)
    ensures r.Err? ==> !r.error.Rollback?
  {
    hide SysfsModel.Sysfs.Valid, Uncommanded, OnlyWhenStopped;
    r := StageStopped(sys, config);
    var retries := 0;
    while r.Err? && r.error.Busy? && retries < MAX_RETRIES
      invariant sys.Valid() && Uncommanded(old(sys.trace), sys.trace)
      invariant old(sys.Idle()) ==> sys.Idle() && StagingEnds(sys.trace, |old(sys.trace)|, config, None, r)
      invariant OnlyWhenStopped(old(sys.trace), sys.trace)
      invariant r.Err? ==> !r.error.Rollback?
      decreases MAX_RETRIES - retries
    {
      ghost var before := sys.trace;
      r := StageStopped(sys, config);
      UncommandedTransitive(old(sys.trace), before, sys.trace);
      WhenStoppedTransitive(old(sys.trace), before, sys.trace);
      retries := retries + 1;
    }
  }

  /** The staged tree reads back as the request, and the capture is of that tree. */
  ghost predicate StagedAs(sys: Sysfs, earlier: seq<Event>, config: DamonConfig, entries: seq<Entry>)
    reads sys
  {
    && Sorted(entries) && Consistent(sys.schema, Values(entries))
    && ReadBackSince(earlier, sys.trace, config)
    && (sys.exclusive ==>
          && Calm(sys.retuned, Values(entries), sys.files)
          && exists t: Tree :: Reads(sys, t, config))
  }

  /** `t` is the staged tree, retuned leaves apart, and reads back as the request. */
  ghost predicate Reads(sys: Sysfs, t: Tree, config: DamonConfig)
    reads sys
  {
    Calm(sys.retuned, t, sys.files) && sys.reader(t).Some? && EquivalentAfterKernelNormalization(config, sys.reader(t).value)
  }

  method StageAndVerify(sys: Sysfs, config: DamonConfig) returns (r: Result<seq<Entry>>)
    requires sys.Valid()
    modifies sys
    ensures sys.Valid() && Uncommanded(old(sys.trace), sys.trace)
    ensures r.Ok? ==> StagedAs(sys, old(sys.trace), config, r.value)
    ensures OnlyWhenStopped(old(sys.trace), sys.trace)
    ensures r.Ok? ==> ReadWhileStopped(old(sys.trace), sys.trace)
    ensures r.Err? ==> !r.error.Rollback?
    ensures old(sys.Idle()) ==> sys.Idle() && (StagedWell(sys.trace, |old(sys.trace)|, false) ==> r.Ok?)
  {
    hide SysfsModel.Sysfs.Valid, Looked, Uncommanded, StagedAs, Sorted, Values, Consistent, StagedWell, StagingEnds,
         Misread, OnlyWhenStopped, ReadWhileStopped;
    ghost var t0 := sys.trace;
    var staged := RetryStage(sys, config);
    ghost var t1 := sys.trace;
    LookedNothing(t1);
    if staged.Err? {
      if old(sys.Idle()) { StagedBadly(|t0|, t1, t1, config, None, staged, false); }
      return Err(staged.error);
    }
    r := VerifyStage(sys, config);
    LookedIsUncommanded(t1, sys.trace);
    UncommandedTransitive(t0, t1, sys.trace);
    LookingIsWhenStopped(t1, sys.trace);
    WhenStoppedTransitive(t0, t1, sys.trace);
    if r.Ok? {
      StagedEarlier(sys, t0, t1, config, r.value);
      UncommandedExtends(t0, t1);
      ReadWhileStoppedEarlier(t0, t1, sys.trace);
    } else if old(sys.Idle()) {
      StagedBadly(|t0|, t1, sys.trace, config, None, staged, false);
    }
  }

  lemma StagedEarlier(sys: Sysfs, t0: seq<Event>, t1: seq<Event>, config: DamonConfig, entries: seq<Entry>)
    requires StagedAs(sys, t1, config, entries) && Uncommanded(t0, t1)
    ensures StagedAs(sys, t0, config, entries)
  {
    ReadBackEarlier(t0, t1, sys.trace, config);
  }

  method VerifyStage(sys: Sysfs, config: DamonConfig) returns (r: Result<seq<Entry>>)
    requires sys.Valid()
    modifies sys
    ensures sys.Valid() && Looked(old(sys.trace), sys.trace)
    ensures r.Ok? ==> StagedAs(sys, old(sys.trace), config, r.value)
    ensures r.Ok? ==> ReadWhileStopped(old(sys.trace), sys.trace)
    ensures r.Err? ==> !r.error.Rollback?
    ensures old(sys.Idle()) ==> sys.Idle() && (r.Err? ==> Misread(old(sys.trace), sys.trace, config, None, false))
  {
    hide SysfsModel.Sysfs.Valid, Looked, Sorted, Values, Consistent, EquivalentAfterKernelNormalization, Agrees,
         ReadBackSince, Reads, StagedAs, Misread, EndsStopped, ReadWhileStopped;
    ghost var t0 := sys.trace;
    var stopped := RetryStopped(sys);
    if stopped.Err? { return Err(stopped.error); }
    ghost var t1 := sys.trace;
    r := RetryCapture(sys);
    LookedTransitive(t0, t1, sys.trace);
    if r.Err? { return; }
    ghost var t2 := sys.trace;
    var read, seen := RetryConfiguration(sys);
    LookedTransitive(t0, t2, sys.trace);
    LookedExtends(t0, t2);
    if read.Err? || !EquivalentAfterKernelNormalization(config, read.value) { MisreadNow(t0, sys.trace, sys.trace, read, config, None, false); }
    if read.Err? { return Err(read.error); }
    if !EquivalentAfterKernelNormalization(config, read.value) { return Err(ConfigurationMismatch); }
    ghost var t3 := sys.trace;
    if sys.Idle() { CaptureAgreesNow(sys, r.value); }
    var matches := RetryMatchesExcept(sys, r.value, {});
    if matches.Err? { return Err(matches.error); }
    if !matches.value { return Err(OwnershipLost(ValuesChanged)); }
    stopped := RetryStopped(sys);
    LookedTransitive(t0, t3, sys.trace);
    LookedTransitive(t1, t2, t3);
    if stopped.Err? { return Err(stopped.error); }
    CheckedReading(t0, t1, t3, sys.trace);
    ReadBackNow(t0, t3, sys.trace, read.value, config);
    StagedNow(sys, t0, config, r.value, seen, read.value);
  }

  lemma StagedNow(sys: Sysfs, earlier: seq<Event>, config: DamonConfig, entries: seq<Entry>, seen: Tree, read: DamonConfig)
    requires Sorted(entries) && Consistent(sys.schema, Values(entries)) && ReadBackSince(earlier, sys.trace, config)
    requires sys.reader(seen) == Some(read) && EquivalentAfterKernelNormalization(config, read)
    requires sys.exclusive ==> Calm(sys.retuned, Values(entries), sys.files) && Calm(sys.retuned, seen, sys.files)
    ensures StagedAs(sys, earlier, config, entries)
  {
    if sys.exclusive { assert Reads(sys, seen, config); }
  }

  // ---------- the whole-hierarchy transaction ----------

  datatype StagedConfiguration = StagedConfiguration(previous: seq<Entry>, current: seq<Entry>)

  /** Success only with a readback equivalent to the request. An error other than a failed
      rollback leaves the record in one of two shapes: nothing was ever written, or it ends
      with a capture equal to the one taken first. */
  method StageConfigurationLocked(sys: Sysfs, config: DamonConfig) returns (r: Result<StagedConfiguration>, ghost previous: seq<Entry>)
    requires sys.Valid()
    modifies sys
    ensures sys.Valid() && Uncommanded(old(sys.trace), sys.trace)
    ensures r.Ok? ==>
              && r.value.previous == previous && Sorted(previous) && Consistent(sys.schema, Values(previous))
              && CapturedFirst(old(sys.trace), sys.trace, previous)
              && StagedAs(sys, old(sys.trace), config, r.value.current)
              && (sys.exclusive ==> Calm(sys.retuned, old(sys.files), Values(previous)))
    ensures r.Err? && !r.error.Rollback? ==>
              || Looked(old(sys.trace), sys.trace)
              || (CapturedFirst(old(sys.trace), sys.trace, previous) && EndsCapturing(sys.trace, previous))
    ensures OnlyWhenStopped(old(sys.trace), sys.trace)
    ensures r.Ok? ==> ReadWhileStopped(old(sys.trace), sys.trace)
    ensures sys.exclusive && Serving(sys, old(sys.files), config) ==> Looked(old(sys.trace), sys.trace)
    ensures old(sys.Idle()) ==> sys.Idle() && (r.Err? ==> !r.error.Rollback?)
    ensures old(sys.Idle()) && StagedWell(sys.trace, |old(sys.trace)|, false) ==> r.Ok?
    ensures r.Err? && !r.error.Rollback? && sys.exclusive ==> Calm(sys.retuned, old(sys.files), sys.files)
  {
    hide SysfsModel.Sysfs.Valid, Looked, Uncommanded, StagedAs, Sorted, Values, Consistent,
         EquivalentAfterKernelNormalization, CapturedFirst, EndsCapturing, StagedWell, OnlyWhenStopped,
         ReadWhileStopped, Serving;
    ghost var t0, f0 := sys.trace, sys.files;
    var captured, observed := CaptureStopped(sys);
    previous := [];
    LookedIsUncommanded(t0, sys.trace);
    LookingIsWhenStopped(t0, sys.trace);
    if captured.Err? { return Err(captured.error), previous; }
    previous := captured.value;
    if sys.exclusive && Serving(sys, f0, config) { ServingIsObserved(sys, f0, config, observed); }
    if observed.Some? && EquivalentAfterKernelNormalization(config, observed.value) {
      AlreadyStaged(sys, t0, captured.value, observed.value, config);
      return Ok(StagedConfiguration(captured.value, captured.value)), previous;
    }
    ghost var t1 := sys.trace;
    var current := StageAndVerify(sys, config);
    UncommandedTransitive(t0, t1, sys.trace);
    WhenStoppedTransitive(t0, t1, sys.trace);
    UncommandedExtends(t1, sys.trace);
    UncommandedExtends(t0, t1);
    if StagedWell(sys.trace, |t0|, false) { StagedWellEarlier(sys.trace, sys.trace, |t0|, |t1|, false); }
    CapturedFirstExtends(t0, t1, sys.trace, previous);
    if current.Ok? {
      StagedEarlier(sys, t0, t1, config, current.value);
      ReadWhileStoppedEarlier(t0, t1, sys.trace);
      return Ok(StagedConfiguration(captured.value, current.value)), previous;
    }
    ghost var t2 := sys.trace;
    var restored := RestoreConfiguration(sys, captured.value);
    UncommandedTransitive(t0, t2, sys.trace);
    WhenStoppedTransitive(t0, t2, sys.trace);
    UncommandedExtends(t2, sys.trace);
    CapturedFirstExtends(t0, t2, sys.trace, previous);
    if StagedWell(sys.trace, |t0|, false) { StagedWellEarlier(sys.trace, t2, |t0|, |t1|, false); }
    r := Err(WithRollback(current.error, restored));
    if restored.Ok? && sys.exclusive { CalmTransitive(sys.retuned, f0, Values(previous), sys.files); }
  }

  /** The observation, if there is one, was the last thing read about the configuration. */
  ghost predicate ObservedSince(sys: Sysfs, earlier: seq<Event>, observed: DamonConfig)
    reads sys
  {
    && (forall config | EquivalentAfterKernelNormalization(config, observed) :: ReadBackSince(earlier, sys.trace, config))
    && (sys.exclusive ==> exists t: Tree :: Calm(sys.retuned, t, sys.files) && sys.reader(t) == Some(observed))
  }

  lemma AlreadyStaged(sys: Sysfs, earlier: seq<Event>, entries: seq<Entry>, observed: DamonConfig, config: DamonConfig)
    requires Sorted(entries) && Consistent(sys.schema, Values(entries))
    requires sys.exclusive ==> Calm(sys.retuned, Values(entries), sys.files)
    requires ObservedSince(sys, earlier, observed) && EquivalentAfterKernelNormalization(config, observed)
    ensures StagedAs(sys, earlier, config, entries)
  {
    if sys.exclusive {
      var t: Tree :| Calm(sys.retuned, t, sys.files) && sys.reader(t) == Some(observed);
      assert Reads(sys, t, config);
    }
  }

  /** However the kernel retunes it, the staged tree reads as the request. */
  ghost predicate Serving(sys: Sysfs, t: Tree, config: DamonConfig) {
    forall u: Tree | Calm(sys.retuned, t, u) :: sys.reader(u).Some? && EquivalentAfterKernelNormalization(config, sys.reader(u).value)
  }

  lemma ServingIsObserved(sys: Sysfs, t0: Tree, config: DamonConfig, observed: Option<DamonConfig>)
    requires Serving(sys, t0, config) && Calm(sys.retuned, t0, sys.files)
    requires observed.None? ==> exists u: Tree :: Calm(sys.retuned, t0, u) && sys.reader(u).None?
    requires observed.Some? ==> exists u: Tree :: Calm(sys.retuned, u, sys.files) && sys.reader(u) == observed
    ensures observed.Some? && EquivalentAfterKernelNormalization(config, observed.value)
  {
    if observed.Some? {
      var u: Tree :| Calm(sys.retuned, u, sys.files) && sys.reader(u) == observed;
      assert Calm(sys.retuned, t0, u);
    }
  }

  /** Captures a stopped hierarchy and reads what it stages. A configuration this crate
      cannot represent is replaced rather than refused. */
  method CaptureStopped(sys: Sysfs) returns (r: Result<seq<Entry>>, observed: Option<DamonConfig>)
    requires sys.Valid()
    modifies sys
    ensures sys.Valid() && Looked(old(sys.trace), sys.trace)
    ensures sys.exclusive ==> Calm(sys.retuned, old(sys.files), sys.files)
    ensures r.Ok? ==> Sorted(r.value) && Consistent(sys.schema, Values(r.value)) && CapturedFirst(old(sys.trace), sys.trace, r.value)
    ensures r.Ok? && sys.exclusive ==>
              Calm(sys.retuned, old(sys.files), Values(r.value)) && Calm(sys.retuned, Values(r.value), sys.files)
    ensures r.Ok? && observed.Some? ==> ObservedSince(sys, old(sys.trace), observed.value)
    ensures old(sys.Idle()) ==> r.Ok? && sys.Idle()
    ensures r.Ok? ==> ReadWhileStopped(old(sys.trace), sys.trace)
    ensures r.Ok? && observed.None? && sys.exclusive ==> exists t: Tree :: Calm(sys.retuned, old(sys.files), t) && sys.reader(t).None?
    ensures r.Err? ==> !r.error.Rollback?
  {
    hide SysfsModel.Sysfs.Valid, Looked, Uncommanded, Sorted, Values, Consistent, CapturedFirst, ObservedSince,
         ReadLast, EndsStopped, ReadWhileStopped;
    ghost var t0, f0 := sys.trace, sys.files;
    observed := None;
    var stopped := RetryStopped(sys);
    if stopped.Err? { return Err(stopped.error), observed; }
    ghost var t1, f1 := sys.trace, sys.files;
    LookedExtends(t0, t1);
    r, observed := CaptureObserved(sys, t0);
    LookedTransitive(t0, t1, sys.trace);
    if r.Err? { return; }
    ghost var t2, f2 := sys.trace, sys.files;
    stopped := RetryStopped(sys);
    LookedTransitive(t0, t2, sys.trace);
    LookedExtends(t2, sys.trace);
    CapturedFirstExtends(t0, t2, sys.trace, r.value);
    if sys.exclusive {
      CalmTransitive(sys.retuned, f0, f1, Values(r.value));
      CalmTransitive(sys.retuned, Values(r.value), f2, sys.files);
    }
    if stopped.Err? { return Err(stopped.error), observed; }
    CheckedReading(t0, t1, t2, sys.trace);
    if observed.None? && sys.exclusive {
      ghost var t: Tree :| Calm(sys.retuned, f1, t) && sys.reader(t).None?;
      CalmTransitive(sys.retuned, f0, f1, t);
    }
    if observed.Some? { ObservedLater(sys, t0, t2, f2, observed.value); }
  }

  /** The capture, and the configuration read from it: the last thing read, with nothing moved since. */
  method CaptureObserved(sys: Sysfs, ghost t0: seq<Event>) returns (r: Result<seq<Entry>>, observed: Option<DamonConfig>)
    requires sys.Valid() && Looked(t0, sys.trace)
    modifies sys
    ensures sys.Valid() && Looked(old(sys.trace), sys.trace)
    ensures sys.exclusive ==> Calm(sys.retuned, old(sys.files), sys.files)
    ensures r.Ok? ==> Sorted(r.value) && Consistent(sys.schema, Values(r.value)) && CapturedFirst(t0, sys.trace, r.value)
    ensures r.Ok? && sys.exclusive ==>
              Calm(sys.retuned, old(sys.files), Values(r.value)) && Calm(sys.retuned, Values(r.value), sys.files)
    ensures r.Ok? && observed.Some? ==> ReadLast(sys, t0, sys.trace, sys.files, observed.value)
    ensures old(sys.Idle()) ==> r.Ok? && sys.Idle()
    ensures r.Ok? ==> |old(sys.trace)| < |sys.trace| && sys.trace[|sys.trace| - 1].ConfigurationRead?
    ensures r.Ok? && observed.None? && sys.exclusive ==> exists t: Tree :: Calm(sys.retuned, old(sys.files), t) && sys.reader(t).None?
    ensures r.Err? ==> !r.error.Rollback?
  {
    hide SysfsModel.Sysfs.Valid, Looked, Sorted, Values, Consistent, CapturedFirst, Agrees;
    observed := None;
    ghost var t1 := sys.trace;
    r := RetryCapture(sys);
    LookedTransitive(t0, t1, sys.trace);
    LookedExtends(t0, t1);
    if r.Err? { return; }
    ghost var t2 := sys.trace;
    CapturedNowFirst(t0, t2, r.value);
    var read, seen := RetryConfiguration(sys);
    LookedTransitive(t1, t2, sys.trace);
    LookedExtends(t1, t2);
    LookedExtends(t2, sys.trace);
    CapturedFirstExtends(t0, t2, sys.trace, r.value);
    if read.Err? && read.error != InvalidConfiguration && read.error != InvalidKernelValue {
      return Err(read.error), observed;
    }
    if sys.Idle() { CaptureAgreesNow(sys, r.value); }
    var matches := RetryMatchesExcept(sys, r.value, {});
    if matches.Err? { return Err(matches.error), observed; }
    if !matches.value { return Err(OwnershipLost(ValuesChanged)), observed; }
    if read.Err? && sys.exclusive { assert Calm(sys.retuned, old(sys.files), seen) && sys.reader(seen).None?; }
    if read.Ok? {
      observed := Some(read.value);
      if sys.exclusive { assert Calm(sys.retuned, seen, sys.files) && sys.reader(seen) == Some(read.value); }
    }
  }

  /** `read` is what the last access since `t0` read, from a tree that is `t`, retuned leaves apart. */
  ghost predicate ReadLast(sys: Sysfs, t0: seq<Event>, trace: seq<Event>, t: Tree, read: DamonConfig) {
    && |t0| < |trace| && trace[|trace| - 1] == ConfigurationRead(Ok(read))
    && (sys.exclusive ==> exists seen: Tree :: Calm(sys.retuned, seen, t) && sys.reader(seen) == Some(read))
  }

  lemma ObservedLater(sys: Sysfs, t0: seq<Event>, middle: seq<Event>, t: Tree, read: DamonConfig)
    requires ReadLast(sys, t0, middle, t, read) && Looked(middle, sys.trace) && (sys.exclusive ==> Calm(sys.retuned, t, sys.files))
    ensures ObservedSince(sys, t0, read)
  {
    var seen: Tree :| sys.exclusive ==> Calm(sys.retuned, seen, t) && sys.reader(seen) == Some(read);
    if sys.exclusive { CalmTransitive(sys.retuned, seen, t, sys.files); }
    ObservedNow(sys, t0, middle, seen, read);
  }

  lemma ObservedNow(sys: Sysfs, earlier: seq<Event>, middle: seq<Event>, seen: Tree, read: DamonConfig)
    requires |earlier| < |middle| && middle[|middle| - 1] == ConfigurationRead(Ok(read)) && Looked(middle, sys.trace)
    requires sys.exclusive ==> Calm(sys.retuned, seen, sys.files) && sys.reader(seen) == Some(read)
    ensures ObservedSince(sys, earlier, read)
  {
    forall config | EquivalentAfterKernelNormalization(config, read) ensures ReadBackSince(earlier, sys.trace, config) {
      ReadBackNow(earlier, middle, sys.trace, read, config);
    }
  }
}
