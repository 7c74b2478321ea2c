/** Accesses repeated while the kernel answers EBUSY: at most six attempts. */
module Retries {
  import opened Outcomes
  import opened Paths
  import opened KernelTree
  import opened Config
  import opened SysfsModel
  import opened Traces
  import opened Snapshots

  method RetryState(sys: Sysfs, i: nat) returns (r: Result<KdamondState>)
    requires sys.Valid()
    modifies sys
    ensures sys.Valid() && sys.Still() && ReadsOfState(old(sys.trace), sys.trace, i, r)
    ensures r.Err? ==> r.error.IsAccessFailure()
    ensures sys.steady && i in old(sys.threads) ==> r == Ok(old(sys.threads)[i].state)
  {
    hide SysfsModel.Sysfs.Valid;
    var retries := 0;
    r := sys.ReadState(i);
    ReadsOfStateStart(old(sys.trace), i, r);
    while r == Err(Busy) && retries < MAX_RETRIES
      invariant sys.Valid() && sys.Still() && ReadsOfState(old(sys.trace), sys.trace, i, r)
      invariant r.Err? ==> r.error.IsAccessFailure()
      invariant sys.steady && i in old(sys.threads) ==> r == Ok(old(sys.threads)[i].state)
      decreases MAX_RETRIES - retries
    {
      ghost var before := sys.trace;
      r := sys.ReadState(i);
      ReadsOfStateAgain(old(sys.trace), before, i, r);
      retries := retries + 1;
    }
  }

  method RetryPid(sys: Sysfs, i: nat) returns (r: Result<Option<nat>>)
    requires sys.Valid()
    modifies sys
    ensures sys.Valid() && sys.Still() && ReadsOfPid(old(sys.trace), sys.trace, i, r)
    ensures r.Err? ==> r.error.IsAccessFailure()
    ensures sys.steady && i in old(sys.threads) ==> r == Ok(old(sys.threads)[i].pid)
  {
    hide SysfsModel.Sysfs.Valid;
    var retries := 0;
    r := sys.ReadPid(i);
    ReadsOfPidStart(old(sys.trace), i, r);
    while r == Err(Busy) && retries < MAX_RETRIES
      invariant sys.Valid() && sys.Still() && ReadsOfPid(old(sys.trace), sys.trace, i, r)
      invariant r.Err? ==> r.error.IsAccessFailure()
      invariant sys.steady && i in old(sys.threads) ==> r == Ok(old(sys.threads)[i].pid)
      decreases MAX_RETRIES - retries
    {
      ghost var before := sys.trace;
      r := sys.ReadPid(i);
      ReadsOfPidAgain(old(sys.trace), before, i, r);
      retries := retries + 1;
    }
  }

  method RetryOrder(sys: Sysfs, i: nat, command: Command) returns (r: Result<()>, ghost handed: Tree)
    requires sys.Valid()
    modifies sys
    ensures sys.Valid() && sys.journal == old(sys.journal)
    ensures AttemptsAt(old(sys.trace), sys.trace, i, command, r.Ok?)
    ensures sys.exclusive ==> Calm(sys.retuned, old(sys.files), handed) && Calm(sys.retuned, handed, sys.files)
    ensures sys.exclusive ==>
              sys.active == if r.Ok? then Activated(sys.schema, old(sys.active), handed, i, command) else old(sys.active)
    ensures r.Err? ==> r.error.IsAccessFailure()
    ensures sys.steady ==> (r.Ok? <==> i in old(sys.threads) && (old(sys.threads)[i].state == On) == (command != TurnOn))
    ensures r.Err? && old(sys.Idle()) ==> sys.files == old(sys.files)
    ensures sys.steady ==> if r.Ok? then Obeyed(old(sys.threads), sys.threads, i, command) else sys.threads == old(sys.threads)
  {
    hide SysfsModel.Sysfs.Valid, Obeyed;
    var retries := 0;
    handed := sys.files;
    r := sys.Order(i, command);
    AttemptsStart(old(sys.trace), i, command, r.Ok?);
    while r == Err(Busy) && retries < MAX_RETRIES
      invariant sys.Valid() && sys.journal == old(sys.journal)
      invariant AttemptsAt(old(sys.trace), sys.trace, i, command, r.Ok?)
      invariant sys.exclusive ==> Calm(sys.retuned, old(sys.files), handed) && Calm(sys.retuned, handed, sys.files)
      invariant sys.exclusive ==>
                  sys.active == if r.Ok? then Activated(sys.schema, old(sys.active), handed, i, command) else old(sys.active)
      invariant r.Err? ==> r.error.IsAccessFailure()
      invariant sys.steady ==> (r.Ok? <==> i in old(sys.threads) && (old(sys.threads)[i].state == On) == (command != TurnOn))
      invariant r.Err? && old(sys.Idle()) ==> sys.files == old(sys.files)
      invariant sys.steady ==> if r.Ok? then Obeyed(old(sys.threads), sys.threads, i, command) else sys.threads == old(sys.threads)
      decreases MAX_RETRIES - retries
    {
      handed := sys.files;
      ghost var before := sys.trace;
      r := sys.Order(i, command);
      AttemptsAgain(old(sys.trace), before, i, command, r.Ok?);
      retries := retries + 1;
    }
  }

  method CaptureTree(sys: Sysfs, ghost since: seq<Event>) returns (r: Result<seq<Entry>>)
    requires sys.Valid() && Looked(since, sys.trace)
    modifies sys
    ensures sys.Valid() && sys.Still() && Looked(since, sys.trace)
    ensures |old(sys.trace)| < |sys.trace| && sys.trace[|sys.trace| - 1] == Captured(r)
    ensures r.Ok? ==> Sorted(r.value) && Consistent(sys.schema, Values(r.value))
    ensures r.Ok? && sys.exclusive ==> Calm(sys.retuned, old(sys.files), Values(r.value)) && Calm(sys.retuned, Values(r.value), sys.files)
    ensures r.Ok? && old(sys.Idle()) ==> Values(r.value) == old(sys.files)
    ensures r.Err? ==> r.error.IsAccessFailure() && !sys.steady
  {
    r := sys.Capture();
    LookedStep(since, old(sys.trace), Captured(r));
  }

  /** The capture also tells which tree it read. */
  method RetryCapture(sys: Sysfs) returns (r: Result<seq<Entry>>)
    requires sys.Valid()
    modifies sys
    ensures sys.Valid() && sys.Still() && Looked(old(sys.trace), sys.trace)
    ensures |old(sys.trace)| < |sys.trace| && sys.trace[|sys.trace| - 1] == Captured(r)
    ensures r.Ok? ==> Sorted(r.value) && Consistent(sys.schema, Values(r.value))
    ensures r.Ok? && sys.exclusive ==> Calm(sys.retuned, old(sys.files), Values(r.value)) && Calm(sys.retuned, Values(r.value), sys.files)
    ensures r.Ok? && old(sys.Idle()) ==> Values(r.value) == old(sys.files)
    ensures r.Err? ==> r.error.IsAccessFailure() && !sys.steady
  {
    hide SysfsModel.Sysfs.Valid, Looked, Sorted, Values, Consistent;
    var retries := 0;
    LookedNothing(sys.trace);
    r := CaptureTree(sys, sys.trace);
    while r == Err(Busy) && retries < MAX_RETRIES
      invariant sys.Valid() && sys.Still() && Looked(old(sys.trace), sys.trace)
      invariant |old(sys.trace)| < |sys.trace| && sys.trace[|sys.trace| - 1] == Captured(r)
      invariant r.Ok? ==> Sorted(r.value) && Consistent(sys.schema, Values(r.value))
      invariant r.Ok? && sys.exclusive ==>
                  Calm(sys.retuned, old(sys.files), Values(r.value)) && Calm(sys.retuned, Values(r.value), sys.files)
      invariant r.Ok? && old(sys.Idle()) ==> Values(r.value) == old(sys.files)
      invariant r.Err? ==> r.error.IsAccessFailure() && !sys.steady
      decreases MAX_RETRIES - retries
    {
      r := CaptureTree(sys, old(sys.trace));
      retries := retries + 1;
    }
  }

  method RetryConfiguration(sys: Sysfs) returns (r: Result<DamonConfig>, ghost seen: Tree)
    requires sys.Valid()
    modifies sys
    ensures sys.Valid() && sys.Still() && Looked(old(sys.trace), sys.trace)
    ensures r.Ok? ==> sys.reader(seen) == Some(r.value)
    ensures sys.exclusive ==> Calm(sys.retuned, old(sys.files), seen) && Calm(sys.retuned, seen, sys.files)
    ensures |old(sys.trace)| < |sys.trace| && sys.trace[|sys.trace| - 1] == ConfigurationRead(r)
    ensures r.Err? ==> (r.error.IsAccessFailure() && !sys.steady) || r.error == InvalidKernelValue
    ensures sys.steady ==> (r.Ok? <==> sys.reader(seen).Some?)
    ensures r == Err(InvalidKernelValue) ==> sys.reader(seen).None?
    ensures old(sys.Idle()) ==> seen == old(sys.files)
  {
    hide SysfsModel.Sysfs.Valid, Looked;
    var retries := 0;
    seen := sys.files;
    r := sys.ReadConfiguration();
    LookedNothing(old(sys.trace));
    LookedStep(old(sys.trace), old(sys.trace), ConfigurationRead(r));
    while r == Err(Busy) && retries < MAX_RETRIES
      invariant sys.Valid() && sys.Still() && Looked(old(sys.trace), sys.trace)
      invariant r.Ok? ==> sys.reader(seen) == Some(r.value)
      invariant sys.exclusive ==> Calm(sys.retuned, old(sys.files), seen) && Calm(sys.retuned, seen, sys.files)
      invariant |old(sys.trace)| < |sys.trace| && sys.trace[|sys.trace| - 1] == ConfigurationRead(r)
      invariant r.Err? ==> (r.error.IsAccessFailure() && !sys.steady) || r.error == InvalidKernelValue
      invariant sys.steady ==> (r.Ok? <==> sys.reader(seen).Some?)
      invariant r == Err(InvalidKernelValue) ==> sys.reader(seen).None?
      invariant old(sys.Idle()) ==> seen == old(sys.files)
      decreases MAX_RETRIES - retries
    {
      ghost var before := sys.trace;
      seen := sys.files;
      r := sys.ReadConfiguration();
      LookedStep(old(sys.trace), before, ConfigurationRead(r));
      retries := retries + 1;
    }
  }
}
