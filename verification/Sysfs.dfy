/** The kernel as the engine sees it: staged leaves, kernel threads and what each
    thread runs. Every access can fail. After every access other controllers may
    act, unless the model is `exclusive`, when only the leaves the kernel retunes
    by itself move. A `steady` kernel does nothing unasked: no access fails of itself,
    threads change by commands alone, and it retunes only while some kdamond is on. */
module SysfsModel {
  import opened Outcomes
  import opened Paths
  import opened KernelTree
  import opened Config
  import opened TuningGoals
  import opened TargetLeaves

  datatype KdamondState = On | Off | Unknown

  datatype Command = TurnOn | TurnOff | Commit | CommitQuotaGoals | Refresh

  datatype Thread = Thread(state: KdamondState, pid: Option<nat>)

  /** Kernel accesses, in the order the engine made them; comparisons of single leaves are not recorded. */
  datatype Event =
    | Wrote(path: Path)
    | WriteFailed(failedPath: Path)
    | Commanded(index: nat, command: Command, accepted: bool)
    | StateRead(stateIndex: nat, state: Result<KdamondState>)
    | PidRead(pidIndex: nat, pid: Result<Option<nat>>)
    | CountRead(count: Result<nat>)
    | Captured(capture: Result<seq<Entry>>)
    | ConfigurationRead(config: Result<DamonConfig>)
    | ConfigurationChecked(checkedIndex: nat, intact: Result<bool>)
    | StopBegan(stopIndex: nat, expected: Option<nat>)   // the pid owned when a stop starts, if one is
    | CommitBegan(commitIndex: nat, owned: Option<nat>)  // the same for a commit
    | StagingDone(request: DamonConfig, observed: Option<DamonConfig>, outcome: Result<()>)   // how a staging from that observation ended
  {
    /** Events that cannot change anything. */
    predicate Passive() {
      !IsWrite() && !Commanded? && !StopBegan? && !CommitBegan? && !StagingDone?
    }

    predicate IsWrite() {
      Wrote? || WriteFailed?
    }
  }

  /** `later` extends `earlier` by passive events only. */
  ghost predicate Looked(earlier: seq<Event>, later: seq<Event>) {
    earlier <= later && forall k | |earlier| <= k < |later| :: later[k].Passive()
  }

  lemma LookedTransitive(a: seq<Event>, b: seq<Event>, c: seq<Event>)
    requires Looked(a, b) && Looked(b, c)
    ensures Looked(a, c)
  {
    forall k | |a| <= k < |c| ensures c[k].Passive() {
      if k < |b| { assert c[k] == b[k]; }
    }
  }

  lemma LookedStep(a: seq<Event>, b: seq<Event>, e: Event)
    requires Looked(a, b) && e.Passive()
    ensures Looked(a, b + [e])
  {
  }

  lemma LookedNothing(a: seq<Event>)
    ensures Looked(a, a)
  {
  }

  function Subtree(t: Tree, root: Path): Tree {
    map p | p in t && root <= p :: t[p]
  }

  lemma SubtreeCalm(loose: set<Path>, t: Tree, u: Tree, root: Path)
    requires Calm(loose, t, u)
    ensures Calm(loose, Subtree(t, root), Subtree(u, root))
  {
  }

  /** `later` extends `earlier` without commands: reads and leaf writes only. */
  ghost predicate Uncommanded(earlier: seq<Event>, later: seq<Event>) {
    earlier <= later && forall k | |earlier| <= k < |later| :: !later[k].Commanded? && !later[k].StopBegan? && !later[k].CommitBegan?
  }

  lemma UncommandedNothing(a: seq<Event>)
    ensures Uncommanded(a, a)
  {
  }

  lemma UncommandedTransitive(a: seq<Event>, b: seq<Event>, c: seq<Event>)
    requires Uncommanded(a, b) && Uncommanded(b, c)
    ensures Uncommanded(a, c)
  {
    forall k | |a| <= k < |c| ensures !c[k].Commanded? && !c[k].StopBegan? {
      if k < |b| { assert c[k] == b[k]; }
    }
  }

  /** `later` extends `earlier` by writes only. */
  ghost predicate WritesOnly(earlier: seq<Event>, later: seq<Event>) {
    earlier <= later && forall k | |earlier| <= k < |later| :: later[k].IsWrite()
  }

  lemma WritesOnlyTransitive(a: seq<Event>, b: seq<Event>, c: seq<Event>)
    requires WritesOnly(a, b) && WritesOnly(b, c)
    ensures WritesOnly(a, c)
  {
    forall k | |a| <= k < |c| ensures c[k].IsWrite() {
      if k < |b| { assert c[k] == b[k]; }
    }
  }

  lemma WritesAreUncommanded(a: seq<Event>, b: seq<Event>)
    requires WritesOnly(a, b)
    ensures Uncommanded(a, b) && a <= b
  {
    assert forall k | |a| <= k < |b| :: b[k].IsWrite();
  }

  lemma WriteUncommanded(since: seq<Event>, t: seq<Event>, e: Event)
    requires Uncommanded(since, t) && (e.Wrote? || e.WriteFailed? || e.StagingDone?)
    ensures Uncommanded(since, t + [e])
  {
  }

  lemma LookedIsUncommanded(earlier: seq<Event>, later: seq<Event>)
    requires Looked(earlier, later)
    ensures Uncommanded(earlier, later)
  {
    assert forall k | |earlier| <= k < |later| :: later[k].Passive();
  }

  lemma UncommandedExtends(a: seq<Event>, b: seq<Event>)
    requires Uncommanded(a, b)
    ensures a <= b
  {
  }

  lemma LookedExtends(a: seq<Event>, b: seq<Event>)
    requires Looked(a, b)
    ensures a <= b
  {
  }

  /** The readers see the kdamonds and contexts the count files call for, and their tuning
      goals. `targets` reads the target leaves of one kdamond: as `reader` does within the
      whole tree, and after a commit without the targets that were marked obsolete. */
  ghost predicate ReadersLawful(K: Schema, reader: Tree -> Option<DamonConfig>, targets: Tree -> Option<seq<seq<TargetConfig>>>) {
    && (forall x: Tree, p | p in K.settle(x) :: IsTargetLeaf(K, p))
    && (forall x: Tree | targets(x).Some? :: targets(K.settle(x)) == Some(RetainEach(targets(x).value)))
    && (forall t: Tree | reader(t).Some? :: ViewsGoals(K, t, reader(t).value))
    && forall t: Tree, k: nat | reader(t).Some? && k < |reader(t).value.kdamonds| ::
         targets(TargetPart(K, Subtree(t, KdamondDir(K, k)))) == Some(TargetsOf(reader(t).value.kdamonds[k]))
  }

  /** Every kdamond is off. */
  predicate Resting(threads: map<nat, Thread>) {
    forall i | i in threads :: threads[i].state == Off
  }

  predicate SomeOn(threads: map<nat, Thread>) {
    exists i | i in threads :: threads[i].state == On
  }

  /** The threads of a hierarchy that was just created. */
  function Fresh(n: nat): (threads: map<nat, Thread>)
    ensures Resting(threads) && forall i: nat :: i in threads <==> i < n
  {
    if n == 0 then map[] else Fresh(n - 1)[n - 1 := Thread(Off, None)]
  }

  class Sysfs {
    const schema: Schema
    const exclusive: bool
    const steady: bool
    const retuned: set<Path>                          // interval leaves the kernel may rewrite at any time
    const reader: Tree -> Option<DamonConfig>         // the typed view of the staged leaves, if they parse
    const targets: Tree -> Option<seq<seq<TargetConfig>>>   // the typed view of one kdamond's target leaves
    var files: Tree
    var threads: map<nat, Thread>
    var active: map<nat, Tree>                        // what each running kdamond was last given
    var journal: seq<Path>
    ghost var trace: seq<Event>

    ghost predicate Valid()
      reads this
    {
      && schema.Valid() && Consistent(schema, files)
      && (forall p | p in retuned :: !IsReconstructionCount(p))
      && NoTargets(schema, retuned) && OnlyIntervals(retuned) && ReadersLawful(schema, reader, targets)
      && Populated()
    }

    /** Undisturbed, there is one thread for each kdamond. */
    ghost predicate Populated()
      reads this
    {
      exclusive && steady ==> forall i: nat :: i in threads <==> i < CountOf(schema, files, schema.top)
    }

    /** Nothing happens unless this session makes it happen. */
    predicate Idle()
      reads this
    {
      exclusive && steady && Resting(threads)
    }

    /** Nothing but retuned leaves moved, and no running configuration did. */
    twostate predicate Still()
      reads this
    {
      && (exclusive ==> Calm(retuned, old(files), files) && active == old(active))
      && (steady ==> threads == old(threads))
      && (old(Idle()) ==> files == old(files))
      && journal == old(journal)
    }

    /** Still, and not even a recorded access: comparisons of single leaves are not traced. */
    twostate predicate Quiet()
      reads this
    {
      Still() && trace == old(trace)
    }

    /** What may happen between two accesses of the engine: threads come and go, the
        kernel retunes intervals, and other controllers write what they like. */
    method Interfere()
      requires Valid()
      modifies this`files, this`threads, this`active
      ensures Valid() && (exclusive ==> Calm(retuned, old(files), files) && active == old(active))
      ensures (steady ==> threads == old(threads)) && (old(Idle()) ==> files == old(files))
    {
      hide Consistent, Schema.Lawful, Schema.Distinct, AfterWrite, Legal, CountOf;
      if !steady { threads := *; }
      if !exclusive { active := *; }
      var rounds: int := *;
      while rounds > 0
        invariant Valid() && (exclusive ==> Calm(retuned, old(files), files) && active == old(active))
        invariant (steady ==> threads == old(threads)) && (old(Idle()) ==> files == old(files))
      {
        rounds := rounds - 1;
        var p: Path := *;
        var v: string := *;
        if exclusive && p in files && p in retuned && !Idle() {
          RetuneKeepsConsistent(schema, files, p, v);
          files := files[p := v];
        } else if !exclusive && Legal(schema, files, p, v) {
          WriteKeepsConsistent(schema, files, p, v);
          files := AfterWrite(schema, files, p, v);
        }
      }
    }

    /** Whether this access fails, with EBUSY or otherwise. */
    method Attempt() returns (failure: Option<Error>)
      ensures failure.Some? ==> failure.value.IsAccessFailure() && !steady
    {
      var outcome: int := *;
      failure := if outcome == 0 || steady then None else if outcome == 1 then Some(Busy) else Some(Io);
    }

    // ---------- reads ----------

    method ReadState(i: nat) returns (r: Result<KdamondState>)
      requires Valid()
      modifies this
      ensures Valid() && Still() && trace == old(trace) + [StateRead(i, r)]
      ensures r.Err? ==> r.error.IsAccessFailure()
      ensures steady && i in old(threads) ==> r == Ok(old(threads)[i].state)
    {
      hide Consistent, Schema.Valid, AfterWrite, Legal;
      var failure := Attempt();
      r := if failure.Some? then Err(failure.value) else if i in threads then Ok(threads[i].state) else Err(Io);
      trace := trace + [StateRead(i, r)];
      Interfere();
    }

    method ReadPid(i: nat) returns (r: Result<Option<nat>>)
      requires Valid()
      modifies this
      ensures Valid() && Still() && trace == old(trace) + [PidRead(i, r)]
      ensures r.Err? ==> r.error.IsAccessFailure()
      ensures steady && i in old(threads) ==> r == Ok(old(threads)[i].pid)
    {
      hide Consistent, Schema.Valid, AfterWrite, Legal;
      var failure := Attempt();
      r := if failure.Some? then Err(failure.value) else if i in threads then Ok(threads[i].pid) else Err(Io);
      trace := trace + [PidRead(i, r)];
      Interfere();
    }

    method ReadCount() returns (r: Result<nat>)
      requires Valid()
      modifies this
      ensures Valid() && Still() && trace == old(trace) + [CountRead(r)]
      ensures r.Ok? ==> r.value == CountOf(schema, old(files), schema.top)
      ensures r.Err? ==> r.error.IsAccessFailure() && !steady
    {
      hide Consistent, Schema.Valid, AfterWrite, Legal;
      var failure := Attempt();
      r := if failure.Some? then Err(failure.value) else Ok(CountOf(schema, files, schema.top));
      trace := trace + [CountRead(r)];
      Interfere();
    }

    /** `read_configuration_value_equals`: a missing file is simply not equal. */
    method Compare(p: Path, v: string) returns (r: Result<bool>)
      requires Valid()
      modifies this
      ensures Valid() && Quiet()
      ensures r.Ok? ==> r.value == (p in old(files) && old(files)[p] == v)
      ensures r.Err? ==> r.error.IsAccessFailure() && !steady
    {
      hide Consistent, Schema.Valid, AfterWrite, Legal;
      var failure := Attempt();
      r := if failure.Some? then Err(failure.value) else Ok(p in files && files[p] == v);
      Interfere();
    }

    /** Every writable configuration leaf, sorted by path. */
    method Capture() returns (r: Result<seq<Entry>>)
      requires Valid()
      modifies this
      ensures Valid() && Still() && trace == old(trace) + [Captured(r)]
      ensures r.Ok? ==> Sorted(r.value) && Values(r.value) == old(files)
      ensures r.Err? ==> r.error.IsAccessFailure() && !steady
    {
      hide Consistent, Schema.Valid, Values, Sorted;
      var failure := Attempt();
      if failure.Some? {
        r := Err(failure.value);
      } else {
        var entries := SortedEntries(files);
        r := Ok(entries);
      }
      trace := trace + [Captured(r)];
      Interfere();
    }

    method ReadConfiguration() returns (r: Result<DamonConfig>)
      requires Valid()
      modifies this
      ensures Valid() && Still() && trace == old(trace) + [ConfigurationRead(r)]
      ensures r.Ok? ==> reader(old(files)) == Some(r.value)
      ensures r.Err? ==> (r.error.IsAccessFailure() && !steady) || r.error == InvalidKernelValue
      ensures steady ==> (r.Ok? <==> reader(old(files)).Some?)
      ensures r == Err(InvalidKernelValue) ==> reader(old(files)).None?
    {
      hide Consistent, Schema.Valid;
      var failure := Attempt();
      var config := reader(files);
      r := if failure.Some? then Err(failure.value) else if config.None? then Err(InvalidKernelValue) else Ok(config.value);
      trace := trace + [ConfigurationRead(r)];
      Interfere();
    }

    // ---------- writes ----------

    /** One write to a configuration leaf. A failed write has no effect and is not journalled. */
    method Write(p: Path, v: string) returns (r: Result<()>)
      requires Valid()
      modifies this
      ensures Valid()
      ensures r.Ok? ==>
                && Legal(schema, old(files), p, v)
                && journal == old(journal) + [p] && trace == old(trace) + [Wrote(p)]
                && (exclusive ==> Calm(retuned, AfterWrite(schema, old(files), p, v), files))
                && (exclusive && p != schema.top ==> active == old(active))
                && (steady && p != schema.top ==> threads == old(threads))
                && (steady && p == schema.top ==> Resting(threads))
                && (old(Idle()) ==> files == AfterWrite(schema, old(files), p, v))
      ensures r.Err? ==> Still() && trace == old(trace) + [WriteFailed(p)] && r.error.IsAccessFailure()
      ensures steady && Legal(schema, old(files), p, v) && (p == schema.top ==> !SomeOn(old(threads))) ==> r.Ok?
    {
      hide Consistent, Schema.Lawful, Schema.Distinct, AfterWrite, Legal;
      var failure := Attempt();
      if failure.Some? {
        r := Err(failure.value);
      } else if !Legal(schema, files, p, v) {
        r := Err(Io);
      } else if p == schema.top && SomeOn(threads) {
        r := Err(Busy);
      } else {
        WriteKeepsConsistent(schema, files, p, v);
        WriteKeepsCount(schema, files, p, v);
        files := AfterWrite(schema, files, p, v);
        if p == schema.top {
          active := map[];
          threads := Fresh(CountOf(schema, files, p));
        }
        journal := journal + [p];
        r := Ok(());
      }
      trace := trace + [if r.Ok? then Wrote(p) else WriteFailed(p)];
      Interfere();
    }

    /** One write to a kdamond's `state` file. */
    method Order(i: nat, command: Command) returns (r: Result<()>)
      requires Valid()
      modifies this
      ensures Valid() && journal == old(journal) && trace == old(trace) + [Commanded(i, command, r.Ok?)]
      ensures exclusive ==> Calm(retuned, old(files), files)
      ensures r.Ok? && exclusive ==> active == Activated(schema, old(active), old(files), i, command)
      ensures r.Err? ==> Still() && r.error.IsAccessFailure()
      ensures steady ==> (r.Ok? <==> i in old(threads) && (old(threads)[i].state == On) == (command != TurnOn))
      ensures steady && r.Ok? ==> Obeyed(old(threads), threads, i, command)
    {
      hide Consistent, Schema.Valid, AfterWrite, Legal;
      var failure := Attempt();
      if failure.Some? {
        r := Err(failure.value);
      } else if i !in threads {
        r := Err(Io);
      } else if command == TurnOn && threads[i].state == On {
        r := Err(Busy);
      } else if command != TurnOn && threads[i].state != On {
        r := Err(Io);
      } else {
        active := Activated(schema, active, files, i, command);
        match command {
          case TurnOn =>
            var pid: nat := *;
            threads := threads[i := Thread(On, Some(pid))];
          case TurnOff => threads := threads[i := Thread(Off, None)];
          case _ =>
        }
        r := Ok(());
      }
      trace := trace + [Commanded(i, command, r.Ok?)];
      Interfere();
    }

    /** Records how a staging ended. */
    ghost method NoteStaging(request: DamonConfig, observed: Option<DamonConfig>, outcome: Result<()>)
      requires Valid()
      modifies this`trace
      ensures Valid() && trace == old(trace) + [StagingDone(request, observed, outcome)]
    {
      trace := trace + [StagingDone(request, observed, outcome)];
    }

    /** A process that takes over a hierarchy keeps its own record. */
    ghost method StartRecord()
      requires Valid()
      modifies this`trace
      ensures Valid() && trace == []
    {
      trace := [];
    }

    // ---------- the write journal ----------

    method BeginJournal()
      requires Valid()
      modifies this`journal
      ensures Valid() && journal == []
    {
      journal := [];
    }

    method TakeJournal() returns (writes: seq<Path>)
      requires Valid()
      modifies this`journal
      ensures Valid() && writes == old(journal) && journal == []
    {
      writes := journal;
      journal := [];
    }
  }

  lemma EveryThreadOff(sys: Sysfs)
    requires sys.Valid() && sys.Idle()
    ensures forall i: nat | i < CountOf(sys.schema, sys.files, sys.schema.top) :: i in sys.threads && sys.threads[i].state == Off
  {
  }

  /** What an accepted command does to the threads. */
  ghost predicate Obeyed(before: map<nat, Thread>, after: map<nat, Thread>, i: nat, command: Command) {
    match command
    case TurnOn => i in after && after[i].state == On && after[i].pid.Some? && after == before[i := after[i]]
    case TurnOff => after == before[i := Thread(Off, None)]
    case _ => after == before
  }

  lemma RetuneKeepsConsistent(K: Schema, t: Tree, p: Path, v: string)
    requires K.Lawful() && Consistent(K, t) && p in t && !IsReconstructionCount(p)
    ensures Consistent(K, t[p := v]) && CountOf(K, t[p := v], K.top) == CountOf(K, t, K.top)
  {
    CalmKeepsConsistent(K, {p}, t, t[p := v]);
    assert IsReconstructionCount(K.top);
  }

  lemma WriteKeepsCount(K: Schema, t: Tree, p: Path, v: string)
    requires K.Lawful() && Consistent(K, t) && Legal(K, t, p, v)
    ensures p != K.top ==> CountOf(K, AfterWrite(K, t, p, v), K.top) == CountOf(K, t, K.top)
  {
    if p != K.top {
      assert K.top in K.roots && K.NoIndex(K.top);
      SurvivesWrite(K, t, p, v, K.top);
    }
  }

  /** The running configurations after a command is accepted: `on` hands over the whole staged
      subtree, `commit` too but without the targets marked obsolete, and a quota-goal commit
      only its goals. */
  function Activated(K: Schema, active: map<nat, Tree>, files: Tree, i: nat, command: Command): map<nat, Tree> {
    var staged := Subtree(files, KdamondDir(K, i));
    match command
    case TurnOn => active[i := staged]
    case Commit => active[i := Settle(K, staged)]
    case CommitQuotaGoals =>
      var before := if i in active then active[i] else map[];
      active[i := (map p | p in before && !IsGoalLeaf(K, p) :: before[p]) + (map p | p in staged && IsGoalLeaf(K, p) :: staged[p])]
    case _ => active
  }

  /** Whether a leaf lies under some scheme's `quotas/goals`. */
  predicate IsGoalLeaf(K: Schema, p: Path) {
    |K.base| + 6 < |p| && p[|K.base| + 1] == "contexts" && p[|K.base| + 3] == "schemes"
    && p[|K.base| + 5] == "quotas" && p[|K.base| + 6] == "goals"
  }

  /** A capture in path order. */
  method SortedEntries(files: Tree) returns (entries: seq<Entry>)
    ensures Sorted(entries) && Values(entries) == files
  {
    hide Values;
    entries := [];
    var rest := files.Keys;
    while rest != {}
      invariant Sorted(entries) && rest <= files.Keys
      invariant PathsOf(entries) == files.Keys - rest
      invariant forall e | e in entries :: e.path in files && e.value == files[e.path]
      decreases |rest|
    {
      var p :| p in rest;
      var k := PartitionPoint(entries, p);
      InsertKeepsSorted(entries, k, Entry(p, files[p]));
      entries := entries[..k] + [Entry(p, files[p])] + entries[k..];
      rest := rest - {p};
    }
    var values := Values(entries);
    forall p | p in files ensures values[p] == files[p] {
      assert p in PathsOf(entries);
      var e :| e in entries && e.path == p;
    }
  }
}
