/** Hierarchies that outlive the process that started them: attaching on the word of a
    receipt, updating and stopping, and the receipt that describes what is left. */
module PersistentSessions {
  import opened Outcomes
  import opened Paths
  import opened KernelTree
  import opened Restoration
  import opened Config
  import opened SysfsModel
  import opened TargetLeaves
  import opened RunningState
  import opened Traces
  import opened Snapshots
  import opened Hierarchy
  import opened Updates
  import opened OnlineUpdates
  import opened Transactions
  import opened Receipts
  import opened Attachment
  import opened Equivalence
  import opened Readbacks
  import opened StagingRecords
  import opened Standing
  import opened Validity

  /** What a receipt says about a hierarchy: the owned staged values and the running kdamonds. */
  datatype PersistentParts = PersistentParts(staged: StagedOwnership, identities: seq<Identity>)

  // ---------- complete comparison ----------

  /** The same leaves with the same values outside `ignored`: nothing missing, nothing added. */
  ghost predicate SameOutside(ignored: set<Path>, t: Tree, u: Tree) {
    forall p | p !in ignored :: (p in t <==> p in u) && (p in t ==> t[p] == u[p])
  }

  /** The captured leaves that count in a comparison. */
  function Outside(entries: seq<Entry>, ignored: set<Path>): seq<Entry>
    decreases |entries|
  {
    if entries == [] then []
    else if entries[0].path in ignored then Outside(entries[1..], ignored)
    else [entries[0]] + Outside(entries[1..], ignored)
  }

  lemma {:induction false} OutsideMembers(entries: seq<Entry>, ignored: set<Path>)
    requires Sorted(entries)
    ensures Sorted(Outside(entries, ignored))
    ensures forall e :: e in Outside(entries, ignored) <==> e in entries && e.path !in ignored
    decreases |entries|
  {
    if entries != [] {
      var first, rest := entries[0], entries[1..];
      OutsideMembers(rest, ignored);
      assert entries == [first] + rest;
      assert forall e | e in rest :: PathLess(first.path, e.path);
    }
  }

  /** Comparing two captures leaf by leaf outside `ignored` compares the trees they captured. */
  lemma OutsideDecides(a: seq<Entry>, b: seq<Entry>, ignored: set<Path>)
    requires Sorted(a) && Sorted(b)
    ensures Outside(a, ignored) == Outside(b, ignored) <==> SameOutside(ignored, Values(a), Values(b))
  {
    OutsideMembers(a, ignored);
    OutsideMembers(b, ignored);
    if Outside(a, ignored) == Outside(b, ignored) {
      forall p | p !in ignored ensures (p in Values(a) <==> p in Values(b)) && (p in Values(a) ==> Values(a)[p] == Values(b)[p]) {
        SharedLeaf(a, b, ignored, p);
        SharedLeaf(b, a, ignored, p);
      }
    } else if SameOutside(ignored, Values(a), Values(b)) {
      forall e ensures e in Outside(a, ignored) <==> e in Outside(b, ignored) {
        if e in Outside(a, ignored) { LeafOf(b, e); }
        if e in Outside(b, ignored) { LeafOf(a, e); }
      }
      CaptureIsUnique(Outside(a, ignored), Outside(b, ignored));
    }
  }

  lemma SharedLeaf(a: seq<Entry>, b: seq<Entry>, ignored: set<Path>, p: Path)
    requires Sorted(a) && Sorted(b) && p !in ignored
    requires forall e | e in a && e.path !in ignored :: e in b
    ensures p in Values(a) ==> p in Values(b) && Values(a)[p] == Values(b)[p]
  {
    if p in Values(a) {
      var e :| e in a && e.path == p;
      assert e in b;
    }
  }

  lemma LeafOf(entries: seq<Entry>, e: Entry)
    requires Sorted(entries) && e.path in Values(entries) && Values(entries)[e.path] == e.value
    ensures e in entries
  {
    var f :| f in entries && f.path == e.path;
    assert f == e;
  }

  lemma SameByDrift(ignored: set<Path>, loose: set<Path>, s: Tree, t: Tree, u: Tree)
    requires SameOutside(ignored, s, t) && Calm(loose, t, u)
    ensures SameOutside(ignored + loose, s, u)
  {
  }

  /** The count and the complete captured hierarchy, leaf for leaf, are as owned. */
  method VerifyComplete(sys: Sysfs, staged: StagedOwnership) returns (r: Result<()>)
    requires sys.Valid() && Sorted(staged.entries)
    modifies sys
    ensures sys.Valid() && sys.Still() && Looked(old(sys.trace), sys.trace)
    ensures r.Ok? && sys.exclusive ==> SameOutside(staged.volatile + sys.retuned, Values(staged.entries), sys.files)
    ensures (r.Err? && sys.exclusive && sys.retuned <= staged.volatile && CountOf(sys.schema, old(sys.files), sys.schema.top) == staged.count
             && SameOutside(staged.volatile, Values(staged.entries), old(sys.files))) ==> r.error.IsAccessFailure() && !sys.steady
    ensures r.Err? ==> !r.error.Rollback?
  {
    hide SysfsModel.Sysfs.Valid, Sorted, Values, SameOutside, Looked;
    LookedNothing(sys.trace);
    ghost var t0, f0 := sys.trace, sys.files;
    var count := sys.ReadCount();
    LookedStep(t0, t0, CountRead(count));
    if count.Err? { return Err(count.error); }
    if count.value != staged.count { return Err(OwnershipLost(CountChanged)); }
    ghost var t1, f1 := sys.trace, sys.files;
    var current := sys.Capture();
    LookedStep(t0, t1, Captured(current));
    if current.Err? { return Err(current.error); }
    OutsideDecides(staged.entries, current.value, staged.volatile);
    if sys.exclusive && sys.retuned <= staged.volatile && SameOutside(staged.volatile, Values(staged.entries), f0) {
      SameByDrift(staged.volatile, sys.retuned, Values(staged.entries), f0, f1);
      assert staged.volatile + sys.retuned == staged.volatile;
    }
    if Outside(staged.entries, staged.volatile) != Outside(current.value, staged.volatile) { return Err(OwnershipLost(ValuesChanged)); }
    if sys.exclusive { SameByDrift(staged.volatile, sys.retuned, Values(staged.entries), f1, sys.files); }
    r := Ok(());
  }

  // ---------- capturing ----------

  /** Every kdamond's identity, unless one was never captured. */
  method CollectIdentities(states: seq<SessionState>) returns (r: Result<seq<Identity>>)
    ensures r.Ok? <==> Identified(states)
    ensures r.Ok? ==> r.value == RunningIdentities(states)
  {
    var identities: seq<Identity> := [];
    for i := 0 to |states|
      invariant identities == RunningIdentities(states[..i]) && Identified(states[..i])
    {
      assert states[..i + 1] == states[..i] + [states[i]];
      RunningOneMore(states[..i], states[i]);
      match states[i] {
        case Running(pid) => identities := identities + [Identity(i, pid)];
        case Staged =>
        case UnidentifiedRunning =>
          assert states[i] in states;
          return Err(OwnershipLost(Unidentified));
      }
    }
    assert states[..|states|] == states;
    r := Ok(identities);
  }

  /** A tree that agrees with what is owned is, leaf for leaf, what is owned. */
  lemma OwnedIsComplete(K: Schema, loose: set<Path>, staged: StagedOwnership, t: Tree)
    requires K.Valid() && Consistent(K, t) && Sorted(staged.entries) && NoCounts(staged.volatile) && loose <= staged.volatile
    requires OwnedIn(K, loose, staged, t)
    ensures CountOf(K, t, K.top) == staged.count && SameOutside(staged.volatile, Values(staged.entries), t)
  {
    hide Schema.Valid, Consistent, Values, Sorted, Agrees, CountOf, NoCounts;
    assert staged.volatile + loose == staged.volatile;
    AgreementFixesShape(K, staged.entries, staged.volatile, t);
  }

  lemma ValidTree(sys: Sysfs)
    requires sys.Valid()
    ensures sys.schema.Valid() && Consistent(sys.schema, sys.files)
  {
  }

  /** The staged tree of a hierarchy in order is, leaf for leaf, what is owned. */
  lemma OrderIsComplete(h: ManagedHierarchy)
    requires h.Valid() && h.InOrder()
    ensures CountOf(h.sys.schema, h.sys.files, h.sys.schema.top) == h.staged.count
    ensures SameOutside(h.staged.volatile, Values(h.staged.entries), h.sys.files)
  {
    hide SysfsModel.Sysfs.Valid, InStepIn, OwnedIn, AllFit, Values, SameOutside, Schema.Valid, Consistent, CountOf,
         RunInvariant;
    ValidTree(h.sys);
    OwnedIsComplete(h.sys.schema, h.sys.retuned, h.staged, h.sys.files);
  }

  /** Every check of ownership, and the complete comparison. */
  method VerifyEverything(h: ManagedHierarchy) returns (r: Result<()>)
    requires h.Valid()
    modifies h.sys
    ensures h.Valid() && h.sys.Still() && Looked(old(h.sys.trace), h.sys.trace)
    ensures r.Ok? ==> h.ownsHierarchy && h.AllSeen(|old(h.sys.trace)|, true)
    ensures r.Ok? && h.sys.exclusive ==> SameOutside(h.staged.volatile + h.sys.retuned, Values(h.staged.entries), h.sys.files)
    ensures old(h.InOrder()) && h.ownsHierarchy ==> r.Ok? && h.InOrder()
    ensures r.Err? ==> !r.error.Rollback?
  {
    hide SysfsModel.Sysfs.Valid, RunInvariant, Sorted, Values, SameOutside, Looked, SeenAs, Agrees, IsCapture,
         InStepIn, OwnedIn, AllFit, NoTargets, Calm;
    ghost var f0, t0 := h.sys.files, h.sys.trace;
    if h.InOrder() { InOrderIsIntact(h); }
    r := h.VerifyOwnedState();
    ghost var f, t := h.sys.files, h.sys.trace;
    InStepLater(h, h.states, f0);
    if h.InOrder() { OrderIsComplete(h); }
    if r.Ok? {
      r := VerifyComplete(h.sys, h.staged);
      LookedTransitive(t0, t, h.sys.trace);
      LookingKeepsInvariant(h.states, t, h.sys.trace);
      LookedExtends(t, h.sys.trace);
      forall i: nat | i < |h.states| && r.Ok? ensures SeenAs(h.sys.trace, |t0|, i, h.states[i].OwnedPid(), true) {
        SeenAsExtends(t, h.sys.trace, |t0|, |t0|, i, h.states[i].OwnedPid(), true);
      }
      if h.sys.exclusive { CalmTransitive(h.sys.retuned, f0, f, h.sys.files); }
    }
    StaysInOrder(h);
  }

  /** `persistent_parts`, after the complete checks: what the receipt then says is what the
      session owns, and what it owns was just found in the kernel. A hierarchy in order can
      always be recorded. */
  method CaptureParts(h: ManagedHierarchy) returns (r: Result<PersistentParts>)
    requires h.Valid()
    modifies h.sys
    ensures h.Valid() && h.sys.Still() && Looked(old(h.sys.trace), h.sys.trace)
    ensures r.Ok? ==> h.ownsHierarchy && Identified(h.states) && r.value == PersistentParts(h.staged, RunningIdentities(h.states)) && h.AllSeen(|old(h.sys.trace)|, true)
    ensures r.Ok? && h.sys.exclusive ==> SameOutside(h.staged.volatile + h.sys.retuned, Values(h.staged.entries), h.sys.files)
    ensures old(h.InOrder()) && h.ownsHierarchy ==> r.Ok? && h.InOrder()
    ensures r.Err? ==> !r.error.Rollback?
  {
    hide SysfsModel.Sysfs.Valid, RunInvariant, Sorted, Values, SameOutside, Looked, SeenAs, Agrees, IsCapture,
         InStepIn, OwnedIn;
    var checked := VerifyEverything(h);
    if checked.Err? { return Err(checked.error); }
    var identities := CollectIdentities(h.states);
    match identities {
      case Ok(running) => r := Ok(PersistentParts(h.staged, running));
      case Err(error) => r := Err(error);
    }
  }

  // ---------- attaching ----------

  /** Nobody interferes and nothing fails of itself; the kernel holds what the receipt says,
      and every recorded kdamond is on under its pid and runs what is staged for it. */
  ghost predicate AsRecorded(sys: Sysfs, parts: PersistentParts)
    reads sys
  {
    && sys.exclusive && sys.steady && sys.retuned <= parts.staged.volatile && ValidIdentities(parts.identities, parts.staged.count)
    && exists states :: RecordedAs(sys, parts, states)
  }

  ghost predicate RecordedAs(sys: Sysfs, parts: PersistentParts, states: seq<SessionState>)
    reads sys
  {
    && |states| == parts.staged.count && Marked(states, parts.identities) && AllFit(states, sys.threads)
    && OwnedIn(sys.schema, sys.retuned, parts.staged, sys.files)
    && InStepIn(sys.schema, sys.retuned, sys.targets, states, sys.active, sys.files)
  }

  lemma HierarchyParts(h: ManagedHierarchy)
    requires h.Valid()
    ensures h.sys.Valid() && Sorted(h.staged.entries) && NoCounts(h.staged.volatile) && NoTargets(h.sys.schema, h.staged.volatile)
    ensures RunInvariant(h.states, h.sys.trace)
  {
  }

  lemma RecordedIsExclusive(sys: Sysfs, parts: PersistentParts)
    ensures AsRecorded(sys, parts) ==> sys.exclusive
  {
  }

  lemma RecordedIsComplete(sys: Sysfs, parts: PersistentParts)
    requires sys.Valid() && Sorted(parts.staged.entries) && NoCounts(parts.staged.volatile) && AsRecorded(sys, parts)
    ensures CountOf(sys.schema, sys.files, sys.schema.top) == parts.staged.count
    ensures SameOutside(parts.staged.volatile, Values(parts.staged.entries), sys.files)
  {
    hide SysfsModel.Sysfs.Valid, InStepIn, OwnedIn, AllFit, Values, SameOutside, Schema.Valid, Consistent, CountOf,
         Marked, ValidIdentities;
    ValidTree(sys);
    var states :| RecordedAs(sys, parts, states);
    OwnedIsComplete(sys.schema, sys.retuned, parts.staged, sys.files);
  }

  /** Identities determine the states they mark. */
  lemma MarkedIsUnique(a: seq<SessionState>, b: seq<SessionState>, identities: seq<Identity>)
    requires |a| == |b| && Marked(a, identities) && Marked(b, identities)
    ensures a == b
  {
    forall i | 0 <= i < |a| ensures a[i] == b[i] {
      if a[i].Running? {
        assert Identity(i, a[i].pid) in identities;
      } else if b[i].Running? {
        assert Identity(i, b[i].pid) in identities;
      }
    }
  }

  /** What a hierarchy in order owns is as its receipt records it. */
  lemma OrderIsRecorded(h: ManagedHierarchy, parts: PersistentParts)
    requires h.InOrder() && parts == PersistentParts(h.staged, RunningIdentities(h.states)) && PidsFit(h.states)
    ensures AsRecorded(h.sys, parts)
  {
    hide OwnedIn, InStepIn;
    RunningIsValid(h.states);
    forall i | 0 <= i < |h.states| ensures h.states[i].Staged? || h.states[i].Running? { FitsAt(h.states, h.sys.threads, i); }
    assert RecordedAs(h.sys, parts, h.states);
  }

  /** Opens a hierarchy on the word of a receipt: refused unless the staged values, leaf for
      leaf, and every kdamond are as recorded. A new record of accesses begins here. */
  method AttachPersistent(sys: Sysfs, parts: PersistentParts) returns (r: Result<()>, h: ManagedHierarchy?)
    requires sys.Valid() && Sorted(parts.staged.entries) && NoCounts(parts.staged.volatile) && NoTargets(sys.schema, parts.staged.volatile)
    modifies sys
    ensures sys.Valid() && sys.journal == old(sys.journal) && (sys.exclusive ==> Calm(sys.retuned, old(sys.files), sys.files) && sys.active == old(sys.active))
    ensures r.Ok? ==>
              && h != null && fresh(h) && h.Valid() && h.sys == sys && h.staged == parts.staged && h.ownsHierarchy && h.previous.None?
              && |h.states| == parts.staged.count && Marked(h.states, parts.identities) && Ordered(parts.identities)
              && h.AllSeen(0, true)
    ensures r.Ok? && sys.exclusive ==> Agrees(parts.staged.entries, parts.staged.volatile + sys.retuned, sys.files)
    ensures Looked([], sys.trace)
    ensures old(AsRecorded(sys, parts)) ==> r.Ok? && h.InOrder()
    ensures r.Err? ==> !r.error.Rollback?
  {
    hide SysfsModel.Sysfs.Valid, RunInvariant, Sorted, Values, SameOutside, Looked, SeenAs, Agrees, IsCapture, Marked,
         InStepIn, OwnedIn, AllFit, NoTargets, Calm;
    h := null;
    ghost var f0 := sys.files;
    ghost var recorded: seq<SessionState> := [];
    if AsRecorded(sys, parts) {
      RecordedIsComplete(sys, parts);
      recorded :| RecordedAs(sys, parts, recorded);
    }
    sys.StartRecord();
    var complete := VerifyComplete(sys, parts.staged);
    if complete.Err? { return Err(complete.error), null; }
    var states := AttachStates(parts.staged.count, parts.identities);
    if states.Err? { return Err(states.error), null; }
    NothingRecorded(states.value);
    LookingKeepsInvariant(states.value, [], sys.trace);
    h := new ManagedHierarchy.Attach(sys, parts.staged, states.value);
    ghost var f1, t1 := sys.files, sys.trace;
    if old(AsRecorded(sys, parts)) { MarkedIsUnique(h.states, recorded, parts.identities); }
    InStepLater(h, h.states, f0);
    if h.InOrder() { InOrderIsIntact(h); }
    r := h.VerifyOwnedState();
    LookedTransitive([], t1, sys.trace);
    if r.Ok? { SeenSince(h, |t1|, [], true); }
    if sys.exclusive { CalmTransitive(sys.retuned, f0, f1, sys.files); }
    InStepLater(h, h.states, f0);
  }

  lemma NothingRecorded(states: seq<SessionState>)
    ensures RunInvariant(states, [])
  {
  }

  // ---------- operations on a persistent hierarchy ----------

  lemma UpdatedByDrift(sys: Sysfs, config: DamonConfig, observed: Option<DamonConfig>, selected: seq<nat>, seen: Tree, final: Tree,
                       ownership: StagedOwnership, active: map<nat, Tree>, t: Tree)
    requires (forall i | i in selected :: i < |config.kdamonds|)
    requires UpdatedTo(sys, config, observed, selected, seen, final, ownership, active, t)
    requires sys.exclusive ==> sys.active == active && Calm(sys.retuned, t, sys.files)
    ensures Updated(sys, config, observed, selected, seen, final, ownership)
  {
    if sys.exclusive {
      CalmTransitive(sys.retuned, final, t, sys.files);
      AgreesByDrift(ownership.entries, ownership.volatile + sys.retuned, sys.retuned, t, sys.files);
    }
  }

  /** `Updated`, of a recorded state of the kernel. */
  ghost predicate UpdatedTo(sys: Sysfs, config: DamonConfig, observed: Option<DamonConfig>, selected: seq<nat>, seen: Tree, final: Tree,
                            ownership: StagedOwnership, active: map<nat, Tree>, t: Tree)
    requires forall i | i in selected :: i < |config.kdamonds|
  {
    && Realises(sys, config, observed, seen)
    && Realises(sys, Settled(config, selected), if ContainsObsolete(config, selected) then Some(config) else observed, final)
    && IsCapture(sys.schema, ownership.entries)
    && ownership == Updates.Ownership(sys.schema, ownership.entries, Settled(config, selected))
    && (!ContainsObsolete(config, selected) ==> final == seen)
    && (sys.exclusive ==>
          && (forall i | i in selected :: RunsAsStaged(sys.schema, sys.retuned, active, seen, i))
          && SameElsewhere(sys.schema, sys.retuned, seen, final)
          && Calm(sys.retuned, final, t)
          && Agrees(ownership.entries, ownership.volatile + sys.retuned, t))
  }

  /** What a receipt promises while nobody else interferes: the kernel holds exactly the
      recorded leaves, the volatile ones with whatever value. */
  ghost predicate Describes(sys: Sysfs, parts: PersistentParts)
    requires Sorted(parts.staged.entries)
    reads sys
  {
    sys.exclusive ==> SameOutside(parts.staged.volatile + sys.retuned, Values(parts.staged.entries), sys.files)
  }

  /** The receipt and the accesses just made agree: every recorded kdamond was seen on, with
      its recorded pid, and every other one was seen off. */
  ghost predicate Witnessed(trace: seq<Event>, parts: PersistentParts) {
    && (forall x | x in parts.identities :: SeenAs(trace, 0, x.index, Some(x.pid), true))
    && forall i: nat | i < parts.staged.count && (forall x | x in parts.identities :: x.index != i) :: SeenAs(trace, 0, i, None, true)
  }

  lemma RunningIsListed(states: seq<SessionState>, i: nat)
    requires PidsFit(states) && i < |states|
    ensures states[i].Running? ==> exists x | x in RunningIdentities(states) :: x.index == i
  {
    RunningIsValid(states);
    if states[i].Running? { assert Identity(i, states[i].pid) in RunningIdentities(states); }
  }

  lemma WitnessedStates(h: ManagedHierarchy, from: nat, parts: PersistentParts)
    requires h.AllSeen(from, true) && |h.states| == parts.staged.count && PidsFit(h.states)
    requires parts.identities == RunningIdentities(h.states)
    ensures Witnessed(h.sys.trace, parts)
  {
    RunningIsValid(h.states);
    forall x | x in parts.identities ensures SeenAs(h.sys.trace, 0, x.index, Some(x.pid), true) {
      assert x == Identity(x.index, x.pid) && h.states[x.index] == Running(x.pid);
      SeenAsExtends(h.sys.trace, h.sys.trace, from, 0, x.index, Some(x.pid), true);
    }
    forall i: nat | i < parts.staged.count && (forall x | x in parts.identities :: x.index != i) ensures SeenAs(h.sys.trace, 0, i, None, true) {
      RunningIsListed(h.states, i);
      SeenAsExtends(h.sys.trace, h.sys.trace, from, 0, i, None, true);
    }
  }

  lemma UndoneByDrift(K: Schema, loose: set<Path>, volatile: set<Path>, active0: map<nat, Tree>, files0: Tree,
                      active: map<nat, Tree>, t: Tree, u: Tree, selected: seq<nat>)
    requires Undone(K, loose, volatile, active0, files0, active, t, selected) && Calm(loose, t, u)
    ensures Undone(K, loose, volatile, active0, files0, active, u, selected)
  {
    forall i | i in selected && RunsAsStaged(K, loose, active, t, i) ensures RunsAsStaged(K, loose, active, u, i) {
      RunsByDrift(K, loose, active, t, u, i);
    }
  }

  lemma InvariantParts(states: seq<SessionState>, trace: seq<Event>)
    requires RunInvariant(states, trace)
    ensures SafeStops(trace) && SafeCommits(trace)
  {
  }

  /** Stopping forgets identities and invents none. */
  lemma FewerRunning(before: seq<SessionState>, after: seq<SessionState>)
    requires |before| == |after| && PidsFit(before) && forall i | 0 <= i < |after| :: after[i] == before[i] || after[i].Staged?
    ensures PidsFit(after) && ValidIdentities(RunningIdentities(after), |after|)
    ensures forall x | x in RunningIdentities(after) :: x in RunningIdentities(before)
  {
    forall s | s in after && s.Running? ensures 1 <= s.pid <= I32_MAX {
      var i :| 0 <= i < |after| && after[i] == s;
      assert before[i] in before;
    }
    RunningIsValid(before);
    RunningIsValid(after);
    forall x | x in RunningIdentities(after) ensures x in RunningIdentities(before) {
      assert x == Identity(x.index, x.pid);
      assert after[x.index] == before[x.index];
    }
  }

  lemma {:induction false} NoneRunning(states: seq<SessionState>)
    requires forall i | 0 <= i < |states| :: states[i].Staged?
    ensures RunningIdentities(states) == []
    decreases |states|
  {
    if states != [] { NoneRunning(states[..|states| - 1]); }
  }

  /** A request that names recorded kdamonds, each once, and to which the configuration `read` can be updated. */
  ghost predicate Requestable(parts: PersistentParts, config: DamonConfig, requested: seq<nat>, page: nat, read: Option<DamonConfig>)
    requires 0 < page
  {
    && Runnable(config, true, page) && requested != []
    && (forall i | i in requested :: exists x | x in parts.identities :: x.index == i)
    && (forall i, j | 0 <= i < j < |requested| :: requested[i] != requested[j])
    && read.Some? && |read.value.kdamonds| == |config.kdamonds| == parts.staged.count
    && IsReadback(read.value) && KeepsUnselected(config, read.value, requested) && MarksExisting(Effective(config, read.value, requested), read.value)
  }

  lemma RequestableIsAcceptable(h: ManagedHierarchy, parts: PersistentParts, config: DamonConfig, requested: seq<nat>, page: nat, read: Option<DamonConfig>)
    requires 0 < page && Requestable(parts, config, requested, page, read) && h.ownsHierarchy
    requires ValidIdentities(parts.identities, parts.staged.count) && |h.states| == parts.staged.count && Marked(h.states, parts.identities)
    ensures Acceptable(h, config, requested, page, read)
  {
    hide Runnable, IsReadback, KeepsUnselected, MarksExisting;
    forall i | i in requested ensures i < |h.states| && h.states[i].Running? {
      var x :| x in parts.identities && x.index == i;
      assert x == Identity(i, x.pid);
    }
  }

  /** Attaches and, if that succeeds, updates. */
  method AttachAndUpdate(sys: Sysfs, parts: PersistentParts, config: DamonConfig, requested: seq<nat>, page: nat)
    returns (attach: Result<()>, operation: Result<()>, h: ManagedHierarchy?, ghost previous: DamonConfig, ghost seen: Tree, ghost final: Tree)
    requires sys.Valid() && Sorted(parts.staged.entries) && NoCounts(parts.staged.volatile) && NoTargets(sys.schema, parts.staged.volatile)
    requires ValidIdentities(parts.identities, parts.staged.count) && 0 < page
    modifies sys
    ensures sys.Valid() && (sys.exclusive ==> SparesOthers(old(sys.active), sys.active, requested))
    ensures attach.Err? ==> operation == attach && Looked([], sys.trace) && (sys.exclusive ==> Calm(sys.retuned, old(sys.files), sys.files))
    ensures attach.Ok? ==>
              && h != null && fresh(h) && h.Valid() && h.sys == sys && h.ownsHierarchy
              && |h.states| == h.staged.count == parts.staged.count && Marked(h.states, parts.identities)
    ensures operation.Ok? ==>
              && attach.Ok? && |previous.kdamonds| == |config.kdamonds| && (forall i | i in requested :: i < |config.kdamonds|)
              && Updated(sys, Effective(config, previous, requested), Some(previous), requested, seen, final, h.staged)
    ensures operation.Err? && !operation.error.Rollback? && sys.exclusive ==>
              Undone(sys.schema, sys.retuned, parts.staged.volatile, old(sys.active), old(sys.files), sys.active, sys.files, requested)
    ensures (old(AsRecorded(sys, parts)) && sys.retuned == {} && Requestable(parts, config, requested, page, sys.reader(old(sys.files)))
             && StagedWell(sys.trace, 0, true)) ==> operation.Ok? && h.InOrder()
  {
    hide SysfsModel.Sysfs.Valid, RunInvariant, Sorted, Values, Looked, SeenAs, Agrees, IsCapture, Marked, Calm,
         Undone, Realises, Effective, UntouchedElsewhere, ValidIdentities, AsRecorded, ManagedHierarchy.InOrder,
         ManagedHierarchy.InStep, IsReadback, Requestable, StagedWell, Runnable, ReadsAs, KeepsUnselected,
         MarksExisting, Updated, SparesOthers, CommitsFollowCheck;
    RecordedIsExclusive(sys, parts);
    previous, seen, final := DamonConfig([]), map[], map[];
    ghost var f0, a0 := sys.files, sys.active;
    SparesNothing(a0, requested);
    attach, h := AttachPersistent(sys, parts);
    if sys.exclusive { StillUndone(sys, parts.staged.volatile, a0, f0, requested); }
    operation := attach;
    if attach.Err? { return; }
    ghost var f1, t1 := sys.files, sys.trace;
    if Requestable(parts, config, requested, page, sys.reader(f0)) { RequestableIsAcceptable(h, parts, config, requested, page, sys.reader(f0)); }
    if sys.exclusive && sys.retuned == {} { CalmIsEqual(f0, f1); }
    operation, previous, seen, final := UpdateConfiguration(h, config, requested, page);
    if StagedWell(sys.trace, 0, true) { StagedWellEarlier(sys.trace, sys.trace, 0, |t1|, true); }
    if sys.exclusive && operation.Err? && !operation.error.Rollback? {
      UndoneSince(sys, parts.staged.volatile, a0, f0, f1, requested);
    }
  }

  /** How an operation on a persistent hierarchy ends. When it is uncertain what it left,
      both failures are reported. */
  datatype Outcome = Done | Failed(error: Error) | Uncertain(operation: Option<Error>, verification: Error)

  class AttachedHierarchy {
    const sys: Sysfs
    var parts: PersistentParts

    ghost predicate Valid()
      reads this, sys
    {
      && sys.Valid() && Sorted(parts.staged.entries) && NoCounts(parts.staged.volatile) && NoTargets(sys.schema, parts.staged.volatile)
      && ValidIdentities(parts.identities, parts.staged.count)
    }

    constructor (sys: Sysfs, parts: PersistentParts)
      requires sys.Valid() && Sorted(parts.staged.entries) && NoCounts(parts.staged.volatile) && NoTargets(sys.schema, parts.staged.volatile)
      requires ValidIdentities(parts.identities, parts.staged.count)
      ensures Valid() && this.sys == sys && this.parts == parts
    {
      this.sys := sys;
      this.parts := parts;
    }

    /** `update_selected`: all or nothing as for a session, and afterwards the receipt describes
        whatever the outcome left - or, when that cannot be established, stays the old one and
        the outcome says so. Identities never change. */
    method UpdateSelected(config: DamonConfig, requested: seq<nat>, page: nat)
      returns (r: Outcome, ghost attached: bool, ghost previous: DamonConfig, ghost seen: Tree, ghost final: Tree)
      requires Valid() && 0 < page
      modifies this, sys
      ensures Valid() && parts.identities == old(parts.identities) && SafeCommits(sys.trace)
      ensures sys.exclusive ==> SparesOthers(old(sys.active), sys.active, requested)
      ensures r.Uncertain? || !attached ==> parts == old(parts)
      ensures attached && !r.Uncertain? ==> Describes(sys, parts) && Witnessed(sys.trace, parts)
      ensures !attached ==> r.Failed? && Looked([], sys.trace) && (sys.exclusive ==> Calm(sys.retuned, old(sys.files), sys.files))
      ensures r.Done? ==>
                && |previous.kdamonds| == |config.kdamonds| && (forall i | i in requested :: i < |config.kdamonds|)
                && Updated(sys, Effective(config, previous, requested), Some(previous), requested, seen, final, parts.staged)
      ensures r.Failed? && !r.error.Rollback? && sys.exclusive ==>
                Undone(sys.schema, sys.retuned, old(parts.staged.volatile), old(sys.active), old(sys.files), sys.active, sys.files, requested)
      ensures (old(AsRecorded(sys, parts)) && sys.retuned == {} && Requestable(old(parts), config, requested, page, sys.reader(old(sys.files)))
               && StagedWell(sys.trace, 0, true)) ==> r.Done? && AsRecorded(sys, parts)
    {
      hide ManagedHierarchy.Valid, SysfsModel.Sysfs.Valid, RunInvariant, Sorted, Values, SameOutside, Looked, SeenAs,
           Agrees, IsCapture, Marked, Calm, Undone, RunsAsStaged, SparesOthers, Realises, Effective, Witnessed,
           SafeCommits, SafeStops, ValidIdentities, RunningIdentities, Settled, ContainsObsolete, AsRecorded,
           ManagedHierarchy.InOrder, Requestable, StagedWell;
      ghost var f0, a0, was := sys.files, sys.active, parts;
      var attach, operation, h;
      attach, operation, h, previous, seen, final := AttachAndUpdate(sys, parts, config, requested, page);
      attached := attach.Ok?;
      NoCommitsYet(sys.trace);
      if attach.Err? { return Failed(attach.error), attached, previous, seen, final; }
      HierarchyParts(h);
      AttachKeepsIdentities(h.states, parts.identities);
      ghost var f2, owned, t2, from := sys.files, h.staged, sys.trace, |sys.trace|;
      var captured := CaptureParts(h);
      HierarchyParts(h);
      LookedExtends(t2, sys.trace);
      if StagedWell(sys.trace, 0, true) { StagedWellEarlier(sys.trace, t2, 0, 0, true); }
      InvariantParts(h.states, sys.trace);
      if captured.Err? {
        r := Uncertain(if operation.Err? then Some(operation.error) else None, captured.error);
      } else {
        parts := captured.value;
        WitnessedStates(h, from, parts);
        if h.InOrder() { OrderIsRecorded(h, parts); }
        if operation.Ok? {
          UpdatedByDrift(sys, Effective(config, previous, requested), Some(previous), requested, seen, final, owned, sys.active, f2);
          r := Done;
        } else {
          if sys.exclusive && !operation.error.Rollback? {
            UndoneByDrift(sys.schema, sys.retuned, was.staged.volatile, a0, f0, sys.active, f2, sys.files, requested);
          }
          r := Failed(operation.error);
        }
      }
    }

    /** `stop`: stops what is still as recorded. The receipt keeps the staged values and names
        exactly the kdamonds just seen running - none after success. */
    method Stop() returns (r: Outcome, ghost attached: bool)
      requires Valid()
      modifies this, sys
      ensures Valid() && parts.staged == old(parts.staged) && SafeStops(sys.trace)
      ensures r.Uncertain? || !attached ==> parts == old(parts)
      ensures forall x | x in parts.identities :: x in old(parts.identities)
      ensures attached && !r.Uncertain? ==> Describes(sys, parts) && Witnessed(sys.trace, parts)
      ensures !attached ==> r.Failed? && Looked([], sys.trace)
      ensures r.Done? ==> parts.identities == []
      ensures old(AsRecorded(sys, parts)) ==> r.Done? && AsRecorded(sys, parts)
    {
      hide SysfsModel.Sysfs.Valid, RunInvariant, Sorted, Values, SameOutside, Looked, SeenAs, Agrees, IsCapture,
           Marked, Calm, Witnessed, SafeCommits, SafeStops, ValidIdentities, RunningIdentities, AsRecorded,
           ManagedHierarchy.InOrder, ManagedHierarchy.Intact;
      var attach, h := AttachPersistent(sys, parts);
      attached := attach.Ok?;
      NoCommitsYet(sys.trace);
      if attach.Err? { return Failed(attach.error), attached; }
      AttachKeepsIdentities(h.states, parts.identities);
      ghost var before := h.states;
      var operation := h.StopAll();
      FewerRunning(before, h.states);
      ghost var from := |sys.trace|;
      var captured := CaptureParts(h);
      InvariantParts(h.states, sys.trace);
      if captured.Err? {
        r := Uncertain(if operation.Err? then Some(operation.error) else None, captured.error);
      } else {
        parts := captured.value;
        WitnessedStates(h, from, parts);
        if h.InOrder() { OrderIsRecorded(h, parts); }
        if operation.Ok? { NoneRunning(h.states); }
        r := if operation.Ok? then Done else Failed(operation.error);
      }
    }
  }

  lemma NoCommitsYet(trace: seq<Event>)
    ensures Looked([], trace) ==> SafeCommits(trace) && SafeStops(trace)
  {
    if Looked([], trace) {
      SafeWithoutOff([], trace);
      SafeWithoutCommit([], trace);
    }
  }
}
