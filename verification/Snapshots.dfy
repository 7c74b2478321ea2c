/** Comparing the kernel with a captured hierarchy, and writing one back. */
module Snapshots {
  import opened Outcomes
  import opened Paths
  import opened KernelTree
  import opened Restoration
  import opened SysfsModel

  const MAX_RETRIES: nat := 5

  /** The captured leaves outside `ignored` have their captured values in `t`. */
  ghost predicate Agrees(entries: seq<Entry>, ignored: set<Path>, t: Tree) {
    forall e | e in entries && e.path !in ignored :: e.path in t && t[e.path] == e.value
  }

  /** The captured leaves at or below `root`. */
  function Below(entries: seq<Entry>, root: Path): seq<Entry>
    decreases |entries|
  {
    if entries == [] then []
    else if root <= entries[0].path then [entries[0]] + Below(entries[1..], root)
    else Below(entries[1..], root)
  }

  lemma {:induction false} BelowConcat(a: seq<Entry>, b: seq<Entry>, root: Path)
    ensures Below(a + b, root) == Below(a, root) + Below(b, root)
    decreases |a|
  {
    if a == [] {
      assert a + b == b;
    } else {
      assert (a + b)[1..] == a[1..] + b;
      BelowConcat(a[1..], b, root);
    }
  }

  lemma {:induction false} BelowMembers(entries: seq<Entry>, root: Path)
    ensures forall e :: e in Below(entries, root) <==> e in entries && root <= e.path
    ensures (forall e | e in entries :: root <= e.path) ==> Below(entries, root) == entries
    ensures (forall e | e in entries :: !(root <= e.path)) ==> Below(entries, root) == []
    decreases |entries|
  {
    if entries != [] {
      assert entries == [entries[0]] + entries[1..];
      BelowMembers(entries[1..], root);
    }
  }

  /** `partition_point` followed by `take_while`: on sorted entries it visits exactly
      the leaves below `root` - kdamond 1 never includes kdamond 10. */
  method SubtreeBlock(entries: seq<Entry>, root: Path) returns (first: nat, last: nat)
    requires Sorted(entries)
    ensures first <= last <= |entries|
    ensures entries[first..last] == Below(entries, root)
  {
    first := PartitionPoint(entries, root);
    last := first;
    while last < |entries| && root <= entries[last].path
      invariant first <= last <= |entries|
      invariant forall i | first <= i < last :: root <= entries[i].path
    {
      last := last + 1;
    }
    BlockIsBelow(entries, root, first, last);
  }

  lemma BlockIsBelow(entries: seq<Entry>, root: Path, first: nat, last: nat)
    requires Sorted(entries) && first <= last <= |entries|
    requires forall i | 0 <= i < first :: PathLess(entries[i].path, root)
    requires forall i | first <= i < last :: root <= entries[i].path
    requires last < |entries| ==> !(root <= entries[last].path) && !PathLess(entries[last].path, root)
    ensures entries[first..last] == Below(entries, root)
  {
    NothingBefore(entries, root, first);
    NothingBeyond(entries, root, last);
    BelowMembers(entries[..first], root);
    BelowMembers(entries[first..last], root);
    BelowMembers(entries[last..], root);
    BelowParts(entries, root, first, last);
  }

  lemma BelowParts(entries: seq<Entry>, root: Path, first: nat, last: nat)
    requires first <= last <= |entries|
    ensures Below(entries, root) == Below(entries[..first], root) + (Below(entries[first..last], root) + Below(entries[last..], root))
  {
    var a, b, c := entries[..first], entries[first..last], entries[last..];
    assert entries == a + (b + c);
    BelowConcat(a, b + c, root);
    BelowConcat(b, c, root);
  }

  lemma NothingBefore(entries: seq<Entry>, root: Path, first: nat)
    requires first <= |entries|
    requires forall i | 0 <= i < first :: PathLess(entries[i].path, root)
    ensures forall e | e in entries[..first] :: !(root <= e.path)
  {
    forall i | 0 <= i < first ensures !(root <= entries[i].path) {
      if root <= entries[i].path { RootPrecedesSubtree(root, entries[i].path); }
    }
  }

  lemma NothingBeyond(entries: seq<Entry>, root: Path, last: nat)
    requires Sorted(entries) && last <= |entries|
    requires last < |entries| ==> !(root <= entries[last].path) && !PathLess(entries[last].path, root)
    ensures forall e | e in entries[last..] :: !(root <= e.path)
  {
    forall i | last <= i < |entries| ensures !(root <= entries[i].path) {
      if root <= entries[i].path {
        SubtreeIsContiguous(root, entries[i].path, entries[last].path);
        PathOrderTotal(entries[i].path, entries[last].path);
      }
    }
  }

  // ---------- comparisons ----------

  method MatchesCurrentExcept(sys: Sysfs, entries: seq<Entry>, ignored: set<Path>) returns (r: Result<bool>)
    requires sys.Valid()
    modifies sys
    ensures sys.Valid() && sys.Quiet()
    ensures sys.exclusive && r == Ok(true) ==> Agrees(entries, ignored + sys.retuned, sys.files)
    ensures sys.exclusive && sys.retuned <= ignored && r == Ok(false) ==> !Agrees(entries, ignored, sys.files)
    ensures r.Err? ==> r.error.IsAccessFailure() && !sys.steady
    ensures old(sys.Idle()) ==> (r == Ok(true) <==> Agrees(entries, ignored, sys.files))
  {
    hide SysfsModel.Sysfs.Valid;
    for i := 0 to |entries|
      invariant sys.Valid() && sys.Quiet()
      invariant sys.exclusive ==> AgreesUpTo(entries, i, ignored + sys.retuned, sys.files)
      invariant old(sys.Idle()) ==> AgreesUpTo(entries, i, ignored, sys.files)
    {
      if entries[i].path !in ignored {
        var equal := sys.Compare(entries[i].path, entries[i].value);
        if equal != Ok(true) {
          assert entries[i] in entries;
          return equal;
        }
      }
    }
    r := Ok(true);
  }

  ghost predicate AgreesUpTo(entries: seq<Entry>, n: nat, ignored: set<Path>, t: Tree)
    requires n <= |entries|
  {
    forall i | 0 <= i < n && entries[i].path !in ignored ::
      entries[i].path in t && t[entries[i].path] == entries[i].value
  }

  /** The captured leaves outside a directory, compared one by one. */
  method MatchesOutsideExcept(sys: Sysfs, entries: seq<Entry>, root: Path, ignored: set<Path>) returns (r: Result<bool>)
    requires sys.Valid()
    modifies sys
    ensures sys.Valid() && sys.Quiet()
    ensures sys.exclusive && r == Ok(true) ==>
              forall e | e in entries && !(root <= e.path) && e.path !in ignored + sys.retuned :: e.path in sys.files && sys.files[e.path] == e.value
    ensures sys.exclusive && sys.retuned <= ignored && r == Ok(false) ==>
              exists e | e in entries && !(root <= e.path) && e.path !in ignored :: !(e.path in sys.files && sys.files[e.path] == e.value)
    ensures r.Err? ==> r.error.IsAccessFailure() && !sys.steady
  {
    hide SysfsModel.Sysfs.Valid;
    for i := 0 to |entries|
      invariant sys.Valid() && sys.Quiet()
      invariant sys.exclusive ==> forall k | 0 <= k < i && !(root <= entries[k].path) && entries[k].path !in ignored + sys.retuned ::
                  entries[k].path in sys.files && sys.files[entries[k].path] == entries[k].value
    {
      if !(root <= entries[i].path) && entries[i].path !in ignored {
        var equal := sys.Compare(entries[i].path, entries[i].value);
        if equal != Ok(true) {
          assert entries[i] in entries;
          return equal;
        }
      }
    }
    r := Ok(true);
  }

  method MatchesUnderExcept(sys: Sysfs, entries: seq<Entry>, root: Path, ignored: set<Path>) returns (r: Result<bool>)
    requires sys.Valid() && Sorted(entries)
    modifies sys
    ensures sys.Valid() && sys.Quiet()
    ensures sys.exclusive && r == Ok(true) ==> Agrees(Below(entries, root), ignored + sys.retuned, sys.files)
    ensures sys.exclusive && sys.retuned <= ignored && r == Ok(false) ==> !Agrees(Below(entries, root), ignored, sys.files)
    ensures r.Err? ==> r.error.IsAccessFailure() && !sys.steady
    ensures old(sys.Idle()) ==> (r == Ok(true) <==> Agrees(Below(entries, root), ignored, sys.files))
  {
    var first, last := SubtreeBlock(entries, root);
    r := MatchesCurrentExcept(sys, entries[first..last], ignored);
  }

  method RetryMatchesExcept(sys: Sysfs, entries: seq<Entry>, ignored: set<Path>) returns (r: Result<bool>)
    requires sys.Valid()
    modifies sys
    ensures sys.Valid() && sys.Quiet()
    ensures sys.exclusive && r == Ok(true) ==> Agrees(entries, ignored + sys.retuned, sys.files)
    ensures sys.exclusive && sys.retuned <= ignored && r == Ok(false) ==> !Agrees(entries, ignored, sys.files)
    ensures r.Err? ==> r.error.IsAccessFailure() && !sys.steady
    ensures old(sys.Idle()) ==> (r == Ok(true) <==> Agrees(entries, ignored, sys.files))
  {
    var retries := 0;
    r := MatchesCurrentExcept(sys, entries, ignored);
    while r.Err? && r.error.Busy? && retries < MAX_RETRIES
      invariant sys.Valid() && sys.Quiet() && retries <= MAX_RETRIES
      invariant sys.exclusive && r == Ok(true) ==> Agrees(entries, ignored + sys.retuned, sys.files)
      invariant sys.exclusive && sys.retuned <= ignored && r == Ok(false) ==> !Agrees(entries, ignored, sys.files)
      invariant r.Err? ==> r.error.IsAccessFailure() && !sys.steady
      invariant old(sys.Idle()) ==> (r == Ok(true) <==> Agrees(entries, ignored, sys.files))
      decreases MAX_RETRIES - retries
    {
      r := MatchesCurrentExcept(sys, entries, ignored);
      retries := retries + 1;
    }
  }

  // ---------- restoration ----------

  ghost predicate EntryOrder(order: seq<Entry>) {
    forall i, j | 0 <= i < j < |order| :: KeyLess(order[i].path, order[j].path)
  }

  /** Sorting by restoration key. */
  method SortForRestoration(entries: seq<Entry>) returns (order: seq<Entry>)
    requires Sorted(entries)
    ensures EntryOrder(order)
    ensures forall e :: e in order <==> e in entries
  {
    order := [];
    for n := 0 to |entries|
      invariant EntryOrder(order)
      invariant forall e :: e in order <==> e in entries[..n]
    {
      var e := entries[n];
      var k := |order|;
      while k > 0 && KeyLess(e.path, order[k - 1].path)
        invariant 0 <= k <= |order|
        invariant forall j | k <= j < |order| :: KeyLess(e.path, order[j].path)
      {
        k := k - 1;
      }
      KeyInsert(entries, n, order, k);
      order := order[..k] + [e] + order[k..];
    }
    assert entries[..|entries|] == entries;
  }

  lemma KeyInsert(entries: seq<Entry>, n: nat, order: seq<Entry>, k: nat)
    requires Sorted(entries) && n < |entries| && EntryOrder(order) && k <= |order|
    requires forall e :: e in order <==> e in entries[..n]
    requires forall j | k <= j < |order| :: KeyLess(entries[n].path, order[j].path)
    requires k > 0 ==> !KeyLess(entries[n].path, order[k - 1].path)
    ensures EntryOrder(order[..k] + [entries[n]] + order[k..])
    ensures forall e :: e in order[..k] + [entries[n]] + order[k..] <==> e in entries[..n + 1]
  {
    var e := entries[n];
    var r := order[..k] + [e] + order[k..];
    assert entries[..n + 1] == entries[..n] + [e];
    assert order == order[..k] + order[k..];
    forall j | 0 <= j < k ensures KeyLess(order[j].path, e.path) {
      assert order[k - 1] in order;
      var m :| 0 <= m < n && entries[m] == order[k - 1];
      PathOrderTotal(entries[m].path, e.path);
      KeyOrderTotal(order[k - 1].path, e.path);
      if j < k - 1 { KeyLessTransitive(order[j].path, order[k - 1].path, e.path); }
    }
    forall i, j | 0 <= i < j < |r| ensures KeyLess(r[i].path, r[j].path) {
      if i < k < j { KeyLessTransitive(r[i].path, e.path, r[j].path); }
    }
  }

  /** The written-back leaves of `entries`: those in `paths`, in restoration order. */
  ghost predicate OrderOf(order: seq<Entry>, entries: seq<Entry>, paths: set<Path>) {
    EntryOrder(order) && forall e :: e in order <==> e in entries && e.path in paths
  }

  /** Restoring `paths` from `entries` is possible and nobody else is writing. */
  ghost predicate Restorable(sys: Sysfs, entries: seq<Entry>, paths: set<Path>, ignored: set<Path>)
    requires Sorted(entries)
    reads sys
  {
    sys.exclusive && NoCounts(ignored) && Recoverable(sys.schema, Values(entries), paths, sys.files)
  }

  /** Captured leaves outside `paths` have not moved, the retuned ones apart. */
  ghost predicate Framed(entries: seq<Entry>, paths: set<Path>, loose: set<Path>, before: Tree, after: Tree) {
    forall p | p in PathsOf(entries) && p !in paths && p in before :: p in after && (p in loose || after[p] == before[p])
  }

  lemma FramedNothing(entries: seq<Entry>, paths: set<Path>, loose: set<Path>, t: Tree)
    ensures Framed(entries, paths, loose, t, t)
  {
  }

  lemma FramedTransitive(entries: seq<Entry>, paths: set<Path>, loose: set<Path>, t: Tree, u: Tree, v: Tree)
    requires Framed(entries, paths, loose, t, u) && Framed(entries, paths, loose, u, v)
    ensures Framed(entries, paths, loose, t, v)
  {
  }

  ghost function Visited(order: seq<Entry>, n: nat): set<Path>
    requires n <= |order|
  {
    set i | 0 <= i < n :: order[i].path
  }

  lemma EntryIsNext(order: seq<Entry>, entries: seq<Entry>, paths: set<Path>, n: nat)
    requires Sorted(entries) && OrderOf(order, entries, paths) && n < |order|
    ensures Next(Values(entries), paths, Visited(order, n), order[n].path)
    ensures Values(entries)[order[n].path] == order[n].value
    ensures Visited(order, n + 1) == Visited(order, n) + {order[n].path}
    ensures Visited(order, n) <= paths && Visited(order, n) <= Values(entries).Keys
  {
    hide Values, Sorted;
    var p := order[n].path;
    assert order[n] in order;
    forall q | q in Values(entries) && q in paths && KeyLess(q, p) ensures q in Visited(order, n) {
      var e :| e in entries && e.path == q;
      assert e in order;
      var k :| 0 <= k < |order| && order[k] == e;
      if k >= n { KeyOrderTotal(p, q); }
    }
    if p in Visited(order, n) {
      KeyOrderTotal(p, p);
    }
    forall q | q in Visited(order, n) ensures q in paths && q in Values(entries) {
      var k :| 0 <= k < n && order[k].path == q;
      assert order[k] in order;
    }
  }

  lemma AllVisited(order: seq<Entry>, entries: seq<Entry>, paths: set<Path>)
    requires Sorted(entries) && OrderOf(order, entries, paths)
    ensures forall p | p in Values(entries) && p in paths :: p in Visited(order, |order|)
  {
    forall p | p in Values(entries) && p in paths ensures p in Visited(order, |order|) {
      var e :| e in entries && e.path == p;
      assert e in order;
    }
  }

  /** The loop both restorations share: in restoration order, counts are always
      rewritten and every other leaf only when it differs. */
  method WriteBack(sys: Sysfs, order: seq<Entry>, ignored: set<Path>, ghost entries: seq<Entry>, ghost paths: set<Path>, ghost drift: set<Path>)
    returns (r: Result<()>)
    requires sys.Valid() && Sorted(entries) && OrderOf(order, entries, paths)
    modifies sys
    ensures sys.Valid() && WritesOnly(old(sys.trace), sys.trace)
    ensures r.Err? ==> r.error.IsAccessFailure()
    ensures sys.exclusive && sys.schema.top !in paths ==> sys.active == old(sys.active)
    ensures ThreadsKept(sys, paths, old(sys.threads), sys.threads)
    ensures old(Restorable(sys, entries, paths, ignored) && Drifts(sys, drift)) ==>
              && Restorable(sys, entries, paths, ignored) && Drifts(sys, drift)
              && Framed(entries, paths, drift, old(sys.files), sys.files)
              && (r.Ok? ==> Progress(sys.schema, Values(entries), paths, ignored + drift, sys.files, Visited(order, |order|)))
              && (Writable(sys, paths, old(sys.threads)) ==> r.Ok?)
  {
    ghost var s := Values(entries);
    ghost var sound := Restorable(sys, entries, paths, ignored) && Drifts(sys, drift);
    if sound { RestorableStarts(sys, entries, paths, ignored, drift, order); }
    FramedNothing(entries, paths, drift, sys.files);
    assert WritesOnly(sys.trace, sys.trace);
    assert ThreadsKept(sys, paths, sys.threads, sys.threads);
    hide SysfsModel.Sysfs.Valid, Values, Sorted, OrderOf, Restoring, Restorable, Visited, Framed, WritesOnly, Drifts,
         Resting, ThreadsKept, Writable;
    for n := 0 to |order|
      invariant sys.Valid() && WritesOnly(old(sys.trace), sys.trace)
      invariant sys.exclusive && sys.schema.top !in paths ==> sys.active == old(sys.active)
      invariant ThreadsKept(sys, paths, old(sys.threads), sys.threads)
      invariant sound ==> Restoring(sys, s, paths, ignored, drift, Visited(order, n))
      invariant sound ==> Framed(entries, paths, drift, old(sys.files), sys.files)
    {
      var e := order[n];
      EntryIsNext(order, entries, paths, n);
      ghost var before, t, threads := sys.files, sys.trace, sys.threads;
      r := WriteBackOne(sys, e, ignored, entries, paths, drift, Visited(order, n));
      WritesOnlyTransitive(old(sys.trace), t, sys.trace);
      ThreadsKeptTransitive(sys, paths, old(sys.threads), threads, sys.threads);
      if sound {
        FramedTransitive(entries, paths, drift, old(sys.files), before, sys.files);
        RestoringIsRestorable(sys, entries, paths, ignored, drift, Visited(order, if r.Ok? then n + 1 else n));
      }
      if r.Err? { return r; }
    }
    if sound { RestoringIsRestorable(sys, entries, paths, ignored, drift, Visited(order, |order|)); }
    r := Ok(());
  }

  lemma RestorableStarts(sys: Sysfs, entries: seq<Entry>, paths: set<Path>, ignored: set<Path>, drift: set<Path>, order: seq<Entry>)
    requires sys.Valid() && Sorted(entries) && Restorable(sys, entries, paths, ignored) && Drifts(sys, drift)
    ensures Restoring(sys, Values(entries), paths, ignored, drift, Visited(order, 0))
  {
  }

  lemma RestoringIsRestorable(sys: Sysfs, entries: seq<Entry>, paths: set<Path>, ignored: set<Path>, drift: set<Path>, done: set<Path>)
    requires Sorted(entries) && Restoring(sys, Values(entries), paths, ignored, drift, done)
    ensures Restorable(sys, entries, paths, ignored) && Drifts(sys, drift)
    ensures Progress(sys.schema, Values(entries), paths, ignored + drift, sys.files, done)
  {
  }

  /** Between two accesses only leaves in `drift` can move. */
  ghost predicate Drifts(sys: Sysfs, drift: set<Path>)
    reads sys
  {
    drift == sys.retuned || (drift == {} && sys.Idle())
  }

  /** The state a restoration of `paths` is in between two leaves. */
  ghost predicate Restoring(sys: Sysfs, s: Tree, paths: set<Path>, ignored: set<Path>, drift: set<Path>, done: set<Path>)
    reads sys
  {
    sys.exclusive && Drifts(sys, drift) && Progress(sys.schema, s, paths, ignored + drift, sys.files, done)
  }

  /** No thread keeps the kdamond count from being rewritten, should that be necessary. */
  ghost predicate Writable(sys: Sysfs, paths: set<Path>, threads: map<nat, Thread>) {
    sys.steady && (sys.schema.top in paths ==> Resting(threads))
  }

  /** What becomes of the threads while leaves in `paths` are written. */
  ghost predicate ThreadsKept(sys: Sysfs, paths: set<Path>, before: map<nat, Thread>, after: map<nat, Thread>) {
    sys.steady ==> (sys.schema.top !in paths ==> before == after) && (Resting(before) ==> Resting(after))
  }

  lemma ThreadsKeptTransitive(sys: Sysfs, paths: set<Path>, a: map<nat, Thread>, b: map<nat, Thread>, c: map<nat, Thread>)
    requires ThreadsKept(sys, paths, a, b)
    ensures ThreadsKept(sys, paths, b, c) ==> ThreadsKept(sys, paths, a, c)
    ensures Writable(sys, paths, a) ==> Writable(sys, paths, b)
  {
  }

  method WriteBackOne(sys: Sysfs, e: Entry, ignored: set<Path>, ghost entries: seq<Entry>, ghost paths: set<Path>, ghost drift: set<Path>, ghost done: set<Path>)
    returns (r: Result<()>)
    requires sys.Valid() && Sorted(entries)
    requires Next(Values(entries), paths, done, e.path) && Values(entries)[e.path] == e.value
    modifies sys
    ensures sys.Valid() && WritesOnly(old(sys.trace), sys.trace)
    ensures r.Err? ==> r.error.IsAccessFailure()
    ensures sys.exclusive && sys.schema.top !in paths ==> sys.active == old(sys.active)
    ensures ThreadsKept(sys, paths, old(sys.threads), sys.threads)
    ensures old(Restoring(sys, Values(entries), paths, ignored, drift, done)) ==>
              && Restoring(sys, Values(entries), paths, ignored, drift, if r.Ok? then done + {e.path} else done)
              && Framed(entries, paths, drift, old(sys.files), sys.files)
              && (Writable(sys, paths, old(sys.threads)) ==> r.Ok?)
  {
    hide SysfsModel.Sysfs.Valid, Values, Sorted, Resting;
    ghost var s, K, skip := Values(entries), sys.schema, ignored + drift;
    ghost var sound := Restoring(sys, s, paths, ignored, drift, done);
    if sound { NextIsPresent(K, s, paths, skip, sys.files, done, e.path); }
    if e.path in ignored {
      if sound { PassStep(K, s, paths, skip, sys.files, done, e.path); }
      return Ok(());
    }
    var differs := true;
    if !IsReconstructionCount(e.path) {
      var equal := CompareEntry(sys, e, s, paths, ignored, drift, done);
      if equal.Err? { return Err(equal.error); }
      differs := !equal.value;
    }
    if differs {
      r := WriteEntry(sys, e, s, paths, ignored, drift, done);
    } else {
      if sound { PassStep(K, s, paths, skip, sys.files, done, e.path); }
      r := Ok(());
    }
  }

  method CompareEntry(sys: Sysfs, e: Entry, ghost s: Tree, ghost paths: set<Path>, ghost ignored: set<Path>, ghost drift: set<Path>, ghost done: set<Path>)
    returns (equal: Result<bool>)
    requires sys.Valid()
    modifies sys
    ensures sys.Valid() && sys.Quiet() && (equal.Err? ==> equal.error.IsAccessFailure() && !sys.steady)
    ensures old(Restoring(sys, s, paths, ignored, drift, done)) ==> Restoring(sys, s, paths, ignored, drift, done)
    ensures old(Restoring(sys, s, paths, ignored, drift, done)) && equal == Ok(true) ==>
              e.path in sys.files && (e.path in drift || sys.files[e.path] == e.value)
  {
    hide SysfsModel.Sysfs.Valid, Resting;
    ghost var t0 := sys.files;
    ghost var sound := Restoring(sys, s, paths, ignored, drift, done);
    equal := sys.Compare(e.path, e.value);
    if sound { ProgressByDrift(sys.schema, s, paths, ignored + drift, t0, done, drift, sys.files); }
  }

  method WriteEntry(sys: Sysfs, e: Entry, ghost s: Tree, ghost paths: set<Path>, ghost ignored: set<Path>, ghost drift: set<Path>, ghost done: set<Path>)
    returns (r: Result<()>)
    requires sys.Valid() && Next(s, paths, done, e.path) && s[e.path] == e.value
    modifies sys
    ensures sys.Valid() && WritesOnly(old(sys.trace), sys.trace)
    ensures r.Err? ==> r.error.IsAccessFailure()
    ensures sys.exclusive && sys.schema.top !in paths ==> sys.active == old(sys.active)
    ensures ThreadsKept(sys, paths, old(sys.threads), sys.threads)
    ensures old(Restoring(sys, s, paths, ignored, drift, done)) ==>
              && Restoring(sys, s, paths, ignored, drift, if r.Ok? then done + {e.path} else done)
              && (forall p | p in s && p !in paths && p in old(sys.files) ::
                    p in sys.files && (p in drift || sys.files[p] == old(sys.files)[p]))
              && (Writable(sys, paths, old(sys.threads)) ==> r.Ok?)
  {
    hide SysfsModel.Sysfs.Valid, Consistent, Schema.Lawful;
    ghost var K, skip, t0 := sys.schema, ignored + drift, sys.files;
    ghost var sound := Restoring(sys, s, paths, ignored, drift, done);
    if sound { RestoreStep(K, s, paths, skip, t0, done, e.path); }
    r := sys.Write(e.path, e.value);
    if sound {
      if r.Ok? {
        ProgressByDrift(K, s, paths, skip, AfterWrite(K, t0, e.path, e.value), done + {e.path}, drift, sys.files);
      } else {
        ProgressByDrift(K, s, paths, skip, t0, done, drift, sys.files);
      }
    }
  }

  /** Restores the captured leaves in `paths`, checks them, and reports a leaf that will
      not keep its value. Undisturbed, only a failed access can make it fail. */
  method RestorePathsExcept(sys: Sysfs, entries: seq<Entry>, paths: set<Path>, ignored: set<Path>) returns (r: Result<()>)
    requires sys.Valid() && Sorted(entries)
    modifies sys
    ensures sys.Valid() && Uncommanded(old(sys.trace), sys.trace)
    ensures sys.exclusive && sys.schema.top !in paths ==> sys.active == old(sys.active)
    ensures ThreadsKept(sys, paths, old(sys.threads), sys.threads)
    ensures old(Restorable(sys, entries, paths, ignored)) ==>
              && Restorable(sys, entries, paths, ignored)
              && Framed(entries, paths, sys.retuned, old(sys.files), sys.files)
              && (r.Ok? ==> sys.files.Keys == PathsOf(entries)
                            && Agrees(Within(entries, paths), ignored + sys.retuned, sys.files))
              && (r.Err? && sys.retuned <= ignored ==> r.error.IsAccessFailure())
              && (sys.retuned <= ignored && Writable(sys, paths, old(sys.threads)) ==> r.Ok?)
    ensures r.Err? ==> r.error.IsAccessFailure() || r.error == OwnershipLost(ValuesChanged)
  {
    var chosen := Within(entries, paths);
    WithinMembers(entries, paths);
    var order := SortForRestoration(chosen);
    r := WriteBack(sys, order, ignored, entries, paths, sys.retuned);
    WritesAreUncommanded(old(sys.trace), sys.trace);
    if r.Err? { return; }
    ghost var sound := old(Restorable(sys, entries, paths, ignored));
    ghost var t0 := sys.files;
    if sound { RestoredAgrees(sys, entries, paths, ignored, sys.retuned, order); }
    r := CheckRestored(sys, chosen, ignored, ValuesChanged, sys.retuned);
    if sound {
      ProgressByDrift(sys.schema, Values(entries), paths, ignored + sys.retuned, t0, Visited(order, |order|), sys.retuned, sys.files);
    }
  }

  method CheckRestored(sys: Sysfs, chosen: seq<Entry>, ignored: set<Path>, loss: Loss, ghost drift: set<Path>) returns (r: Result<()>)
    requires sys.Valid()
    modifies sys
    ensures sys.Valid() && sys.Quiet()
    ensures r.Ok? && sys.exclusive ==> Agrees(chosen, ignored + sys.retuned, sys.files)
    ensures r.Ok? && old(sys.Idle()) ==> Agrees(chosen, ignored, sys.files)
    ensures sys.exclusive && old(Drifts(sys, drift)) && drift <= ignored && old(Agrees(chosen, ignored + drift, sys.files)) ==>
              (r.Err? ==> r.error.IsAccessFailure()) && (sys.steady ==> r.Ok?)
    ensures r.Err? ==> r.error.IsAccessFailure() || r.error == OwnershipLost(loss)
  {
    var matches := MatchesCurrentExcept(sys, chosen, ignored);
    if matches.Err? { return Err(matches.error); }
    r := if matches.value then Ok(()) else Err(OwnershipLost(loss));
  }

  /** Restores the whole capture: `restore_except`. */
  method RestoreExcept(sys: Sysfs, entries: seq<Entry>, ignored: set<Path>) returns (r: Result<()>)
    requires sys.Valid() && Sorted(entries)
    modifies sys
    ensures sys.Valid() && WritesOnly(old(sys.trace), sys.trace) && Uncommanded(old(sys.trace), sys.trace)
    ensures sys.exclusive && NoCounts(ignored) && Consistent(sys.schema, Values(entries)) ==>
              && (r.Ok? ==> sys.files.Keys == PathsOf(entries) && Agrees(entries, ignored + sys.retuned, sys.files))
              && (r.Err? && sys.retuned <= ignored ==> r.error.IsAccessFailure())
    ensures old(sys.Idle()) && NoCounts(ignored) && Consistent(sys.schema, Values(entries)) ==>
              r.Ok? && sys.Idle() && sys.files.Keys == PathsOf(entries) && Agrees(entries, ignored, sys.files)
    ensures r.Err? ==> r.error.IsAccessFailure() || r.error == OwnershipLost(Unrestorable)
  {
    ghost var drift := if sys.Idle() then {} else sys.retuned;
    r := WriteWholeBack(sys, entries, ignored, drift);
    WritesAreUncommanded(old(sys.trace), sys.trace);
    if r.Err? { return; }
    assert ignored + {} == ignored;
    hide SysfsModel.Sysfs.Valid, Values, Sorted, Uncommanded, WritesOnly, Agrees, Resting, NoCounts;
    r := CheckRestored(sys, entries, ignored, Unrestorable, drift);
  }

  method WriteWholeBack(sys: Sysfs, entries: seq<Entry>, ignored: set<Path>, ghost drift: set<Path>) returns (r: Result<()>)
    requires sys.Valid() && Sorted(entries) && Drifts(sys, drift)
    modifies sys
    ensures sys.Valid() && WritesOnly(old(sys.trace), sys.trace) && Drifts(sys, drift)
    ensures old(sys.Idle()) ==> sys.Idle()
    ensures sys.exclusive && NoCounts(ignored) && Consistent(sys.schema, Values(entries)) ==>
              && (r.Ok? ==> sys.files.Keys == PathsOf(entries) && Agrees(entries, ignored + drift, sys.files))
              && (old(sys.Idle()) ==> r.Ok?)
    ensures r.Err? ==> r.error.IsAccessFailure()
  {
    hide SysfsModel.Sysfs.Valid, Values, Sorted, Restorable, Framed, WritesOnly, Progress, Agrees, Resting, OrderOf,
         EntryOrder, Visited, PathsOf, NoCounts, Consistent;
    ghost var paths := PathsOf(entries);
    var order := SortForRestoration(entries);
    WholeOrder(entries, order);
    ghost var sound := sys.exclusive && NoCounts(ignored) && Consistent(sys.schema, Values(entries));
    if sound { WholeIsRestorable(sys, entries, ignored); }
    r := WriteBack(sys, order, ignored, entries, paths, drift);
    if r.Err? { return; }
    if sound { RestoredAgrees(sys, entries, paths, ignored, drift, order); }
  }

  lemma WholeOrder(entries: seq<Entry>, order: seq<Entry>)
    requires EntryOrder(order) && forall e :: e in order <==> e in entries
    ensures OrderOf(order, entries, PathsOf(entries)) && Within(entries, PathsOf(entries)) == entries
  {
    WithinAll(entries, PathsOf(entries));
  }

  lemma WholeIsRestorable(sys: Sysfs, entries: seq<Entry>, ignored: set<Path>)
    requires sys.Valid() && Sorted(entries)
    requires sys.exclusive && NoCounts(ignored) && Consistent(sys.schema, Values(entries))
    ensures Restorable(sys, entries, PathsOf(entries), ignored)
  {
  }

  /** The captured leaves selected by `paths`. */
  function Within(entries: seq<Entry>, paths: set<Path>): seq<Entry>
    decreases |entries|
  {
    if entries == [] then []
    else if entries[0].path in paths then [entries[0]] + Within(entries[1..], paths)
    else Within(entries[1..], paths)
  }

  lemma {:induction false} WithinMembers(entries: seq<Entry>, paths: set<Path>)
    requires Sorted(entries)
    ensures Sorted(Within(entries, paths))
    ensures forall e :: e in Within(entries, paths) <==> e in entries && e.path in paths
    decreases |entries|
  {
    if entries != [] {
      assert entries == [entries[0]] + entries[1..];
      WithinMembers(entries[1..], paths);
      forall e | e in entries[1..] ensures PathLess(entries[0].path, e.path) {
        var i :| 1 <= i < |entries| && entries[i] == e;
      }
    }
  }

  lemma {:induction false} WithinAll(entries: seq<Entry>, paths: set<Path>)
    requires forall e | e in entries :: e.path in paths
    ensures Within(entries, paths) == entries
    decreases |entries|
  {
    if entries != [] { WithinAll(entries[1..], paths); }
  }

  lemma RestoredAgrees(sys: Sysfs, entries: seq<Entry>, paths: set<Path>, ignored: set<Path>, drift: set<Path>, order: seq<Entry>)
    requires Sorted(entries) && OrderOf(order, entries, paths)
    requires Progress(sys.schema, Values(entries), paths, ignored + drift, sys.files, Visited(order, |order|))
    ensures sys.files.Keys == PathsOf(entries)
    ensures Agrees(Within(entries, paths), ignored + drift, sys.files)
  {
    AllVisited(order, entries, paths);
    RestorationComplete(sys.schema, Values(entries), paths, ignored + drift, sys.files, Visited(order, |order|));
    WithinMembers(entries, paths);
  }

  /** The closure of a write journal, computed write by write. */
  method PathsAffectedByWrites(entries: seq<Entry>, writes: seq<Path>) returns (affected: set<Path>)
    requires Sorted(entries)
    ensures affected == Affected(Values(entries), Elements(writes))
    ensures forall K: Schema | K.Lawful() && (forall w | w in writes :: LeafShape(K, w)) :: affected == Rebuilt(K, Values(entries), Elements(writes))
  {
    hide Values, Sorted;
    affected := {};
    for n := 0 to |writes|
      invariant affected == Affected(Values(entries), Elements(writes[..n]))
    {
      var w := writes[n];
      assert writes[..n + 1] == writes[..n] + [w];
      affected := affected + {w};
      if IsReconstructionCount(w) {
        affected := affected + set e | e in entries && Dir(w) <= e.path :: e.path;
      }
    }
    assert writes[..|writes|] == writes;
    forall K: Schema | K.Lawful() && (forall w | w in writes :: LeafShape(K, w)) ensures affected == Rebuilt(K, Values(entries), Elements(writes)) {
      AffectedIsMinimal(K, Values(entries), Elements(writes));
    }
  }

  // ---------- what agreement with a capture means ----------

  /** Equal captured values are equal trees once the leaves are the same. */
  lemma AgreesIsCalm(entries: seq<Entry>, ignored: set<Path>, t: Tree)
    requires Sorted(entries) && t.Keys == PathsOf(entries) && Agrees(entries, ignored, t)
    ensures Calm(ignored, Values(entries), t)
  {
    forall p | p in Values(entries) && p !in ignored ensures Values(entries)[p] == t[p] {
      var e :| e in entries && e.path == p;
    }
  }

  /** Agreement outside leaves that are no counts already fixes the whole shape. */
  lemma AgreementFixesShape(K: Schema, entries: seq<Entry>, ignored: set<Path>, t: Tree)
    requires K.Valid() && Sorted(entries) && Consistent(K, Values(entries)) && Consistent(K, t)
    requires NoCounts(ignored) && Agrees(entries, ignored, t)
    ensures Calm(ignored, Values(entries), t)
  {
    var s := Values(entries);
    forall c | c in s && K.Rebuilds(c) ensures c in t && t[c] == s[c] {
      assert IsReconstructionCount(c);
      var e :| e in entries && e.path == c;
    }
    assert Progress(K, s, {}, {}, t, {});
    RestorationComplete(K, s, {}, {}, t, {});
    AgreesIsCalm(entries, ignored, t);
  }

  lemma CaptureAgreesNow(sys: Sysfs, entries: seq<Entry>)
    requires Sorted(entries) && Values(entries) == sys.files
    ensures Agrees(entries, {}, sys.files)
  {
    forall e | e in entries ensures e.path in sys.files && sys.files[e.path] == e.value {
      assert Values(entries)[e.path] == e.value;
    }
  }

  lemma AgreesByDrift(entries: seq<Entry>, ignored: set<Path>, loose: set<Path>, t: Tree, u: Tree)
    requires Agrees(entries, ignored, t) && Calm(loose, t, u) && loose <= ignored
    ensures Agrees(entries, ignored, u)
  {
  }
}
