/** Adopting new values of leaves the session has just had the kernel change, while
    everything else must still be as captured. */
module Refreshing {
  import opened Outcomes
  import opened Paths
  import opened KernelTree
  import opened SysfsModel
  import opened Snapshots

  method ReadLeaf(sys: Sysfs, p: Path) returns (r: Result<string>)
    requires sys.Valid()
    modifies sys
    ensures sys.Valid() && sys.Quiet()
    ensures r.Ok? ==> p in old(sys.files) && r.value == old(sys.files)[p]
    ensures r.Err? ==> r.error.IsAccessFailure()
  {
    hide SysfsModel.Sysfs.Valid;
    var failure := sys.Attempt();
    r := if failure.Some? then Err(failure.value) else if p in sys.files then Ok(sys.files[p]) else Err(Io);
    sys.Interfere();
  }

  /** The same leaves in the same order, with new values only at the refreshed paths. */
  ghost predicate RefreshedAt(before: seq<Entry>, after: seq<Entry>, paths: set<Path>) {
    |after| == |before| && forall i | 0 <= i < |before| ::
      after[i].path == before[i].path && (before[i].path !in paths ==> after[i] == before[i])
  }

  lemma RefreshedIsSorted(before: seq<Entry>, after: seq<Entry>, paths: set<Path>)
    requires Sorted(before) && RefreshedAt(before, after, paths)
    ensures Sorted(after) && PathsOf(after) == PathsOf(before)
  {
    forall p ensures p in PathsOf(after) <==> p in PathsOf(before) {
      if p in PathsOf(before) {
        var e :| e in before && e.path == p;
        var i :| 0 <= i < |before| && before[i] == e;
        assert after[i] in after;
      }
      if p in PathsOf(after) {
        var e :| e in after && e.path == p;
        var i :| 0 <= i < |after| && after[i] == e;
        assert before[i] in before;
      }
    }
  }

  /** A path that was not captured has disappeared, and is not adopted. */
  predicate AllCaptured(entries: seq<Entry>, paths: seq<Path>) {
    forall p | p in paths :: exists e | e in entries :: e.path == p
  }

  /** Reads the named leaves again and then checks the whole capture. Undisturbed, it can
      only fail on an access, or because a path is not part of the capture or of the kernel. */
  method RefreshedPathsExcept(sys: Sysfs, entries: seq<Entry>, paths: seq<Path>, ignored: set<Path>) returns (r: Result<seq<Entry>>)
    requires sys.Valid() && Sorted(entries)
    modifies sys
    ensures sys.Valid() && sys.Quiet()
    ensures r.Ok? ==> Sorted(r.value) && RefreshedAt(entries, r.value, Elements(paths)) && AllCaptured(entries, paths)
    ensures r.Ok? && sys.exclusive ==> Agrees(r.value, ignored + sys.retuned, sys.files)
    ensures (r.Err? && sys.exclusive && sys.retuned <= ignored && AllCaptured(entries, paths)
             && old(Agrees(entries, ignored + Elements(paths), sys.files))) ==> r.error.IsAccessFailure()
    ensures r.Err? ==> r.error.IsAccessFailure() || r.error == OwnershipLost(ValuesChanged)
  {
    hide SysfsModel.Sysfs.Valid, Sorted, AllCaptured;
    var refreshed := entries;
    AllCapturedUpTo(entries, paths, 0);
    ghost var sound := sys.exclusive && sys.retuned <= ignored && Agrees(entries, ignored + Elements(paths), sys.files);
    StartRefresh(entries, paths, ignored, sys.files, sound);
    assert paths[..0] == [];
    for n := 0 to |paths|
      invariant sys.Valid() && sys.Quiet()
      invariant RefreshedAt(entries, refreshed, Elements(paths)) && AllCaptured(entries, paths[..n])
      invariant sound ==> AgreesBut(refreshed, ignored, paths[n..], sys.files)
    {
      RefreshedIsSorted(entries, refreshed, Elements(paths));
      var k := PartitionPoint(refreshed, paths[n]);
      if k >= |refreshed| || refreshed[k].path != paths[n] {
        NotCaptured(entries, refreshed, paths, n, k);
        return Err(OwnershipLost(ValuesChanged));
      }
      ghost var t := sys.files;
      var value := ReadLeaf(sys, paths[n]);
      if value.Err? { return Err(value.error); }
      CapturedAt(entries, refreshed, paths, n, k);
      if sound { RefreshOne(refreshed, ignored, paths, n, k, value.value, sys.retuned, t, sys.files); }
      refreshed := refreshed[k := Entry(paths[n], value.value)];
    }
    assert paths[..|paths|] == paths;
    RefreshedIsSorted(entries, refreshed, Elements(paths));
    if sound { AllRefreshed(refreshed, ignored, paths, sys.retuned, sys.files); }
    var matches := MatchesCurrentExcept(sys, refreshed, ignored);
    r := if matches.Err? then Err(matches.error) else if !matches.value then Err(OwnershipLost(ValuesChanged)) else Ok(refreshed);
  }

  /** The capture holds except where leaves are still to be refreshed. */
  ghost predicate AgreesBut(entries: seq<Entry>, ignored: set<Path>, pending: seq<Path>, t: Tree) {
    forall e | e in entries && e.path !in ignored && e.path !in pending :: e.path in t && t[e.path] == e.value
  }

  lemma AllCapturedUpTo(entries: seq<Entry>, paths: seq<Path>, n: nat)
    requires n == 0
    ensures AllCaptured(entries, paths[..n])
  {
  }

  lemma StartRefresh(entries: seq<Entry>, paths: seq<Path>, ignored: set<Path>, t: Tree, sound: bool)
    requires sound ==> Agrees(entries, ignored + Elements(paths), t)
    ensures sound ==> AgreesBut(entries, ignored, paths[0..], t)
  {
  }

  lemma NotCaptured(entries: seq<Entry>, refreshed: seq<Entry>, paths: seq<Path>, n: nat, k: nat)
    requires n < |paths| && k <= |refreshed| && Sorted(refreshed) && RefreshedAt(entries, refreshed, Elements(paths))
    requires forall i | 0 <= i < k :: PathLess(refreshed[i].path, paths[n])
    requires forall i | k <= i < |refreshed| :: !PathLess(refreshed[i].path, paths[n])
    requires k < |refreshed| ==> refreshed[k].path != paths[n]
    ensures !AllCaptured(entries, paths)
  {
    OnlyAtPartition(refreshed, paths[n], k);
    forall e | e in entries ensures e.path != paths[n] {
      var i :| 0 <= i < |entries| && entries[i] == e;
      assert refreshed[i] in refreshed && refreshed[i].path == e.path;
    }
    assert paths[n] in paths;
  }

  lemma CapturedAt(entries: seq<Entry>, refreshed: seq<Entry>, paths: seq<Path>, n: nat, k: nat)
    requires n < |paths| && k < |refreshed| && refreshed[k].path == paths[n]
    requires RefreshedAt(entries, refreshed, Elements(paths)) && AllCaptured(entries, paths[..n])
    ensures AllCaptured(entries, paths[..n + 1])
    ensures forall v :: RefreshedAt(entries, refreshed[k := Entry(paths[n], v)], Elements(paths))
  {
    assert entries[k] in entries && entries[k].path == paths[n];
    assert paths[..n + 1] == paths[..n] + [paths[n]];
    assert paths[n] in Elements(paths);
  }

  lemma RefreshOne(entries: seq<Entry>, ignored: set<Path>, paths: seq<Path>, n: nat, k: nat, value: string, loose: set<Path>, t: Tree, u: Tree)
    requires n < |paths| && k < |entries| && entries[k].path == paths[n] && AgreesBut(entries, ignored, paths[n..], t) && Sorted(entries)
    requires Calm(loose, t, u) && loose <= ignored && paths[n] in t && value == t[paths[n]]
    ensures AgreesBut(entries[k := Entry(paths[n], value)], ignored, paths[n + 1..], u)
  {
    var after := entries[k := Entry(paths[n], value)];
    assert paths[n..] == [paths[n]] + paths[n + 1..];
    forall i | 0 <= i < |after| && after[i].path !in ignored && after[i].path !in paths[n + 1..]
      ensures after[i].path in u && u[after[i].path] == after[i].value
    {
      if i != k {
        assert entries[i] in entries && entries[i] == after[i];
        if entries[i].path == entries[k].path { SortedDistinct(entries, i, k); }
      }
    }
  }

  lemma AllRefreshed(entries: seq<Entry>, ignored: set<Path>, paths: seq<Path>, loose: set<Path>, t: Tree)
    requires AgreesBut(entries, ignored, paths[|paths|..], t) && loose <= ignored
    ensures Agrees(entries, ignored + loose, t) && Agrees(entries, ignored, t)
  {
  }
}
