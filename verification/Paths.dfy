/** Sysfs paths relative to the DAMON admin root, as sequences of components,
    with the component-wise order in which captured entries are kept. */
module Paths {

  type Component = string
  type Path = seq<Component>

  /** One captured writable attribute. */
  datatype Entry = Entry(path: Path, value: string)

  function Elements(paths: seq<Path>): set<Path> {
    set p | p in paths
  }

  function Dir(p: Path): Path
    requires p != []
  {
    p[..|p| - 1]
  }

  function Name(p: Path): Component
    requires p != []
  {
    p[|p| - 1]
  }

  // ---------- the order ----------

  predicate NameLess(a: Component, b: Component)
    decreases |a|
  {
    b != [] && (a == [] || a[0] < b[0] || (a[0] == b[0] && NameLess(a[1..], b[1..])))
  }

  predicate PathLess(p: Path, q: Path)
    decreases |p|
  {
    q != [] && (p == [] || NameLess(p[0], q[0]) || (p[0] == q[0] && PathLess(p[1..], q[1..])))
  }

  lemma {:induction false} NameOrderTotal(a: Component, b: Component)
    ensures a == b || NameLess(a, b) || NameLess(b, a)
    ensures !(NameLess(a, b) && NameLess(b, a))
    ensures a == b ==> !NameLess(a, b)
    decreases |a|
  {
    if a != [] && b != [] && a[0] == b[0] {
      NameOrderTotal(a[1..], b[1..]);
      assert a == [a[0]] + a[1..] && b == [b[0]] + b[1..];
    }
  }

  lemma {:induction false} NameLessTransitive(a: Component, b: Component, c: Component)
    requires NameLess(a, b) && NameLess(b, c)
    ensures NameLess(a, c)
    decreases |a|
  {
    if a != [] && a[0] == b[0] && b[0] == c[0] {
      NameLessTransitive(a[1..], b[1..], c[1..]);
    }
  }

  lemma {:induction false} PathOrderTotal(p: Path, q: Path)
    ensures p == q || PathLess(p, q) || PathLess(q, p)
    ensures !(PathLess(p, q) && PathLess(q, p))
    ensures p == q ==> !PathLess(p, q)
    decreases |p|
  {
    if p != [] && q != [] {
      NameOrderTotal(p[0], q[0]);
      if p[0] == q[0] {
        PathOrderTotal(p[1..], q[1..]);
        assert p == [p[0]] + p[1..] && q == [q[0]] + q[1..];
      }
    }
  }

  lemma {:induction false} PathLessTransitive(p: Path, q: Path, r: Path)
    requires PathLess(p, q) && PathLess(q, r)
    ensures PathLess(p, r)
    decreases |p|
  {
    if p != [] {
      NameOrderTotal(p[0], q[0]);
      NameOrderTotal(q[0], r[0]);
      NameOrderTotal(p[0], r[0]);
      if p[0] == q[0] && q[0] == r[0] {
        PathLessTransitive(p[1..], q[1..], r[1..]);
      } else if NameLess(p[0], q[0]) && NameLess(q[0], r[0]) {
        NameLessTransitive(p[0], q[0], r[0]);
      }
    }
  }

  /** A subtree's root precedes everything below it. */
  lemma {:induction false} RootPrecedesSubtree(root: Path, p: Path)
    requires root <= p
    ensures !PathLess(p, root)
    decreases |root|
  {
    if root != [] {
      NameOrderTotal(root[0], p[0]);
      RootPrecedesSubtree(root[1..], p[1..]);
    }
  }

  /** Whatever follows the root without lying below it follows the whole subtree,
      so a subtree is one contiguous block of the order. */
  lemma {:induction false} SubtreeIsContiguous(root: Path, inside: Path, beyond: Path)
    requires root <= inside && !(root <= beyond) && !PathLess(beyond, root)
    ensures PathLess(inside, beyond)
    decreases |root|
  {
    if root != [] && beyond != [] {
      NameOrderTotal(root[0], beyond[0]);
      if root[0] == beyond[0] {
        SubtreeIsContiguous(root[1..], inside[1..], beyond[1..]);
      }
    }
  }

  // ---------- sorted captures ----------

  ghost predicate Sorted(entries: seq<Entry>) {
    forall i, j | 0 <= i < j < |entries| :: PathLess(entries[i].path, entries[j].path)
  }

  ghost function PathsOf(entries: seq<Entry>): set<Path> {
    set e | e in entries :: e.path
  }

  /** The captured hierarchy as a map. */
  ghost function Values(entries: seq<Entry>): (values: map<Path, string>)
    requires Sorted(entries)
    ensures values.Keys == PathsOf(entries)
    ensures forall e | e in entries :: values[e.path] == e.value
  {
    if entries == [] then map[]
    else
      var init, last := entries[..|entries| - 1], entries[|entries| - 1];
      assert Sorted(init) by { InitIsSorted(entries); }
      assert entries == init + [last];
      assert forall e | e in init :: e.path != last.path by { LastIsNew(entries); }
      Values(init)[last.path := last.value]
  }

  lemma InitIsSorted(entries: seq<Entry>)
    requires Sorted(entries) && entries != []
    ensures Sorted(entries[..|entries| - 1])
  {
  }

  lemma LastIsNew(entries: seq<Entry>)
    requires Sorted(entries) && entries != []
    ensures forall e | e in entries[..|entries| - 1] :: e.path != entries[|entries| - 1].path
  {
    var n := |entries| - 1;
    forall e | e in entries[..n] ensures e.path != entries[n].path {
      var i :| 0 <= i < n && entries[i] == e;
      PathOrderTotal(e.path, entries[n].path);
    }
  }

  /** A hierarchy has one capture. */
  lemma {:induction false} CaptureIsUnique(a: seq<Entry>, b: seq<Entry>)
    requires Sorted(a) && Sorted(b) && forall e :: e in a <==> e in b
    ensures a == b
    decreases |a|
  {
    if a == [] || b == [] {
      Inhabited(a);
      Inhabited(b);
    } else {
      var m, n := |a| - 1, |b| - 1;
      assert a == a[..m] + [a[m]] && b == b[..n] + [b[n]];
      LastIsGreatest(a, b[n]);
      LastIsGreatest(b, a[m]);
      PathOrderTotal(a[m].path, b[n].path);
      LastIsNew(a);
      LastIsNew(b);
      forall e ensures e in a[..m] <==> e in b[..n] {
        assert e in a <==> e in a[..m] || e == a[m];
        assert e in b <==> e in b[..n] || e == b[n];
      }
      CaptureIsUnique(a[..m], b[..n]);
    }
  }

  lemma Inhabited(entries: seq<Entry>)
    ensures entries == [] || exists e :: e in entries
  {
    if entries != [] { assert entries[0] in entries; }
  }

  lemma LastIsGreatest(entries: seq<Entry>, e: Entry)
    requires Sorted(entries) && e in entries
    ensures e == entries[|entries| - 1] || PathLess(e.path, entries[|entries| - 1].path)
  {
  }

  lemma SameValuesSameCapture(a: seq<Entry>, b: seq<Entry>)
    requires Sorted(a) && Sorted(b) && Values(a) == Values(b)
    ensures a == b
  {
    forall e ensures e in a <==> e in b {
      if e in a {
        assert e.path in PathsOf(b);
        var e' :| e' in b && e'.path == e.path;
      }
      if e in b {
        assert e.path in PathsOf(a);
        var e' :| e' in a && e'.path == e.path;
      }
    }
    CaptureIsUnique(a, b);
  }

  lemma SortedDistinct(entries: seq<Entry>, i: nat, j: nat)
    requires Sorted(entries) && i < |entries| && j < |entries|
    requires entries[i].path == entries[j].path
    ensures i == j
  {
    PathOrderTotal(entries[i].path, entries[j].path);
  }

  /** The first position whose path is not below `bound`: `partition_point` of
      the standard library, as the binary search it is. */
  method PartitionPoint(entries: seq<Entry>, bound: Path) returns (first: nat)
    requires Sorted(entries)
    ensures first <= |entries|
    ensures forall i | 0 <= i < first :: PathLess(entries[i].path, bound)
    ensures forall i | first <= i < |entries| :: !PathLess(entries[i].path, bound)
  {
    var low, high := 0, |entries|;
    while low < high
      invariant 0 <= low <= high <= |entries|
      invariant forall i | 0 <= i < low :: PathLess(entries[i].path, bound)
      invariant forall i | high <= i < |entries| :: !PathLess(entries[i].path, bound)
    {
      var mid := (low + high) / 2;
      if PathLess(entries[mid].path, bound) {
        forall i | low <= i < mid ensures PathLess(entries[i].path, bound) {
          PathLessTransitive(entries[i].path, entries[mid].path, bound);
        }
        low := mid + 1;
      } else {
        forall i | mid < i < high ensures !PathLess(entries[i].path, bound) {
          if PathLess(entries[i].path, bound) {
            PathLessTransitive(entries[mid].path, entries[i].path, bound);
          }
        }
        high := mid;
      }
    }
    first := low;
  }

  /** A path can only be where the partition point is. */
  lemma OnlyAtPartition(entries: seq<Entry>, path: Path, k: nat)
    requires Sorted(entries) && k <= |entries|
    requires forall i | 0 <= i < k :: PathLess(entries[i].path, path)
    requires k < |entries| ==> !PathLess(entries[k].path, path)
    ensures forall e | e in entries && e.path == path :: k < |entries| && e == entries[k]
  {
    PathOrderTotal(path, path);
    if k < |entries| { PathOrderTotal(entries[k].path, path); }
    forall e | e in entries && e.path == path ensures k < |entries| && e == entries[k] {
      var m :| 0 <= m < |entries| && entries[m] == e;
    }
  }

  /** A new path goes in at its partition point. */
  lemma InsertKeepsSorted(entries: seq<Entry>, k: nat, e: Entry)
    requires Sorted(entries) && k <= |entries| && e.path !in PathsOf(entries)
    requires forall i | 0 <= i < k :: PathLess(entries[i].path, e.path)
    requires forall i | k <= i < |entries| :: !PathLess(entries[i].path, e.path)
    ensures Sorted(entries[..k] + [e] + entries[k..])
    ensures PathsOf(entries[..k] + [e] + entries[k..]) == PathsOf(entries) + {e.path}
    ensures forall f :: f in entries[..k] + [e] + entries[k..] <==> f == e || f in entries
  {
    var r := entries[..k] + [e] + entries[k..];
    assert entries == entries[..k] + entries[k..];
    forall i | k <= i < |entries| ensures PathLess(e.path, entries[i].path) {
      assert entries[i].path in PathsOf(entries);
      PathOrderTotal(e.path, entries[i].path);
    }
    forall i, j | 0 <= i < j < |r| ensures PathLess(r[i].path, r[j].path) {
      if i < k < j { PathLessTransitive(r[i].path, e.path, r[j].path); }
    }
  }
}
