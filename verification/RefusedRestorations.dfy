/** What a restoration leaves behind when the kernel refuses one of its writes. */
module RefusedRestorations {
  import opened Outcomes
  import opened Paths
  import opened KernelTree
  import opened Restoration

  /** The value of a leaf nobody wrote since the top count was rewritten: roots keep theirs,
      all else is as the kernel creates it. */
  function Untouched(K: Schema, t: Tree, q: Path): Option<string> {
    if q in K.roots then (if q in t then Some(t[q]) else None)
    else if Owner(K, q).Some? && Owner(K, q).value != [] then Some(DefaultValue(K, Owner(K, q).value, q))
    else None
  }

  /** Of a restoration begun in `t0` that has visited `done`, the leaves it has not written. */
  ghost predicate Remaining(K: Schema, t0: Tree, t: Tree, done: set<Path>) {
    forall q | q in t && q !in done && (q in K.roots || K.top in done) :: Untouched(K, t0, q) == Some(t[q])
  }

  lemma IndexedIsNoRoot(K: Schema, d: Path, q: Path)
    requires K.Lawful() && BelowIndex(K, d, q)
    ensures q !in K.roots
  {
  }

  lemma CreatedIsUntouched(K: Schema, t0: Tree, p: Path, i: nat, r: Path)
    requires K.Lawful() && K.Rebuilds(p) && r in K.children(p, i)
    ensures Untouched(K, t0, K.Child(p, i, r)) == Some(DefaultValue(K, p, K.Child(p, i, r)))
  {
    CreatedLeaf(K, p, i, r);
    IndexedIsNoRoot(K, Dir(p), K.Child(p, i, r));
    OwnerOfChild(K, p, i, r);
  }

  lemma RootsStay(K: Schema, t: Tree, p: Path, v: string, q: Path)
    requires K.Lawful() && Legal(K, t, p, v) && q in AfterWrite(K, t, p, v) && q in K.roots && q != p
    ensures q in t && AfterWrite(K, t, p, v)[q] == t[q]
  {
    if K.Rebuilds(p) && q in Created(K, p, K.number(v).value) {
      var i, r :| 0 <= i < K.number(v).value && r in K.children(p, i) && q == K.Child(p, i, r);
      CreatedLeaf(K, p, i, r);
      IndexedIsNoRoot(K, Dir(p), K.Child(p, i, r));
      assert false;
    }
  }

  /** A rewritten count creates its children afresh. */
  lemma RebuiltRemaining(K: Schema, t0: Tree, t: Tree, p: Path, v: string, done: set<Path>, q: Path)
    requires K.Lawful() && Legal(K, t, p, v) && K.Rebuilds(p) && Remaining(K, t0, t, done)
    requires q in AfterWrite(K, t, p, v) && q != p && q !in done && (q in K.roots || K.top in done)
    ensures Untouched(K, t0, q) == Some(AfterWrite(K, t, p, v)[q])
  {
    if q in Created(K, p, K.number(v).value) {
      var i, r :| 0 <= i < K.number(v).value && r in K.children(p, i) && q == K.Child(p, i, r);
      CreatedIsUntouched(K, t0, p, i, r);
    }
  }

  lemma TopRemaining(K: Schema, t0: Tree, t: Tree, v: string, done: set<Path>, q: Path)
    requires K.Lawful() && Anchored(K, t) && Legal(K, t, K.top, v) && Remaining(K, t0, t, done)
    requires q in AfterWrite(K, t, K.top, v) && q != K.top && q !in done
    ensures Untouched(K, t0, q) == Some(AfterWrite(K, t, K.top, v)[q])
  {
    if q in K.roots {
      RootsStay(K, t, K.top, v, q);
    } else {
      TopCreated(K, t, v, q);
      var i, r :| 0 <= i < K.number(v).value && r in K.children(K.top, i) && q == K.Child(K.top, i, r);
      CreatedIsUntouched(K, t0, K.top, i, r);
    }
  }

  /** Before the top count only roots are due, and they rebuild nothing. */
  lemma NextAfterTop(K: Schema, s: Tree, t: Tree, done: set<Path>, p: Path)
    requires Progress(K, s, s.Keys, {}, t, done) && Next(s, s.Keys, done, p)
    ensures K.top in done || p in K.roots
    ensures K.top !in done && p != K.top ==> !K.Rebuilds(p)
    ensures K.top !in done ==> Consistent(K, t) || Anchored(K, t)
  {
    if p !in K.roots {
      TopComesFirst(K, s, p);
      assert K.top in s;
    }
  }

  lemma RemainingAfterWrite(K: Schema, t0: Tree, t: Tree, p: Path, v: string, done: set<Path>)
    requires K.Lawful() && Legal(K, t, p, v) && Remaining(K, t0, t, done)
    requires K.top in done || (p == K.top && Anchored(K, t)) || (p in K.roots && !K.Rebuilds(p))
    ensures Remaining(K, t0, AfterWrite(K, t, p, v), done + {p})
  {
    var u := AfterWrite(K, t, p, v);
    forall q | q in u && q !in done + {p} && (q in K.roots || K.top in done + {p}) ensures Untouched(K, t0, q) == Some(u[q]) {
      hide Untouched, Anchored, Schema.Lawful;
      if K.top !in done && p == K.top {
        TopRemaining(K, t0, t, v, done, q);
      } else if K.Rebuilds(p) {
        RebuiltRemaining(K, t0, t, p, v, done, q);
      }
    }
  }

  /** One step of a restoration. */
  lemma RemainingStep(K: Schema, s: Tree, t0: Tree, t: Tree, done: set<Path>, p: Path)
    requires Progress(K, s, s.Keys, {}, t, done) && Next(s, s.Keys, done, p) && Remaining(K, t0, t, done)
    ensures var r := RestoreLeaf(K, t, s, p);
            r.Some? && Progress(K, s, s.Keys, {}, r.value, done + {p}) && Remaining(K, t0, r.value, done + {p})
  {
    RestoreLeafStep(K, s, s.Keys, t, done, p);
    NextAfterTop(K, s, t, done, p);
    assert K.Lawful();
    if K.top !in done && Consistent(K, t) { ConsistentIsAnchored(K, t); }
    hide Schema.Lawful, Consistent, Progress, Next, Anchored, Remaining, AfterWrite;
    if p in t && t[p] == s[p] && !IsReconstructionCount(p) {
      NothingWritten(K, t0, t, done, p);
    } else {
      RemainingAfterWrite(K, t0, t, p, s[p], done);
    }
  }

  lemma NothingWritten(K: Schema, t0: Tree, t: Tree, done: set<Path>, p: Path)
    requires Remaining(K, t0, t, done) && (p != K.top || K.top in done)
    ensures Remaining(K, t0, t, done + {p})
  {
  }

  lemma TakeOneMore(order: seq<Path>, n: nat, done: set<Path>)
    requires 0 < n <= |order|
    ensures order[..n] != [] && order[..n][0] == order[0] && order[..n][1..] == order[1..][..n - 1]
    ensures done + Elements(order[..n]) == done + {order[0]} + Elements(order[1..][..n - 1])
  {
    assert order[..n] == [order[0]] + order[1..][..n - 1];
  }

  /** The first `n` steps. */
  lemma {:induction false} RefusedAfter(K: Schema, s: Tree, t0: Tree, t: Tree, done: set<Path>, order: seq<Path>, n: nat)
    requires Progress(K, s, s.Keys, {}, t, done) && Remaining(K, t0, t, done) && KeySorted(order) && n <= |order|
    requires forall p :: p in order <==> p in s && p in s.Keys && p !in done
    requires forall p, q | p in done && q in order :: KeyLess(p, q)
    ensures var r := RestoreRun(K, t, s, order[..n]); var seen := done + Elements(order[..n]);
            r.Some? && Progress(K, s, s.Keys, {}, r.value, seen) && Remaining(K, t0, r.value, seen)
    decreases n
  {
    if n == 0 {
      assert order[..n] == [] && done + Elements([]) == done;
    } else {
      hide Consistent, Schema.Lawful, Progress, RestoreLeaf, Remaining, Next, Elements;
      var p, rest := order[0], order[1..];
      FirstIsNext(s, s.Keys, done, order);
      RemainingStep(K, s, t0, t, done, p);
      OrderRest(s, s.Keys, done, order);
      RefusedAfter(K, s, t0, RestoreLeaf(K, t, s, p).value, done + {p}, rest, n - 1);
      TakeOneMore(order, n, done);
    }
  }

  /** A leaf that holds its captured value already may count as visited. */
  lemma NextIsThere(K: Schema, s: Tree, t0: Tree, t: Tree, done: set<Path>, p: Path)
    requires Progress(K, s, s.Keys, {}, t, done) && Next(s, s.Keys, done, p) && Remaining(K, t0, t, done)
    requires K.top in done && Untouched(K, t0, p) == Some(s[p])
    ensures Progress(K, s, s.Keys, {}, t, done + {p}) && Remaining(K, t0, t, done + {p})
  {
    NextIsPresent(K, s, s.Keys, {}, t, done, p);
    ValueOfNext(K, t0, t, done, p, s[p]);
    PassStep(K, s, s.Keys, {}, t, done, p);
    hide Progress, Next;
    NothingWritten(K, t0, t, done, p);
  }

  lemma ValueOfNext(K: Schema, t0: Tree, t: Tree, done: set<Path>, p: Path, v: string)
    requires Remaining(K, t0, t, done) && K.top in done && p in t && p !in done && Untouched(K, t0, p) == Some(v)
    ensures t[p] == v
  {
  }

  /** When all that remains to be written is there already, the tree is the captured one. */
  lemma {:induction false} NothingLeftToDo(K: Schema, s: Tree, t0: Tree, t: Tree, done: set<Path>, rest: seq<Path>)
    requires Progress(K, s, s.Keys, {}, t, done) && Remaining(K, t0, t, done) && KeySorted(rest) && K.top in done
    requires forall p :: p in rest <==> p in s && p in s.Keys && p !in done
    requires forall p, q | p in done && q in rest :: KeyLess(p, q)
    requires forall q | q in rest :: Untouched(K, t0, q) == Some(s[q])
    ensures t == s
    decreases |rest|
  {
    if rest == [] {
      forall p | p in s ensures p in done {
        assert p !in rest;
      }
      RestorationComplete(K, s, s.Keys, {}, t, done);
    } else {
      var p := rest[0];
      FirstIsNext(s, s.Keys, done, rest);
      NextIsThere(K, s, t0, t, done, p) by { assert p in rest; }
      OrderRest(s, s.Keys, done, rest);
      hide Progress, Remaining, Untouched, Schema.Lawful, Consistent;
      NothingLeftToDo(K, s, t0, t, done + {p}, rest[1..]);
    }
  }

  /** Exactly when a refused write leaves the captured hierarchy. With the top count rewritten,
      a restoration stopped before step `n` has restored the tree if and only if every leaf not
      yet visited was captured with the value the kernel creates it with. */
  lemma RefusedRestoration(K: Schema, s: Tree, t: Tree, order: seq<Path>, n: nat)
    requires K.Lawful() && Consistent(K, s) && (Consistent(K, t) || Anchored(K, t))
    requires IsRestorationOrder(s, s.Keys, order) && n <= |order| && K.top in order[..n]
    ensures RestoreRun(K, t, s, order[..n]).Some?
    ensures RestoreRun(K, t, s, order[..n]).value == s <==> forall q | q in order[n..] :: Untouched(K, t, q) == Some(s[q])
  {
    var done := Elements(order[..n]);
    assert Progress(K, s, s.Keys, {}, t, {});
    RefusedAfter(K, s, t, t, {}, order, n);
    var u := RestoreRun(K, t, s, order[..n]).value;
    assert {} + done == done;
    SplitOrder(s, order, n);
    if u == s {
      forall q | q in order[n..] ensures Untouched(K, t, q) == Some(s[q]) {
        assert q in u && q !in done;
      }
    } else if forall q | q in order[n..] :: Untouched(K, t, q) == Some(s[q]) {
      NothingLeftToDo(K, s, t, u, done, order[n..]);
    }
  }

  lemma SplitOrder(s: Tree, order: seq<Path>, n: nat)
    requires IsRestorationOrder(s, s.Keys, order) && n <= |order|
    ensures KeySorted(order[n..]) && forall q :: q in order[n..] <==> q in s && q !in Elements(order[..n])
    ensures forall p, q | p in Elements(order[..n]) && q in order[n..] :: KeyLess(p, q)
  {
    forall p, q | p in order[..n] && q in order[n..] ensures KeyLess(p, q) && p != q {
      var i :| 0 <= i < n && order[i] == p;
      var j :| n <= j < |order| && order[j] == q;
      KeyOrderTotal(p, q);
    }
    forall q ensures q in order[n..] <==> q in s && q !in Elements(order[..n]) {
      assert order == order[..n] + order[n..];
      assert q in order <==> q in order[..n] || q in order[n..];
    }
  }
}
