/** The writable configuration leaves of the DAMON admin hierarchy and what a
    kernel does to them: a plain write sets one leaf, a write to a count file
    destroys and rebuilds every indexed child of its directory.

    The kernel is a parameter, so attributes this library has never heard of are
    covered: any layout that meets `Schema.Valid` will do. */
module KernelTree {
  import opened Outcomes
  import opened Paths

  type Tree = map<Path, string>

  datatype Schema = Schema(
    base: Path,                                    // kdamonds
    topName: Component,                            // nr_kdamonds
    roots: set<Path>,                              // leaves outside every indexed directory
    counter: Path -> Option<Component>,            // a directory's count file, if it has one
    children: (Path, nat) -> map<Path, string>,    // leaves a count file creates below one index
    decimal: nat -> string,                       // the decimal text of a count or index
    number: string -> Option<nat>,
    settle: Tree -> Tree                          // the target leaves a kdamond runs once it has committed these
  ) {
    /** The count file above every indexed directory. */
    const top: Path := base + [topName]

    predicate IsIndex(c: Component) {
      number(c).Some?
    }

    predicate Rebuilds(p: Path) {
      p != [] && counter(Dir(p)) == Some(Name(p))
    }

    function Child(p: Path, i: nat, rest: Path): Path
      requires p != []
    {
      Dir(p) + [decimal(i)] + rest
    }

    /** What the text, the names and the fresh children of this kernel obey. */
    ghost predicate Lawful() {
      && (forall n: nat :: number(decimal(n)) == Some(n))
      && top in roots && Rebuilds(top)
      && (forall p | p in roots :: p != [] && NoIndex(p) && (Rebuilds(p) ==> p == top) && (IsReconstructionCount(p) ==> Rebuilds(p)))
      && (forall d | counter(d).Some? :: IsCountName(counter(d).value) && !IsIndex(counter(d).value))
      && (forall p, i: nat, r | Rebuilds(p) && r in children(p, i) :: DefaultLeaf(p, i, r))
    }

    /** No leaf is also a directory. */
    ghost predicate Distinct() {
      PrefixFree(roots) && forall p, i: nat | Rebuilds(p) :: PrefixFree(children(p, i).Keys)
    }

    ghost predicate Valid() {
      Lawful() && Distinct()
    }

    /** A freshly created leaf sits directly below its index; the leaves named like counts are
        the counts, and those are zero. */
    ghost predicate DefaultLeaf(p: Path, i: nat, r: Path)
      requires p != [] && r in children(p, i)
    {
      && r != [] && NoIndex(r) && (Rebuilds(Child(p, i, r)) ==> children(p, i)[r] == decimal(0))
      && (IsReconstructionCount(Child(p, i, r)) ==> Rebuilds(Child(p, i, r)))
    }

    predicate NoIndex(p: Path) {
      forall k | 0 <= k < |p| :: !IsIndex(p[k])
    }
  }

  /** No leaf is also a directory. */
  ghost predicate PrefixFree(leaves: set<Path>) {
    forall p, q | p in leaves && q in leaves && p <= q :: p == q
  }

  /** The name test by which captured count files are recognised. */
  predicate IsCountName(name: Component) {
    "nr_" <= name && name != "nr_accesses_permil"
  }

  predicate IsReconstructionCount(p: Path) {
    p != [] && IsCountName(Name(p))
  }

  /** The directory of one kdamond. */
  function KdamondDir(K: Schema, i: nat): Path {
    K.base + [K.decimal(i)]
  }

  function Depth(p: Path): nat {
    |p|
  }

  // ---------- writes ----------

  /** Whether `q` lies below an indexed child of directory `d`. */
  predicate BelowIndex(K: Schema, d: Path, q: Path) {
    |d| < |q| && d <= q && K.IsIndex(q[|d|])
  }

  predicate Legal(K: Schema, t: Tree, p: Path, v: string) {
    p in t && (K.Rebuilds(p) ==> K.number(v).Some?)
  }

  function Created(K: Schema, p: Path, n: nat): set<Path>
    requires p != []
  {
    set i, r | 0 <= i < n && r in K.children(p, i) :: K.Child(p, i, r)
  }

  function DefaultValue(K: Schema, p: Path, q: Path): string
    requires p != []
  {
    if |q| <= |Dir(p)| || K.number(q[|Dir(p)|]).None? then ""
    else
      var block := K.children(p, K.number(q[|Dir(p)|]).value);
      var rest := q[|p|..];
      if rest in block then block[rest] else ""
  }

  /** The tree after the kernel accepts value `v` for leaf `p`. */
  function AfterWrite(K: Schema, t: Tree, p: Path, v: string): Tree
    requires Legal(K, t, p, v)
  {
    if K.Rebuilds(p) then
      var n := K.number(v).value;
      (map q | q in t && !BelowIndex(K, Dir(p), q) :: t[q])[p := K.decimal(n)]
      + (map q | q in Created(K, p, n) :: DefaultValue(K, p, q))
    else
      t[p := v]
  }

  lemma CreatedLeaf(K: Schema, p: Path, i: nat, r: Path)
    requires K.Lawful() && K.Rebuilds(p) && r in K.children(p, i)
    ensures K.Child(p, i, r)[|Dir(p)|] == K.decimal(i) && K.Child(p, i, r)[|p|..] == r
    ensures DefaultValue(K, p, K.Child(p, i, r)) == K.children(p, i)[r]
    ensures BelowIndex(K, Dir(p), K.Child(p, i, r))
    ensures K.DefaultLeaf(p, i, r)
  {
    var q := K.Child(p, i, r);
    assert q[|p|..] == r;
  }

  // ---------- schema consistency ----------

  /** Position of the deepest indexed component. */
  function LastIndex(K: Schema, q: Path): (k: Option<nat>)
    ensures k.Some? ==> k.value < |q| && K.IsIndex(q[k.value]) && K.NoIndex(q[k.value + 1..])
    ensures k.None? ==> K.NoIndex(q)
  {
    if q == [] then None
    else if K.IsIndex(Name(q)) then Some(|q| - 1)
    else LastIndex(K, Dir(q))
  }

  lemma {:induction false} LastIndexUnique(K: Schema, q: Path, k: nat)
    requires k < |q| && K.IsIndex(q[k]) && K.NoIndex(q[k + 1..])
    ensures LastIndex(K, q) == Some(k)
    decreases |q|
  {
    if q != [] && !K.IsIndex(Name(q)) {
      LastIndexUnique(K, Dir(q), k);
    }
  }

  function CountOf(K: Schema, t: Tree, c: Path): nat {
    if c in t && K.number(t[c]).Some? then K.number(t[c]).value else 0
  }

  /** The count file whose rebuild creates `q`. */
  function Owner(K: Schema, q: Path): Option<Path> {
    match LastIndex(K, q)
    case None => None
    case Some(k) => if K.counter(q[..k]).Some? then Some(q[..k] + [K.counter(q[..k]).value]) else None
  }

  /** `q` is one of the leaves its owner's present count calls for. */
  predicate Supported(K: Schema, t: Tree, q: Path) {
    var o := Owner(K, q);
    o.Some? && o.value in t
    && var i := K.number(q[|o.value| - 1]);
       i.Some? && i.value < CountOf(K, t, o.value)
       && q == Dir(o.value) + [K.decimal(i.value)] + q[|o.value|..]
       && q[|o.value|..] in K.children(o.value, i.value)
  }

  ghost predicate Complete(K: Schema, t: Tree, c: Path)
    requires c != []
  {
    forall i: nat, r | i < CountOf(K, t, c) && r in K.children(c, i) :: K.Child(c, i, r) in t
  }

  /** Exactly the leaves that the roots and the present counts call for. */
  ghost predicate Consistent(K: Schema, t: Tree) {
    && K.roots <= t.Keys
    && (forall q | q in t :: q in K.roots || Supported(K, t, q))
    && (forall c | c in t && K.Rebuilds(c) :: Complete(K, t, c))
    && (forall c | c in t && K.Rebuilds(c) :: K.number(t[c]).Some? && t[c] == K.decimal(K.number(t[c]).value))
  }

  /** Only the roots can be relied on: anything at all may lie below the top
      count's indexed children. */
  ghost predicate Anchored(K: Schema, t: Tree) {
    K.roots <= t.Keys && forall q | q in t :: q in K.roots || BelowIndex(K, Dir(K.top), q)
  }

  /** What `Owner` says about a leaf found by position. */
  lemma OwnerOfChild(K: Schema, c: Path, i: nat, r: Path)
    requires K.Lawful() && K.Rebuilds(c) && K.NoIndex(r) && r != []
    ensures Owner(K, K.Child(c, i, r)) == Some(c)
    ensures |c| < |K.Child(c, i, r)|
  {
    var q := K.Child(c, i, r);
    assert q[|Dir(c)| + 1..] == r;
    LastIndexUnique(K, q, |Dir(c)|);
    assert q[..|Dir(c)|] == Dir(c);
    assert c == Dir(c) + [Name(c)];
  }

  lemma SupportedParts(K: Schema, t: Tree, q: Path) returns (c: Path, i: nat, r: Path)
    requires K.Lawful() && Supported(K, t, q)
    ensures K.Rebuilds(c) && c in t && Owner(K, q) == Some(c) && i < CountOf(K, t, c)
    ensures r in K.children(c, i) && q == K.Child(c, i, r) && |c| < |q| && K.DefaultLeaf(c, i, r)
    ensures BelowIndex(K, Dir(c), q) && |c| >= 1
  {
    c := Owner(K, q).value;
    i := K.number(q[|c| - 1]).value;
    r := q[|c|..];
    var k := LastIndex(K, q).value;
    assert Dir(c) == q[..k] && Name(c) == K.counter(q[..k]).value;
    assert K.DefaultLeaf(c, i, r);
  }

  lemma ChildSupported(K: Schema, t: Tree, c: Path, i: nat, r: Path)
    requires K.Lawful() && K.Rebuilds(c) && c in t && i < CountOf(K, t, c) && r in K.children(c, i)
    ensures Supported(K, t, K.Child(c, i, r))
    ensures Owner(K, K.Child(c, i, r)) == Some(c)
  {
    assert K.DefaultLeaf(c, i, r);
    OwnerOfChild(K, c, i, r);
    var q := K.Child(c, i, r);
    assert q[|c|..] == r;
    assert q[|c| - 1] == K.decimal(i);
  }

  /** Every leaf of a consistent tree is a root or lies below the top count's children. */
  lemma {:induction false} ConsistentIsAnchored(K: Schema, t: Tree)
    requires K.Lawful() && Consistent(K, t)
    ensures Anchored(K, t)
  {
    forall q | q in t ensures q in K.roots || BelowIndex(K, Dir(K.top), q) {
      BelowTop(K, t, q);
    }
  }

  lemma {:induction false} BelowTop(K: Schema, t: Tree, q: Path)
    requires K.Lawful() && Consistent(K, t) && q in t
    ensures q in K.roots || BelowIndex(K, Dir(K.top), q)
    decreases |q|
  {
    if q !in K.roots {
      var c, i, r := SupportedParts(K, t, q);
      BelowTop(K, t, c);
      if c in K.roots {
        assert c == K.top;
      } else {
        assert c[..|c| - 1] <= q;
        var d := Dir(K.top);
        assert !K.IsIndex(Name(c));
        assert d <= c && |d| < |c| - 1;
        assert q[|d|] == c[|d|];
        assert d <= q;
      }
    }
  }

  /** A path some choice of counts would make a leaf. */
  predicate LeafShape(K: Schema, q: Path)
    decreases |q|
  {
    q in K.roots
    || (var o := Owner(K, q);
        o.Some? && |o.value| < |q|
        && var i := K.number(q[|o.value| - 1]);
           i.Some?
           && q == Dir(o.value) + [K.decimal(i.value)] + q[|o.value|..]
           && q[|o.value|..] in K.children(o.value, i.value)
           && LeafShape(K, o.value))
  }

  lemma {:induction false} LeavesHaveShape(K: Schema, t: Tree, q: Path)
    requires K.Lawful() && Consistent(K, t) && q in t
    ensures LeafShape(K, q)
    decreases |q|
  {
    if q !in K.roots {
      var c, i, r := SupportedParts(K, t, q);
      LeavesHaveShape(K, t, c);
    }
  }

  /** The name test is exact: of the leaves a kernel has, it finds the counts and no others. */
  lemma NameTestIsExact(K: Schema, q: Path)
    requires K.Lawful() && LeafShape(K, q)
    ensures IsReconstructionCount(q) <==> K.Rebuilds(q)
  {
    if q !in K.roots {
      var c, i, r := ShapeParts(K, q);
    }
  }

  /** No leaf is ever a directory of another, whatever the counts. */
  lemma {:induction false} NoLeafIsDirectory(K: Schema, p: Path, q: Path)
    requires K.Valid() && LeafShape(K, p) && LeafShape(K, q) && p <= q
    ensures p == q
    decreases |q|
  {
    if q in K.roots {
      if p !in K.roots {
        var _, _, _ := ShapeParts(K, p);
      }
    } else {
      var c, i, r := ShapeParts(K, q);
      if |p| < |c| {
        assert p <= Dir(c) <= c;
        NoLeafIsDirectory(K, p, c);
      } else {
        SiblingShape(K, p, c, i, r);
      }
    }
  }

  lemma ShapeParts(K: Schema, q: Path) returns (c: Path, i: nat, r: Path)
    requires K.Lawful() && LeafShape(K, q) && q !in K.roots
    ensures K.Rebuilds(c) && LeafShape(K, c) && r in K.children(c, i) && q == K.Child(c, i, r)
    ensures K.DefaultLeaf(c, i, r) && |c| < |q| && K.IsIndex(q[|c| - 1]) && Owner(K, q) == Some(c)
  {
    c := Owner(K, q).value;
    i := K.number(q[|c| - 1]).value;
    r := q[|c|..];
    var k := LastIndex(K, q).value;
    assert Dir(c) == q[..k] && Name(c) == K.counter(q[..k]).value;
    assert K.DefaultLeaf(c, i, r);
  }

  /** A leaf shape reaching past the index of another's owner has the same owner and index. */
  lemma SiblingShape(K: Schema, p: Path, c: Path, i: nat, r: Path)
    requires K.Valid() && K.Rebuilds(c) && r in K.children(c, i) && LeafShape(K, p)
    requires p <= K.Child(c, i, r) && |c| <= |p|
    ensures p == K.Child(c, i, r)
  {
    var q := K.Child(c, i, r);
    assert K.DefaultLeaf(c, i, r);
    assert q[|c|..] == r && p[|c|..] == r[..|p| - |c|];
    SameOwner(K, p, c, i, r);
    var c', i', r' := ShapeParts(K, p);
    assert c' == c && p[|c|..] == r';
    assert i' == i by { assert p[|c| - 1] == K.decimal(i') && q[|c| - 1] == K.decimal(i); }
    assert PrefixFree(K.children(c, i).Keys);
  }

  lemma SameOwner(K: Schema, p: Path, c: Path, i: nat, r: Path)
    requires K.Lawful() && K.Rebuilds(c) && K.NoIndex(r)
    requires p <= K.Child(c, i, r) && |c| <= |p|
    ensures Owner(K, p) == Some(c) && p[|c| - 1] == K.decimal(i)
  {
    var q := K.Child(c, i, r);
    assert p[|c| - 1] == q[|c| - 1] == K.decimal(i);
    assert q[|c|..] == r && p[|c|..] == r[..|p| - |c|];
    LastIndexUnique(K, p, |c| - 1);
    assert p[..|c| - 1] == Dir(c);
    assert c == Dir(c) + [Name(c)];
  }

  // ---------- what one write keeps ----------

  /** Leaves that survive a rebuild keep their owners: an owner below a destroyed
      child would have been destroyed with everything it owns. */
  lemma SurvivorKeepsOwner(K: Schema, d: Path, c: Path, i: nat, r: Path)
    requires K.Lawful() && K.Rebuilds(c) && r != [] && K.NoIndex(r)
    requires BelowIndex(K, d, c)
    ensures BelowIndex(K, d, K.Child(c, i, r))
  {
    assert !K.IsIndex(Name(c));
    assert |d| < |c| - 1;
    var q := K.Child(c, i, r);
    assert q[..|c| - 1] == Dir(c);
    assert q[|d|] == c[|d|];
    assert d == c[..|d|] == q[..|d|];
  }

  /** A rebuild destroys an owned leaf only with its owner, unless it rebuilds that owner. */
  lemma DestroyedWithOwner(K: Schema, p: Path, c: Path, i: nat, r: Path)
    requires K.Lawful() && K.Rebuilds(c) && K.Rebuilds(p) && r != [] && K.NoIndex(r)
    requires BelowIndex(K, Dir(p), K.Child(c, i, r))
    ensures c == p || BelowIndex(K, Dir(p), c)
  {
    var q, d := K.Child(c, i, r), Dir(p);
    var k := |Dir(c)|;
    assert forall m | 0 <= m < |r| :: q[k + 1 + m] == r[m] && !K.IsIndex(q[k + 1 + m]);
    if |d| == k {
      assert d == q[..k] == Dir(c);
      assert p == d + [Name(p)] && c == d + [Name(c)];
    } else if |d| < k {
      assert q[|d|] == c[|d|];
      assert d == q[..|d|] == c[..|d|];
    }
  }

  lemma SurvivesWrite(K: Schema, t: Tree, p: Path, v: string, q: Path)
    requires K.Lawful() && Legal(K, t, p, v) && q in t && q != p
    requires !(K.Rebuilds(p) && BelowIndex(K, Dir(p), q))
    ensures q in AfterWrite(K, t, p, v) && AfterWrite(K, t, p, v)[q] == t[q]
  {
    if K.Rebuilds(p) && q in Created(K, p, K.number(v).value) {
      var i, r :| 0 <= i < K.number(v).value && r in K.children(p, i) && q == K.Child(p, i, r);
      CreatedLeaf(K, p, i, r);
      assert false;
    }
  }

  /** The leaf just written holds the text written, for a count in its printed form. */
  lemma WrittenValue(K: Schema, t: Tree, p: Path, v: string)
    requires K.Lawful() && Legal(K, t, p, v)
    ensures p in AfterWrite(K, t, p, v)
    ensures AfterWrite(K, t, p, v)[p] == if K.Rebuilds(p) then K.decimal(K.number(v).value) else v
    ensures K.Rebuilds(p) ==> CountOf(K, AfterWrite(K, t, p, v), p) == K.number(v).value
    ensures K.Rebuilds(p) ==> !BelowIndex(K, Dir(p), p)
  {
    if K.Rebuilds(p) {
      assert !BelowIndex(K, Dir(p), p) by { assert p[|Dir(p)|] == Name(p); }
      forall i: nat, r | r in K.children(p, i) ensures K.Child(p, i, r) != p {
        assert K.DefaultLeaf(p, i, r);
      }
    }
  }

  /** A kernel keeps its schema: whatever count is written, the leaves present
      afterwards are exactly those the counts call for. */
  lemma WriteKeepsConsistent(K: Schema, t: Tree, p: Path, v: string)
    requires K.Lawful() && Consistent(K, t) && Legal(K, t, p, v)
    ensures Consistent(K, AfterWrite(K, t, p, v))
  {
    var t' := AfterWrite(K, t, p, v);
    WrittenValue(K, t, p, v);
    if K.Rebuilds(p) {
      forall q | q in t' ensures q in K.roots || Supported(K, t', q) { RebuiltSupported(K, t, p, v, q); }
      forall c | c in t' && K.Rebuilds(c) ensures Complete(K, t', c) { RebuiltComplete(K, t, p, v, c); }
      forall q | q in K.roots ensures q in t' {
        if q != p { SurvivesWrite(K, t, p, v, q); }
      }
      forall c | c in t' && K.Rebuilds(c)
        ensures K.number(t'[c]).Some? && t'[c] == K.decimal(K.number(t'[c]).value)
      {
        RebuiltValue(K, t, p, v, c);
      }
    } else {
      forall q | q in t' ensures q in K.roots || Supported(K, t', q) {
        if q !in K.roots {
          var c, i, r := SupportedParts(K, t, q);
          ChildSupported(K, t', c, i, r);
        }
      }
      forall c | c in t' && K.Rebuilds(c) ensures Complete(K, t', c) { assert Complete(K, t, c); }
    }
  }

  lemma RebuiltSupported(K: Schema, t: Tree, p: Path, v: string, q: Path)
    requires K.Lawful() && Consistent(K, t) && Legal(K, t, p, v) && K.Rebuilds(p)
    requires q in AfterWrite(K, t, p, v)
    ensures q in K.roots || Supported(K, AfterWrite(K, t, p, v), q)
  {
    hide AfterWrite, Created, Complete, Supported, Schema.Lawful;
    RebuiltLeaf(K, t, p, v, q);
    if q in Created(K, p, K.number(v).value) {
      CreatedSupported(K, t, p, v, q);
    } else if q !in K.roots {
      assert Supported(K, t, q);
      SurvivorSupported(K, t, p, v, q);
    }
  }

  lemma RebuiltLeaf(K: Schema, t: Tree, p: Path, v: string, q: Path)
    requires K.Lawful() && Legal(K, t, p, v) && K.Rebuilds(p) && q in AfterWrite(K, t, p, v)
    ensures q in Created(K, p, K.number(v).value) || (q in t && !BelowIndex(K, Dir(p), q))
  {
    WrittenValue(K, t, p, v);
  }

  lemma CreatedSupported(K: Schema, t: Tree, p: Path, v: string, q: Path)
    requires K.Lawful() && Legal(K, t, p, v) && K.Rebuilds(p) && q in Created(K, p, K.number(v).value)
    ensures Supported(K, AfterWrite(K, t, p, v), q)
  {
    WrittenValue(K, t, p, v);
    var i, r :| 0 <= i < K.number(v).value && r in K.children(p, i) && q == K.Child(p, i, r);
    hide AfterWrite, Created;
    ChildSupported(K, AfterWrite(K, t, p, v), p, i, r);
  }

  lemma SurvivorSupported(K: Schema, t: Tree, p: Path, v: string, q: Path)
    requires K.Lawful() && Legal(K, t, p, v) && K.Rebuilds(p)
    requires q in t && q !in Created(K, p, K.number(v).value) && !BelowIndex(K, Dir(p), q) && Supported(K, t, q)
    ensures Supported(K, AfterWrite(K, t, p, v), q)
  {
    var t' := AfterWrite(K, t, p, v);
    WrittenValue(K, t, p, v);
    var c, i, r := SupportedParts(K, t, q);
    hide AfterWrite, Created;
    if BelowIndex(K, Dir(p), c) {
      SurvivorKeepsOwner(K, Dir(p), c, i, r);
    } else if c != p {
      SurvivesWrite(K, t, p, v, c);
      ChildSupported(K, t', c, i, r);
    } else {
      BelowOwnIndex(K, c, i, r);
    }
  }

  lemma BelowOwnIndex(K: Schema, c: Path, i: nat, r: Path)
    requires K.Lawful() && c != []
    ensures BelowIndex(K, Dir(c), K.Child(c, i, r))
  {
    assert K.Child(c, i, r)[|Dir(c)|] == K.decimal(i);
  }

  lemma RebuiltComplete(K: Schema, t: Tree, p: Path, v: string, c: Path)
    requires K.Lawful() && Consistent(K, t) && Legal(K, t, p, v) && K.Rebuilds(p) && K.Rebuilds(c)
    requires c in AfterWrite(K, t, p, v)
    ensures Complete(K, AfterWrite(K, t, p, v), c)
  {
    var t' := AfterWrite(K, t, p, v);
    WrittenValue(K, t, p, v);
    RebuiltValue(K, t, p, v, c);
    forall i: nat, r | i < CountOf(K, t', c) && r in K.children(c, i)
      ensures K.Child(c, i, r) in t'
    {
      assert K.DefaultLeaf(c, i, r);
      if c == p {
        assert K.Child(c, i, r) in Created(K, p, K.number(v).value);
      } else {
        assert c !in Created(K, p, K.number(v).value);
        assert Complete(K, t, c);
        if BelowIndex(K, Dir(p), K.Child(c, i, r)) {
          DestroyedWithOwner(K, p, c, i, r);
        }
        SurvivesOrWritten(K, t, p, v, K.Child(c, i, r));
      }
    }
  }

  lemma SurvivesOrWritten(K: Schema, t: Tree, p: Path, v: string, q: Path)
    requires K.Lawful() && Legal(K, t, p, v) && q in t
    requires !(K.Rebuilds(p) && BelowIndex(K, Dir(p), q))
    ensures q in AfterWrite(K, t, p, v)
  {
    WrittenValue(K, t, p, v);
    if q != p { SurvivesWrite(K, t, p, v, q); }
  }

  /** After a rebuild every other count is either the old one or a fresh zero. */
  lemma RebuiltValue(K: Schema, t: Tree, p: Path, v: string, c: Path)
    requires K.Lawful() && Legal(K, t, p, v) && K.Rebuilds(p) && K.Rebuilds(c)
    requires c in AfterWrite(K, t, p, v)
    requires forall q | q in t && K.Rebuilds(q) && (q in K.roots || !BelowIndex(K, Dir(p), q)) ::
               K.number(t[q]).Some? && t[q] == K.decimal(K.number(t[q]).value)
    ensures var w := AfterWrite(K, t, p, v)[c];
            K.number(w).Some? && w == K.decimal(K.number(w).value)
    ensures c != p && c in Created(K, p, K.number(v).value) ==> CountOf(K, AfterWrite(K, t, p, v), c) == 0
    ensures c != p && c !in Created(K, p, K.number(v).value) ==>
              c in t && !BelowIndex(K, Dir(p), c) && AfterWrite(K, t, p, v)[c] == t[c]
  {
    WrittenValue(K, t, p, v);
    if c != p && c in Created(K, p, K.number(v).value) {
      var i, r :| 0 <= i < K.number(v).value && r in K.children(p, i) && c == K.Child(p, i, r);
      CreatedLeaf(K, p, i, r);
    }
  }

  /** Writing the top count replaces everything below it, whatever was there. */
  lemma TopWriteRestoresSchema(K: Schema, t: Tree, v: string)
    requires K.Lawful() && Anchored(K, t) && Legal(K, t, K.top, v)
    ensures Consistent(K, AfterWrite(K, t, K.top, v))
  {
    var p := K.top;
    var t' := AfterWrite(K, t, p, v);
    forall q | q in t' ensures q in K.roots || Supported(K, t', q) { TopCreated(K, t, v, q); }
    forall q | q in K.roots ensures q in t' { RootSurvives(K, t, p, v, q); }
    forall c | c in t' && K.Rebuilds(c) ensures Complete(K, t', c) && K.number(t'[c]).Some?
      && t'[c] == K.decimal(K.number(t'[c]).value)
    {
      TopCounts(K, t, v, c);
    }
  }

  lemma RootSurvives(K: Schema, t: Tree, p: Path, v: string, q: Path)
    requires K.Lawful() && Legal(K, t, p, v) && q in K.roots && q in t
    ensures q in AfterWrite(K, t, p, v)
  {
    if K.Rebuilds(p) { assert !BelowIndex(K, Dir(p), q); }
    SurvivesOrWritten(K, t, p, v, q);
  }

  lemma TopCreated(K: Schema, t: Tree, v: string, q: Path)
    requires K.Lawful() && Anchored(K, t) && Legal(K, t, K.top, v) && q in AfterWrite(K, t, K.top, v)
    ensures q in K.roots || (q in Created(K, K.top, K.number(v).value) && Supported(K, AfterWrite(K, t, K.top, v), q))
  {
    WrittenValue(K, t, K.top, v);
    if q in Created(K, K.top, K.number(v).value) {
      var i, r :| 0 <= i < K.number(v).value && r in K.children(K.top, i) && q == K.Child(K.top, i, r);
      ChildSupported(K, AfterWrite(K, t, K.top, v), K.top, i, r);
    }
  }

  lemma TopCounts(K: Schema, t: Tree, v: string, c: Path)
    requires K.Lawful() && Anchored(K, t) && Legal(K, t, K.top, v)
    requires c in AfterWrite(K, t, K.top, v) && K.Rebuilds(c)
    ensures var t' := AfterWrite(K, t, K.top, v);
            Complete(K, t', c) && K.number(t'[c]).Some? && t'[c] == K.decimal(K.number(t'[c]).value)
  {
    var t' := AfterWrite(K, t, K.top, v);
    WrittenValue(K, t, K.top, v);
    if c == K.top {
      forall i: nat, r | i < CountOf(K, t', c) && r in K.children(c, i) ensures K.Child(c, i, r) in t' {
        assert K.Child(c, i, r) in Created(K, c, K.number(v).value);
      }
    } else {
      TopCreated(K, t, v, c);
      var i, r :| 0 <= i < K.number(v).value && r in K.children(K.top, i) && c == K.Child(K.top, i, r);
      CreatedLeaf(K, K.top, i, r);
      assert t'[c] == K.decimal(0);
    }
  }

  // ---------- leaves that change by themselves ----------

  /** The same leaves, with the same values outside `loose`. */
  ghost predicate Calm(loose: set<Path>, t: Tree, u: Tree) {
    t.Keys == u.Keys && forall p | p in t && p !in loose :: t[p] == u[p]
  }

  lemma CalmNothing(loose: set<Path>, t: Tree)
    ensures Calm(loose, t, t)
  {
  }

  lemma CalmTransitive(loose: set<Path>, t: Tree, u: Tree, v: Tree)
    requires Calm(loose, t, u) && Calm(loose, u, v)
    ensures Calm(loose, t, v)
  {
  }

  lemma CalmWidens(loose: set<Path>, wider: set<Path>, t: Tree, u: Tree)
    requires Calm(loose, t, u) && loose <= wider
    ensures Calm(wider, t, u) && Calm(wider, u, t)
  {
  }

  lemma CalmIsEqual(t: Tree, u: Tree)
    requires Calm({}, t, u)
    ensures t == u
  {
  }

  lemma CalmKeepsConsistent(K: Schema, loose: set<Path>, t: Tree, u: Tree)
    requires K.Lawful() && Consistent(K, t) && Calm(loose, t, u)
    requires forall p | p in loose :: !IsReconstructionCount(p)
    ensures Consistent(K, u)
  {
    forall q | q in u ensures q in K.roots || Supported(K, u, q) {
      if q !in K.roots {
        var c, i, r := SupportedParts(K, t, q);
        assert IsReconstructionCount(c);
        ChildSupported(K, u, c, i, r);
      }
    }
    forall c | c in u && K.Rebuilds(c) ensures Complete(K, u, c) {
      assert IsReconstructionCount(c);
      assert Complete(K, t, c);
    }
  }
}
