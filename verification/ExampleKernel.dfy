/** A kernel small enough to write down, with the directories and counts of DAMON, showing
    that what is assumed of every kernel can be met. */
module ExampleKernel {
  import opened Outcomes
  import opened Paths
  import opened KernelTree
  import opened Restoration
  import opened RefusedRestorations
  import opened CapturedReceipts

  /** Counts in unary: one stroke per unit. */
  function Strokes(n: nat): (s: string)
    ensures |s| == n && forall k | 0 <= k < n :: s[k] == '1'
  {
    seq(n, _ => '1')
  }

  function CountStrokes(s: string): Option<nat> {
    if forall k | 0 <= k < |s| :: s[k] == '1' then Some(|s|) else None
  }

  lemma StrokesCount(n: nat)
    ensures CountStrokes(Strokes(n)) == Some(n)
  {
  }

  // ---------- the layout ----------

  predicate InKdamond(d: Path) {
    |d| >= 3 && d[0] == "kdamonds" && CountStrokes(d[1]).Some? && d[2] == "contexts"
  }

  predicate InContext(d: Path) {
    |d| >= 5 && InKdamond(d) && CountStrokes(d[3]).Some?
  }

  predicate InScheme(d: Path) {
    |d| >= 7 && InContext(d) && d[4] == "schemes" && CountStrokes(d[5]).Some?
  }

  /** Kdamonds, their contexts, the targets and schemes of each, and the goals of a scheme. */
  function Counter(d: Path): Option<Component> {
    if d == ["kdamonds"] then Some("nr_kdamonds")
    else if |d| == 3 && InKdamond(d) then Some("nr_contexts")
    else if |d| == 5 && InContext(d) && d[4] == "targets" then Some("nr_targets")
    else if |d| == 5 && InContext(d) && d[4] == "schemes" then Some("nr_schemes")
    else if |d| == 8 && InScheme(d) && d[6] == "quotas" && d[7] == "goals" then Some("nr_goals")
    else None
  }

  function Children(count: Path, i: nat): map<Path, string> {
    if count == [] then map[]
    else if Name(count) == "nr_kdamonds" then map[["refresh_ms"] := "0", ["contexts", "nr_contexts"] := ""]
    else if Name(count) == "nr_contexts" then
      map[["monitoring_attrs", "intervals", "sample_us"] := "5000", ["monitoring_attrs", "intervals", "aggr_us"] := "100000",
          ["monitoring_attrs", "intervals", "intervals_goal", "aggrs"] := "", ["targets", "nr_targets"] := "", ["schemes", "nr_schemes"] := ""]
    else if Name(count) == "nr_targets" then map[["pid_target"] := "0", ["obsolete_target"] := "N"]
    else if Name(count) == "nr_schemes" then 
      map[["action"] := "stat", ["quotas", "goals", "nr_goals"] := "",
          ["quotas", "weights", "sz_permil"] := "0", ["quotas", "weights", "nr_accesses_permil"] := "0", ["quotas", "weights", "age_permil"] := "0"]
    else map[["target_metric"] := "user_input", ["target_value"] := "0"]
  }

  const SMALL: Schema := Schema(["kdamonds"], "nr_kdamonds", {["kdamonds", "nr_kdamonds"]}, Counter, Children, Strokes, CountStrokes, targets => targets)

  predicate Plain(name: Component) {
    CountStrokes(name).None?
  }

  /** A name with a first character other than a stroke is no index. */
  lemma NameIsPlain(name: Component)
    requires name != "" && name[0] != '1'
    ensures Plain(name)
  {
  }

  lemma LeafNamesArePlain(p: Path, i: nat, r: Path)
    requires r in Children(p, i)
    ensures r != [] && forall k | 0 <= k < |r| :: Plain(r[k])
  {
    forall k | 0 <= k < |r| ensures Plain(r[k]) { NameIsPlain(r[k]); }
  }

  lemma SmallIsValid()
    ensures SMALL.Valid()
  {
    forall n: nat ensures SMALL.number(SMALL.decimal(n)) == Some(n) { StrokesCount(n); }
    forall p, i: nat, r | SMALL.Rebuilds(p) && r in SMALL.children(p, i) ensures SMALL.DefaultLeaf(p, i, r) {
      ChildIsDefaultLeaf(p, i, r);
    }
    forall d | Counter(d).Some? ensures IsCountName(Counter(d).value) && Plain(Counter(d).value) { NameIsPlain(Counter(d).value); }
    NameIsPlain("kdamonds");
    NameIsPlain("nr_kdamonds");
    assert SMALL.top == ["kdamonds", "nr_kdamonds"] && Dir(SMALL.top) == ["kdamonds"];
    forall p, i: nat | SMALL.Rebuilds(p) ensures PrefixFree(SMALL.children(p, i).Keys) {
      NoLeafAboveAnother(p, i);
    }
  }

  lemma NoLeafAboveAnother(p: Path, i: nat)
    ensures PrefixFree(Children(p, i).Keys)
  {
    forall a, b | a in Children(p, i) && b in Children(p, i) && a <= b ensures a == b {
      LeafNamesArePlain(p, i, a);
      assert a[0] == b[0];
      if |a| > 2 { assert a[2] == b[2]; }
    }
  }

  lemma ChildIsDefaultLeaf(p: Path, i: nat, r: Path)
    requires p != [] && SMALL.Rebuilds(p) && r in Children(p, i)
    ensures SMALL.DefaultLeaf(p, i, r)
  {
    LeafNamesArePlain(p, i, r);
    var q := SMALL.Child(p, i, r);
    assert Name(q) == r[|r| - 1] && Dir(q) == Dir(p) + [Strokes(i)] + r[..|r| - 1];
    if SMALL.Rebuilds(q) { assert Strokes(0) == ""; }
    if IsReconstructionCount(q) { CountIsRebuilt(p, i, r); }
  }

  /** Of the fresh leaves, those named like counts are counts; a weight of accesses is not. */
  lemma CountIsRebuilt(p: Path, i: nat, r: Path)
    requires p != [] && SMALL.Rebuilds(p) && r in Children(p, i) && IsCountName(r[|r| - 1])
    ensures SMALL.Rebuilds(SMALL.Child(p, i, r))
  {
    var d, q := Dir(p), SMALL.Child(p, i, r);
    StrokesCount(i);
    assert Counter(d) == Some(Name(p)) && Name(q) == r[|r| - 1];
    NamedCount(p, i, r);
    assert Dir(q) == d + [Strokes(i)] + r[..|r| - 1];
    if Name(p) == "nr_kdamonds" {
      assert Dir(q) == ["kdamonds", Strokes(i), "contexts"];
    } else if Name(p) == "nr_contexts" {
      assert Dir(q) == d + [Strokes(i), r[0]] && d[0] == "kdamonds" && d[2] == "contexts";
    } else {
      assert Dir(q) == d + [Strokes(i), "quotas", "goals"];
      assert d[0] == "kdamonds" && d[2] == "contexts" && d[4] == "schemes";
    }
  }

  lemma NamedCount(p: Path, i: nat, r: Path)
    requires p != [] && r in Children(p, i) && r != [] && IsCountName(r[|r| - 1])
    ensures Name(p) == "nr_kdamonds" ==> r == ["contexts", "nr_contexts"]
    ensures Name(p) == "nr_contexts" ==> r == ["targets", "nr_targets"] || r == ["schemes", "nr_schemes"]
    ensures Name(p) == "nr_schemes" ==> r == ["quotas", "goals", "nr_goals"]
    ensures Name(p) == "nr_kdamonds" || Name(p) == "nr_contexts" || Name(p) == "nr_schemes"
  {
    var name := r[|r| - 1];
    assert name[0] == 'n' && name[1] == 'r' && name[2] == '_' && name != "nr_accesses_permil";
  }

  /** Its names are those of DAMON, as receipts expect them. */
  lemma SmallHasDamonNames()
    ensures DamonNames(SMALL)
  {
    forall name | name in {"kdamonds", "contexts", "monitoring_attrs", "intervals", "intervals_goal", "aggrs", "nr_contexts"} ensures !SMALL.IsIndex(name) {
      NameIsPlain(name);
    }
    forall k: nat ensures SMALL.counter(KdamondDir(SMALL, k) + ["contexts"]) == Some("nr_contexts") {
      StrokesCount(k);
      assert KdamondDir(SMALL, k) + ["contexts"] == ["kdamonds", Strokes(k), "contexts"];
    }
  }

  // ---------- a refused restoration ----------

  /** One stopped kdamond that does not refresh as kernels do by default. */
  const STOPPED: Tree := map[["kdamonds", "nr_kdamonds"] := "1", ["kdamonds", "", "refresh_ms"] := "5", ["kdamonds", "", "contexts", "nr_contexts"] := ""]

  const ORDER: seq<Path> := [["kdamonds", "nr_kdamonds"], ["kdamonds", "", "refresh_ms"], ["kdamonds", "", "contexts", "nr_contexts"]]

  const TOP: Path := ["kdamonds", "nr_kdamonds"]

  lemma StoppedLeaves(r: Path)
    requires r in Children(TOP, 0)
    ensures r == ["refresh_ms"] || r == ["contexts", "nr_contexts"]
    ensures SMALL.Child(TOP, 0, r) == ["kdamonds", ""] + r
  {
    StrokesCount(0);
    assert Dir(TOP) == ["kdamonds"] && Strokes(0) == "";
  }

  lemma FirstChildren()
    ensures Created(SMALL, TOP, 1) == {ORDER[1], ORDER[2]}
  {
    StoppedLeaves(["refresh_ms"]);
    StoppedLeaves(["contexts", "nr_contexts"]);
    assert ["kdamonds", ""] + ["refresh_ms"] == ORDER[1] && ["kdamonds", ""] + ["contexts", "nr_contexts"] == ORDER[2];
    hide Schema.Child, Strokes;
    forall q ensures q in Created(SMALL, TOP, 1) <==> q == ORDER[1] || q == ORDER[2] {
      if q in Created(SMALL, TOP, 1) {
        var i, r :| 0 <= i < 1 && r in SMALL.children(TOP, i) && q == SMALL.Child(TOP, i, r);
        StoppedLeaves(r);
      }
    }
  }

  lemma FirstDefaults()
    ensures DefaultValue(SMALL, TOP, ORDER[1]) == "0" && DefaultValue(SMALL, TOP, ORDER[2]) == ""
  {
    SmallIsValid();
    assert SMALL.Rebuilds(TOP) by { assert Dir(TOP) == ["kdamonds"]; }
    StoppedLeaves(["refresh_ms"]);
    StoppedLeaves(["contexts", "nr_contexts"]);
    CreatedLeaf(SMALL, TOP, 0, ["refresh_ms"]);
    CreatedLeaf(SMALL, TOP, 0, ["contexts", "nr_contexts"]);
    assert ["kdamonds", ""] + ["refresh_ms"] == ORDER[1] && ["kdamonds", ""] + ["contexts", "nr_contexts"] == ORDER[2];
  }

  /** What the kernel makes of a first kdamond. */
  lemma FirstKdamond()
    ensures SMALL.Rebuilds(TOP) && Legal(SMALL, map[TOP := ""], TOP, "1")
    ensures AfterWrite(SMALL, map[TOP := ""], TOP, "1") == STOPPED[ORDER[1] := "0"]
  {
    StrokesCount(1);
    assert Strokes(1) == "1" && Dir(TOP) == ["kdamonds"];
    FirstChildren();
    FirstDefaults();
    assert !BelowIndex(SMALL, Dir(TOP), TOP) by { NameIsPlain("nr_kdamonds"); }
    hide DefaultValue, Created, Strokes;
    assert ORDER[0] == TOP;
  }

  lemma StoppedIsConsistent()
    ensures Consistent(SMALL, STOPPED)
  {
    SmallIsValid();
    EmptyTreeIsConsistent();
    FirstKdamond();
    hide Consistent, Schema.Lawful, CountStrokes, Strokes;
    WriteKeepsConsistent(SMALL, map[TOP := ""], TOP, "1");
    var t := STOPPED[ORDER[1] := "0"];
    assert !SMALL.Rebuilds(ORDER[1]);
    WriteKeepsConsistent(SMALL, t, ORDER[1], "5");
    assert AfterWrite(SMALL, t, ORDER[1], "5") == STOPPED;
  }

  lemma StoppedOrder()
    ensures IsRestorationOrder(STOPPED, STOPPED.Keys, ORDER)
  {
    assert ORDER[0] == SMALL.top && Depth(ORDER[0]) == 2 && Depth(ORDER[1]) == 3 && Depth(ORDER[2]) == 4;
    assert STOPPED.Keys == {ORDER[0], ORDER[1], ORDER[2]};
  }

  lemma FreshLeaf(t: Tree, r: Path)
    requires r in Children(TOP, 0)
    ensures Untouched(SMALL, t, ["kdamonds", ""] + r) == Some(Children(TOP, 0)[r])
  {
    SmallIsValid();
    StoppedLeaves(r);
    assert Dir(TOP) == ["kdamonds"] && SMALL.Rebuilds(TOP);
    CreatedIsUntouched(SMALL, t, TOP, 0, r);
    CreatedLeaf(SMALL, TOP, 0, r);
  }

  /** Whatever is staged, refusing the second write of its restoration leaves something else
      than was captured; refusing only the third does not. */
  lemma RefusedSecondWrite(t: Tree)
    requires Consistent(SMALL, t)
    ensures RestoreRun(SMALL, t, STOPPED, ORDER[..1]).Some? && RestoreRun(SMALL, t, STOPPED, ORDER[..1]).value != STOPPED
    ensures RestoreRun(SMALL, t, STOPPED, ORDER[..2]) == Some(STOPPED)
  {
    SmallIsValid();
    StoppedIsConsistent();
    StoppedOrder();
    FreshValues(t);
    hide Consistent, Schema.Lawful, IsRestorationOrder, RestoreRun, Untouched;
    assert ORDER[..1][0] == SMALL.top && ORDER[..2][0] == SMALL.top;
    RefusedRestoration(SMALL, STOPPED, t, ORDER, 1);
    RefusedRestoration(SMALL, STOPPED, t, ORDER, 2);
    assert ORDER[1..][0] == ORDER[1] && ORDER[2..] == [ORDER[2]];
  }

  lemma FreshValues(t: Tree)
    ensures Untouched(SMALL, t, ORDER[1]) == Some("0") && Untouched(SMALL, t, ORDER[2]) == Some("")
  {
    FreshLeaf(t, ["refresh_ms"]);
    FreshLeaf(t, ["contexts", "nr_contexts"]);
    assert ["kdamonds", ""] + ["refresh_ms"] == ORDER[1] && ["kdamonds", ""] + ["contexts", "nr_contexts"] == ORDER[2];
  }

  /** With no kdamonds configured, the tree is just the count. */
  lemma EmptyTreeIsConsistent()
    ensures Consistent(SMALL, map[SMALL.top := ""])
  {
    var t := map[SMALL.top := ""];
    assert SMALL.top == ["kdamonds", "nr_kdamonds"];
    assert CountOf(SMALL, t, SMALL.top) == 0;
    assert Strokes(0) == "";
  }
}
