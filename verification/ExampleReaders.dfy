/** Typed readers small enough to write down, showing that what is assumed of readers and of
    settled targets can be met by a kernel that really drops marked targets. */
module ExampleReaders {
  import opened Outcomes
  import opened Paths
  import opened KernelTree
  import opened Config
  import opened TuningGoals
  import opened TargetLeaves
  import opened SysfsModel
  import opened Validity

  // ---------- targets as leaves ----------

  /** The targets of a kdamond's only context: how many there are, and which are marked. */
  function TargetCount(K: Schema, k: nat): Path {
    KdamondDir(K, k) + ["contexts", K.decimal(0), "targets", "nr_targets"]
  }

  function MarkLeaf(K: Schema, k: nat, i: nat): Path {
    KdamondDir(K, k) + ["contexts", K.decimal(0), "targets", K.decimal(i), "obsolete_target"]
  }

  function MarkLeaves(K: Schema, k: nat, n: nat): set<Path> {
    set i | 0 <= i < n :: MarkLeaf(K, k, i)
  }

  function MarkAt(K: Schema, marks: seq<bool>, p: Path): string {
    if |K.base| + 4 < |p| && K.number(p[|K.base| + 4]).Some? && K.number(p[|K.base| + 4]).value < |marks|
    then (if marks[K.number(p[|K.base| + 4]).value] then "Y" else "N") else ""
  }

  function Leaves(K: Schema, k: nat, marks: seq<bool>): Tree {
    (map p | p in MarkLeaves(K, k, |marks|) :: MarkAt(K, marks, p))[TargetCount(K, k) := K.decimal(|marks|)]
  }

  function Targets(marks: seq<bool>): (targets: seq<TargetConfig>)
    ensures |targets| == |marks| && forall i | 0 <= i < |targets| :: targets[i] == TargetConfig(None, marks[i], [])
  {
    seq(|marks|, i requires 0 <= i < |marks| => TargetConfig(None, marks[i], []))
  }

  lemma LeavesAreTargets(K: Schema, k: nat, marks: seq<bool>)
    ensures forall p | p in Leaves(K, k, marks) :: IsTargetLeaf(K, p)
  {
  }

  /** The leaves determine the marks. */
  lemma LeavesInjective(K: Schema, j: nat, a: seq<bool>, k: nat, b: seq<bool>)
    requires K.Lawful() && Leaves(K, j, a) == Leaves(K, k, b)
    ensures a == b
  {
    var c := TargetCount(K, j);
    assert c in Leaves(K, k, b);
    assert c[|c| - 1] == "nr_targets" && |c| == |K.base| + 5;
    assert c == TargetCount(K, k);
    assert K.decimal(|a|) == K.decimal(|b|) && |a| == |b| by { assert K.number(K.decimal(|a|)) == K.number(K.decimal(|b|)); }
    assert c[|K.base|] == K.decimal(j) && TargetCount(K, k)[|K.base|] == K.decimal(k);
    assert K.number(K.decimal(j)) == K.number(K.decimal(k));
    forall i | 0 <= i < |a| ensures a[i] == b[i] {
      MarkOf(K, j, a, i);
      MarkOf(K, k, b, i);
    }
  }

  lemma MarkOf(K: Schema, k: nat, marks: seq<bool>, i: nat)
    requires K.Lawful() && i < |marks|
    ensures MarkLeaf(K, k, i) in Leaves(K, k, marks)
    ensures Leaves(K, k, marks)[MarkLeaf(K, k, i)] == if marks[i] then "Y" else "N"
  {
    var p := MarkLeaf(K, k, i);
    assert p in MarkLeaves(K, k, |marks|) && p[|K.base| + 4] == K.decimal(i) && |p| == |K.base| + 6;
  }

  // ---------- the readers ----------

  ghost predicate Shows(K: Schema, x: Tree, marks: seq<bool>) {
    exists k :: x == Leaves(K, k, marks)
  }

  ghost function ReadTargets(K: Schema, x: Tree): Option<seq<seq<TargetConfig>>> {
    if exists marks :: Shows(K, x, marks) then
      var marks :| Shows(K, x, marks);
      Some([Targets(marks)])
    else None
  }

  /** A commit keeps one unmarked target for each there was. */
  ghost function Drop(K: Schema, x: Tree): Tree {
    if exists k, marks :: x == Leaves(K, k, marks) then
      var k, marks :| x == Leaves(K, k, marks);
      Leaves(K, k, Unmark(marks))
    else map[]
  }

  function Unmark(marks: seq<bool>): seq<bool> {
    seq(|Retained(Targets(marks))|, _ => false)
  }

  lemma {:induction false} UnmarkedTargets(marks: seq<bool>)
    ensures Retained(Targets(marks)) == Targets(Unmark(marks))
    decreases |marks|
  {
    if marks != [] {
      var init, last := marks[..|marks| - 1], marks[|marks| - 1];
      UnmarkedTargets(init);
      assert Targets(marks) == Targets(init) + [TargetConfig(None, last, [])];
      OneMore(Targets(init), TargetConfig(None, last, []));
      hide Retained;
      if last {
        assert Unmark(marks) == Unmark(init);
      } else {
        assert Unmark(marks) == Unmark(init) + [false];
        assert Targets(Unmark(init) + [false]) == Targets(Unmark(init)) + [TargetConfig(None, false, [])];
      }
    }
  }

  lemma ShownTargets(K: Schema, k: nat, marks: seq<bool>)
    requires K.Lawful()
    ensures ReadTargets(K, Leaves(K, k, marks)) == Some([Targets(marks)])
  {
    var x := Leaves(K, k, marks);
    assert Shows(K, x, marks);
    forall m | Shows(K, x, m) ensures m == marks {
      var j :| x == Leaves(K, j, m);
      LeavesInjective(K, j, m, k, marks);
    }
  }

  lemma DroppedTargets(K: Schema, x: Tree)
    requires K.Lawful() && ReadTargets(K, x).Some?
    ensures ReadTargets(K, Drop(K, x)) == Some(RetainEach(ReadTargets(K, x).value))
  {
    var m :| Shows(K, x, m);
    var j :| x == Leaves(K, j, m);
    var k, marks :| x == Leaves(K, k, marks) && Drop(K, x) == Leaves(K, k, Unmark(marks));
    ShownTargets(K, k, marks);
    ShownTargets(K, k, Unmark(marks));
    UnmarkedTargets(marks);
    hide Retained, Leaves, Unmark;
    assert RetainEach([Targets(marks)]) == [Retained(Targets(marks))];
  }

  /** One kdamond with one context whose intervals are not tuned. */
  ghost predicate ShowsOne(K: Schema, t: Tree, marks: seq<bool>) {
    && CountOf(K, t, K.top) == 1 && CountOf(K, t, ContextCount(K, 0)) == 1
    && IntervalLeaf(K, 0, 0, "sample_us") in t && IntervalLeaf(K, 0, 0, "aggr_us") in t && GoalAggregations(K, 0, 0) !in t
    && TargetPart(K, Subtree(t, KdamondDir(K, 0))) == Leaves(K, 0, marks)
  }

  function One(like: ContextConfig, marks: seq<bool>): DamonConfig {
    DamonConfig([KdamondConfig(0, [like.(targets := Targets(marks), intervalsGoal := like.intervalsGoal.(aggregations := 0))])])
  }

  ghost function ReadOne(K: Schema, like: ContextConfig, t: Tree): Option<DamonConfig> {
    if exists marks :: ShowsOne(K, t, marks) then
      var marks :| ShowsOne(K, t, marks);
      Some(One(like, marks))
    else None
  }

  lemma ReadOneIsLawful(K: Schema, like: ContextConfig, t: Tree)
    requires K.Lawful() && ReadOne(K, like, t).Some?
    ensures var c := ReadOne(K, like, t).value;
            && ViewsGoals(K, t, c) && |c.kdamonds| == 1
            && ReadTargets(K, TargetPart(K, Subtree(t, KdamondDir(K, 0)))) == Some(TargetsOf(c.kdamonds[0]))
  {
    var marks :| ShowsOne(K, t, marks) && ReadOne(K, like, t) == Some(One(like, marks));
    ShownTargets(K, 0, marks);
    hide Leaves, ReadTargets, TargetPart;
    assert TargetsOf(One(like, marks).kdamonds[0]) == [Targets(marks)];
  }

  /** A kernel like `K` that drops marked targets, with readers that obey every law. */
  ghost function Dropping(K: Schema): Schema {
    K.(settle := (x: Tree) => Drop(K, x))
  }

  lemma ReadersExist(K: Schema, like: ContextConfig)
    requires K.Lawful()
    ensures ReadersLawful(Dropping(K), (t: Tree) => ReadOne(K, like, t), (x: Tree) => ReadTargets(K, x))
  {
    var dropping := Dropping(K);
    forall x: Tree, p | p in dropping.settle(x) ensures IsTargetLeaf(dropping, p) {
      var k, marks :| x == Leaves(K, k, marks) && Drop(K, x) == Leaves(K, k, Unmark(marks));
      LeavesAreTargets(K, k, Unmark(marks));
    }
    forall x: Tree | ReadTargets(K, x).Some? ensures ReadTargets(K, dropping.settle(x)) == Some(RetainEach(ReadTargets(K, x).value)) {
      DroppedTargets(K, x);
    }
    hide ReadTargets, Drop;
    forall t: Tree | ReadOne(K, like, t).Some?
      ensures ViewsGoals(dropping, t, ReadOne(K, like, t).value)
      ensures forall k: nat | k < |ReadOne(K, like, t).value.kdamonds| ::
                ReadTargets(K, TargetPart(dropping, Subtree(t, KdamondDir(dropping, k)))) == Some(TargetsOf(ReadOne(K, like, t).value.kdamonds[k]))
    {
      ReadOneIsLawful(K, like, t);
      SameLayout(K, t, ReadOne(K, like, t).value);
    }
  }

  /** What committed targets become has no bearing on what is staged. */
  lemma SameLayout(K: Schema, t: Tree, config: DamonConfig)
    ensures ViewsGoals(K, t, config) ==> ViewsGoals(Dropping(K), t, config)
    ensures forall k: nat :: TargetPart(Dropping(K), Subtree(t, KdamondDir(Dropping(K), k))) == TargetPart(K, Subtree(t, KdamondDir(K, k)))
  {
    hide Drop;
    if ViewsGoals(K, t, config) {
      forall k | 0 <= k < |config.kdamonds| ensures |config.kdamonds[k].contexts| == CountOf(Dropping(K), t, ContextCount(Dropping(K), k))
        && forall c | 0 <= c < |config.kdamonds[k].contexts| :: ViewsGoal(Dropping(K), t, config.kdamonds[k].contexts[c], k, c) {
        forall c | 0 <= c < |config.kdamonds[k].contexts| ensures ViewsGoal(Dropping(K), t, config.kdamonds[k].contexts[c], k, c) {
          assert ViewsGoal(K, t, config.kdamonds[k].contexts[c], k, c);
        }
      }
    }
  }

  /** These readers do read: also a hierarchy with a marked target. */
  lemma MarkedIsRead(K: Schema, like: ContextConfig, t: Tree, marks: seq<bool>)
    requires K.Lawful() && ShowsOne(K, t, marks)
    ensures ReadOne(K, like, t) == Some(One(like, marks))
  {
    forall m | ShowsOne(K, t, m) ensures m == marks { LeavesInjective(K, 0, m, 0, marks); }
  }
}
