/** Staging the goals of one scheme's quota: exactly which leaves that may change, and the
    check that everything else still is what the session staged. */
module QuotaGoals {
  import opened Outcomes
  import opened Paths
  import opened KernelTree
  import opened Restoration
  import opened Config
  import opened KernelNodes
  import opened TuningGoals
  import opened SysfsModel
  import opened RunningState
  import opened Traces
  import opened Snapshots
  import opened Hierarchy
  import opened Validity
  import opened Updates
  import opened Rollbacks

  // ---------- where goals are staged ----------

  function QuotasDir(K: Schema, k: nat, c: nat, s: nat): Path {
    KdamondDir(K, k) + ["contexts", K.decimal(c), "schemes", K.decimal(s), "quotas"]
  }

  /** The `goals` directory of some scheme. */
  function GoalsDir(K: Schema, k: nat, context: Component, scheme: Component): Path {
    KdamondDir(K, k) + ["contexts", context, "schemes", scheme, "quotas", "goals"]
  }

  /** Goal leaves of a kdamond are what lies in the `goals` directories of its schemes. */
  lemma GoalLeavesLieBelow(K: Schema, k: nat, p: Path)
    requires KdamondDir(K, k) <= p
    ensures IsGoalLeaf(K, p) <==> exists context, scheme :: GoalsDir(K, k, context, scheme) <= p
  {
    if IsGoalLeaf(K, p) { assert GoalsDir(K, k, p[|K.base| + 2], p[|K.base| + 4]) <= p; }
  }

  function GoalCount(quotas: Path): Path {
    quotas + ["goals", "nr_goals"]
  }

  function GoalLeaf(K: Schema, quotas: Path, n: nat, name: Component): Path {
    quotas + ["goals", K.decimal(n), name]
  }

  /** The texts of staged goals, how they are read, and the typed view of a whole quota. */
  datatype GoalView = GoalView(
    metric: GoalMetric -> string, parseMetric: string -> GoalMetric,
    integer: int -> string, parseInteger: string -> Option<int>,
    quota: (Tree, Path) -> Option<QuotaConfig>)
  {
    /** Integers are read as they were written, and a quota shows the goals that are staged. */
    ghost predicate Lawful(K: Schema) {
      && (forall n: int :: parseInteger(integer(n)) == Some(n))
      && forall t: Tree, q, config | quota(t, q) == Some(config) :: GoalsAt(K, this, t, q) == Some(config.goals)
    }
  }

  /** One goal as it is read: only some metrics come with a node or a cgroup path. */
  function GoalAt(K: Schema, view: GoalView, t: Tree, quotas: Path, n: nat): Option<GoalConfig> {
    var target, current := GoalLeaf(K, quotas, n, "target_value"), GoalLeaf(K, quotas, n, "current_value");
    var node, path := GoalLeaf(K, quotas, n, "nid"), GoalLeaf(K, quotas, n, "path");
    var metric := MetricAt(K, view, t, quotas, n);
    var withNode, withPath := metric.RequiresNode() || metric.UnknownMetric?, metric.RequiresCgroupPath() || metric.UnknownMetric?;
    if target !in t || K.number(t[target]).None? || current !in t || K.number(t[current]).None? then None
    else if withNode && (node !in t || view.parseInteger(t[node]).None?) then None
    else if withPath && path !in t then None
    else Some(GoalConfig(metric, K.number(t[target]).value, K.number(t[current]).value,
                         if withNode then view.parseInteger(t[node]) else None, if withPath then Some(t[path]) else None))
  }

  /** A kernel without goal metrics has only user input. */
  function MetricAt(K: Schema, view: GoalView, t: Tree, quotas: Path, n: nat): GoalMetric {
    var p := GoalLeaf(K, quotas, n, "target_metric");
    if p in t then view.parseMetric(t[p]) else UserInput
  }

  function GoalsFrom(K: Schema, view: GoalView, t: Tree, quotas: Path, count: nat): (goals: Option<seq<GoalConfig>>)
    ensures goals.Some? ==> |goals.value| == count && forall n | 0 <= n < count :: GoalAt(K, view, t, quotas, n) == Some(goals.value[n])
    ensures goals.None? ==> exists n: nat | n < count :: GoalAt(K, view, t, quotas, n).None?
  {
    if count == 0 then Some([])
    else
      var before, last := GoalsFrom(K, view, t, quotas, count - 1), GoalAt(K, view, t, quotas, count - 1);
      if before.None? || last.None? then None else Some(before.value + [last.value])
  }

  /** `goal_configurations`: none without a count file, else as many as it says. */
  function GoalsAt(K: Schema, view: GoalView, t: Tree, quotas: Path): Option<seq<GoalConfig>> {
    if GoalCount(quotas) !in t then Some([])
    else
      var count := K.number(t[GoalCount(quotas)]);
      if count.None? then None else GoalsFrom(K, view, t, quotas, count.value)
  }

  /** Goal by goal. */
  lemma GoalsAre(K: Schema, view: GoalView, t: Tree, quotas: Path, goals: seq<GoalConfig>)
    requires GoalCount(quotas) in t && K.number(t[GoalCount(quotas)]) == Some(|goals|)
    requires forall n | 0 <= n < |goals| :: GoalAt(K, view, t, quotas, n) == Some(goals[n])
    ensures GoalsAt(K, view, t, quotas) == Some(goals)
  {
    var read := GoalsFrom(K, view, t, quotas, |goals|);
    assert read.Some? && read.value == goals;
  }

  /** The goal is one that reading can give back: it carries a node, and a cgroup path, exactly
      when its metric is read with one, and its metric survives being written. */
  predicate GoalHolds(view: GoalView, g: GoalConfig) {
    GoalFits(g) && view.parseMetric(view.metric(g.metric)) == g.metric
  }

  /** Goals that are read back always fit their metrics. */
  lemma ReadGoalsFit(K: Schema, view: GoalView, t: Tree, quotas: Path, goals: seq<GoalConfig>)
    requires GoalsAt(K, view, t, quotas) == Some(goals)
    ensures forall g | g in goals :: GoalFits(g)
  {
    forall g | g in goals ensures GoalFits(g) {
      var n :| 0 <= n < |goals| && goals[n] == g;
      assert GoalAt(K, view, t, quotas, n) == Some(g);
    }
  }

  /** A valid goal that is never read back: user input, for a node. */
  lemma NodeIsNotRead(K: Schema, view: GoalView, t: Tree, quotas: Path)
    ensures var goal := GoalConfig(UserInput, 1, 0, Some(3), None);
            ValidGoals([goal]) && GoalsAt(K, view, t, quotas) != Some([goal])
  {
    var goal := GoalConfig(UserInput, 1, 0, Some(3), None);
    assert goal in [goal] && !GoalFits(goal);
    if GoalsAt(K, view, t, quotas) == Some([goal]) { ReadGoalsFit(K, view, t, quotas, [goal]); }
  }

  /** The leaves staging one goal writes. */
  function GoalPaths(K: Schema, quotas: Path, n: nat, goal: GoalConfig): set<Path> {
    {GoalLeaf(K, quotas, n, "target_metric"), GoalLeaf(K, quotas, n, "target_value"), GoalLeaf(K, quotas, n, "current_value")}
    + (if goal.nodeId.Some? then {GoalLeaf(K, quotas, n, "nid")} else {})
    + (if goal.cgroupPath.Some? then {GoalLeaf(K, quotas, n, "path")} else {})
  }

  /** What staging may change: single leaves, or everything below a directory. */
  datatype Footprint = SomeLeaves(paths: set<Path>) | WholeTree(root: Path) {
    predicate Has(p: Path) {
      match this
      case SomeLeaves(paths) => p in paths
      case WholeTree(root) => root <= p
    }
  }

  /** The leaves of the goals that differ when their number stays; else the whole directory. */
  function GoalFootprint(K: Schema, quotas: Path, goals: seq<GoalConfig>, observed: seq<GoalConfig>): Footprint {
    if |observed| == |goals| then
      SomeLeaves(set n, p | 0 <= n < |goals| && goals[n] != observed[n] && p in GoalPaths(K, quotas, n, goals[n]) :: p)
    else WholeTree(quotas + ["goals"])
  }

  /** The same leaves with the same values outside the footprint, retuned ones apart. */
  ghost predicate FrameKept(foot: Footprint, loose: set<Path>, t: Tree, u: Tree) {
    forall p | !foot.Has(p) :: (p in t <==> p in u) && (p in t && p !in loose ==> t[p] == u[p])
  }

  lemma CalmKeepsFrame(foot: Footprint, loose: set<Path>, t: Tree, u: Tree)
    requires Calm(loose, t, u)
    ensures FrameKept(foot, loose, t, u)
  {
  }

  /** One write inside the footprint. */
  predicate WriteFits(foot: Footprint, p: Path) {
    p != [] && foot.Has(p) && (IsReconstructionCount(p) ==> foot.WholeTree? && foot.root <= Dir(p))
  }

  lemma WriteKeepsFrame(K: Schema, foot: Footprint, t: Tree, p: Path, v: string)
    requires K.Lawful() && Legal(K, t, p, v) && WriteFits(foot, p)
    ensures FrameKept(foot, {}, t, AfterWrite(K, t, p, v))
  {
    var u := AfterWrite(K, t, p, v);
    forall q | !foot.Has(q) ensures (q in t <==> q in u) && (q in t ==> t[q] == u[q]) {
      if K.Rebuilds(p) {
        assert IsReconstructionCount(p);
        assert !(Dir(p) <= q);
        if q in t { SurvivesWrite(K, t, p, v, q); }
      }
    }
  }

  // ---------- staging ----------

  /** Everything the journal gained lies in the footprint. */
  ghost predicate JournalFits(foot: Footprint, before: seq<Path>, after: seq<Path>) {
    before <= after && forall k | |before| <= k < |after| :: foot.Has(after[k])
  }

  /** Where a goal staging began, and what it may change. */
  datatype Stage = Stage(base: Tree, kdamond: nat, foot: Footprint, files: Tree, journal: seq<Path>, active: map<nat, Tree>)

  /** What a goal staging keeps: the journal accounts for every change, all of it inside the footprint. */
  ghost predicate Stays(K: Schema, loose: set<Path>, from: Stage, files: Tree, journal: seq<Path>, active: map<nat, Tree>) {
    && Covered(K, from.base, loose, files, Elements(journal))
    && (forall w | w in journal :: BelowSome(K, {from.kdamond}, w))
    && FrameKept(from.foot, loose, from.files, files)
    && JournalFits(from.foot, from.journal, journal)
    && active == from.active
  }

  ghost predicate Staying(sys: Sysfs, from: Stage)
    reads sys
  {
    sys.exclusive ==> Stays(sys.schema, sys.retuned, from, sys.files, sys.journal, sys.active)
  }

  lemma WroteStays(K: Schema, loose: set<Path>, from: Stage, t: Tree, journal: seq<Path>, active: map<nat, Tree>, p: Path, v: string, u: Tree)
    requires K.Valid() && Stays(K, loose, from, t, journal, active)
    requires Legal(K, t, p, v) && WriteFits(from.foot, p) && KdamondDir(K, from.kdamond) <= p
    requires Calm(loose, AfterWrite(K, t, p, v), u)
    ensures Stays(K, loose, from, u, journal + [p], active)
  {
    assert BelowSome(K, {from.kdamond}, p);
    CoveredNow(K, from.base, loose, t, journal, p, v, u);
    WroteInFrame(K, from.foot, loose, from.files, t, p, v, u);
    JournalGrows(from.foot, from.journal, journal, p);
  }

  lemma DriftStays(K: Schema, loose: set<Path>, from: Stage, t: Tree, journal: seq<Path>, active: map<nat, Tree>, u: Tree)
    requires Stays(K, loose, from, t, journal, active) && Calm(loose, t, u)
    ensures Stays(K, loose, from, u, journal, active)
  {
    CoveredByDrift(K, from.base, loose, t, Elements(journal), u);
    CalmKeepsFrame(from.foot, loose, t, u);
  }

  method GoalWrite(h: ManagedHierarchy, p: Path, v: string, ghost from: Stage, ghost since: seq<Event>) returns (r: Result<()>)
    requires h.Valid() && Staying(h.sys, from) && Uncommanded(since, h.sys.trace)
    requires KdamondDir(h.sys.schema, from.kdamond) <= p && (h.sys.exclusive ==> WriteFits(from.foot, p))
    modifies h.sys
    ensures h.Valid() && Staying(h.sys, from) && Uncommanded(since, h.sys.trace)
    ensures h.sys.exclusive ==> KdamondsKept(h.sys, old(h.sys.files), old(h.sys.threads), h.sys.files, h.sys.threads)
    ensures h.sys.exclusive && r.Ok? ==>
              Legal(h.sys.schema, old(h.sys.files), p, v) && Calm(h.sys.retuned, AfterWrite(h.sys.schema, old(h.sys.files), p, v), h.sys.files)
    ensures h.sys.exclusive && r.Err? ==> Calm(h.sys.retuned, old(h.sys.files), h.sys.files)
    ensures h.sys.steady && Legal(h.sys.schema, old(h.sys.files), p, v) ==> r.Ok?
    ensures r.Err? ==> r.error.IsAccessFailure()
  {
    hide ManagedHierarchy.Valid, Stays, Calm, AfterWrite, Legal, Schema.Valid, WriteFits, Uncommanded, KdamondsKept;
    ghost var K, loose, files, journal, active, before := h.sys.schema, h.sys.retuned, h.sys.files, h.sys.journal, h.sys.active, h.sys.trace;
    ValidKernel(h);
    TopIsElsewhere(K, from.kdamond);
    r := WriteLeaf(h, p, v);
    UncommandedTransitive(since, before, h.sys.trace);
    if h.sys.exclusive {
      if r.Ok? {
        WroteStays(K, loose, from, files, journal, active, p, v, h.sys.files);
      } else {
        DriftStays(K, loose, from, files, journal, active, h.sys.files);
      }
    }
  }

  lemma ValidKernel(h: ManagedHierarchy)
    requires h.Valid()
    ensures h.sys.schema.Valid()
  {
  }

  lemma WroteInFrame(K: Schema, foot: Footprint, loose: set<Path>, t0: Tree, t: Tree, p: Path, v: string, u: Tree)
    requires K.Valid() && FrameKept(foot, loose, t0, t) && Legal(K, t, p, v) && WriteFits(foot, p)
    requires Calm(loose, AfterWrite(K, t, p, v), u)
    ensures FrameKept(foot, loose, t0, u)
  {
    WriteKeepsFrame(K, foot, t, p, v);
  }

  lemma JournalGrows(foot: Footprint, journal0: seq<Path>, journal: seq<Path>, p: Path)
    requires JournalFits(foot, journal0, journal) && WriteFits(foot, p)
    ensures JournalFits(foot, journal0, journal + [p])
  {
  }

  /** Whether a leaf exists. */
  method Exists(sys: Sysfs, p: Path) returns (r: Result<bool>)
    requires sys.Valid()
    modifies sys
    ensures sys.Valid() && sys.Quiet()
    ensures r.Ok? ==> r.value == (p in old(sys.files))
    ensures r.Err? ==> r.error.IsAccessFailure() && !sys.steady
  {
    hide SysfsModel.Sysfs.Valid;
    var failure := sys.Attempt();
    r := if failure.Some? then Err(failure.value) else Ok(p in sys.files);
    sys.Interfere();
  }

  method ReadNumber(sys: Sysfs, p: Path) returns (r: Result<nat>)
    requires sys.Valid()
    modifies sys
    ensures sys.Valid() && sys.Quiet()
    ensures r.Ok? ==> p in old(sys.files) && sys.schema.number(old(sys.files)[p]) == Some(r.value)
    ensures r.Err? ==> r.error.IsAccessFailure() || r.error == InvalidKernelValue
    ensures sys.steady && p in old(sys.files) && sys.schema.number(old(sys.files)[p]).Some? ==> r.Ok?
  {
    hide SysfsModel.Sysfs.Valid;
    var failure := sys.Attempt();
    if failure.Some? {
      r := Err(failure.value);
    } else if p !in sys.files {
      r := Err(Io);
    } else {
      var number := sys.schema.number(sys.files[p]);
      r := if number.None? then Err(InvalidKernelValue) else Ok(number.value);
    }
    sys.Interfere();
  }

  /** The quota directory of some scheme of kdamond `i`. */
  predicate QuotasOf(K: Schema, quotas: Path, i: nat) {
    KdamondDir(K, i) <= quotas
  }

  /** The same leaves with the same values, outside `paths` and apart from intervals. */
  ghost predicate LeavesKept(paths: set<Path>, t: Tree, u: Tree) {
    forall p | p !in paths && !IsIntervalName(p) :: (p in t <==> p in u) && (p in t ==> t[p] == u[p])
  }

  lemma LeavesKeptTransitive(paths: set<Path>, t: Tree, u: Tree, v: Tree)
    requires LeavesKept(paths, t, u) && LeavesKept(paths, u, v)
    ensures LeavesKept(paths, t, v)
  {
  }

  lemma CalmKeepsLeaves(loose: set<Path>, paths: set<Path>, t: Tree, u: Tree)
    requires OnlyIntervals(loose) && Calm(loose, t, u)
    ensures LeavesKept(paths, t, u)
  {
  }

  /** The names of a goal's leaves. */
  predicate IsGoalName(name: Component) {
    name in {"target_metric", "target_value", "current_value", "nid", "path"}
  }

  /** A write to one of a goal's leaves sets that leaf, and no other. */
  lemma GoalLeafWritten(K: Schema, loose: set<Path>, t: Tree, quotas: Path, n: nat, name: Component, v: string, u: Tree)
    requires K.Lawful() && IsGoalName(name) && OnlyIntervals(loose)
    requires Legal(K, t, GoalLeaf(K, quotas, n, name), v) && Calm(loose, AfterWrite(K, t, GoalLeaf(K, quotas, n, name), v), u)
    ensures GoalLeaf(K, quotas, n, name) in t && GoalLeaf(K, quotas, n, name) in u && u[GoalLeaf(K, quotas, n, name)] == v
    ensures LeavesKept({GoalLeaf(K, quotas, n, name)}, t, u)
  {
    GoalLeafIsPlain(K, quotas, n, name);
  }

  lemma GoalLeafIsPlain(K: Schema, quotas: Path, n: nat, name: Component)
    requires K.Lawful() && IsGoalName(name)
    ensures var p := GoalLeaf(K, quotas, n, name);
            p != [] && Name(p) == name && !K.Rebuilds(p) && !IsReconstructionCount(p) && !IsIntervalName(p)
  {
    assert "nr_"[0] == 'n' && "nr_"[1] == 'r' && "nid"[1] == 'i';
  }

  /** What staging one goal leaves of the others, and of their number. */
  lemma OtherGoalsKept(K: Schema, view: GoalView, quotas: Path, n: nat, goal: GoalConfig, t: Tree, u: Tree)
    requires K.Lawful() && LeavesKept(GoalPaths(K, quotas, n, goal), t, u)
    ensures forall m: nat | m != n :: GoalAt(K, view, t, quotas, m) == GoalAt(K, view, u, quotas, m)
    ensures GoalCount(quotas) in t <==> GoalCount(quotas) in u
    ensures GoalCount(quotas) in t ==> t[GoalCount(quotas)] == u[GoalCount(quotas)]
  {
    CountNameIsCount(quotas);
    assert !IsIntervalName(GoalCount(quotas)) by { assert Name(GoalCount(quotas)) == "nr_goals"; }
    assert GoalCount(quotas) !in GoalPaths(K, quotas, n, goal) by { assert |GoalCount(quotas)| == |quotas| + 2; }
    forall m: nat | m != n ensures GoalAt(K, view, t, quotas, m) == GoalAt(K, view, u, quotas, m) {
      forall name | IsGoalName(name) ensures SameLeaf(K, quotas, m, name, t, u) {
        GoalLeafIsPlain(K, quotas, m, name);
        OtherGoalLeaf(K, quotas, m, name, n, goal);
      }
      SameLeavesSameGoal(K, view, quotas, m, t, u);
    }
  }

  ghost predicate SameLeaf(K: Schema, quotas: Path, n: nat, name: Component, t: Tree, u: Tree) {
    var p := GoalLeaf(K, quotas, n, name);
    (p in t <==> p in u) && (p in t ==> t[p] == u[p])
  }

  /** A goal is read from its own leaves. */
  lemma SameLeavesSameGoal(K: Schema, view: GoalView, quotas: Path, n: nat, t: Tree, u: Tree)
    requires forall name | IsGoalName(name) :: SameLeaf(K, quotas, n, name, t, u)
    ensures GoalAt(K, view, t, quotas, n) == GoalAt(K, view, u, quotas, n)
  {
    assert SameLeaf(K, quotas, n, "target_metric", t, u) && SameLeaf(K, quotas, n, "target_value", t, u) && SameLeaf(K, quotas, n, "current_value", t, u);
    assert SameLeaf(K, quotas, n, "nid", t, u) && SameLeaf(K, quotas, n, "path", t, u);
  }

  lemma OtherGoalLeaf(K: Schema, quotas: Path, m: nat, name: Component, n: nat, goal: GoalConfig)
    requires K.Lawful() && m != n
    ensures GoalLeaf(K, quotas, m, name) !in GoalPaths(K, quotas, n, goal)
  {
    assert K.number(K.decimal(m)) != K.number(K.decimal(n));
    forall other: Component ensures GoalLeaf(K, quotas, m, name) != GoalLeaf(K, quotas, n, other) {
      assert GoalLeaf(K, quotas, m, name)[|quotas| + 1] == K.decimal(m) && GoalLeaf(K, quotas, n, other)[|quotas| + 1] == K.decimal(n);
    }
  }

  /** The leaves of goal `n` hold the goal's texts. */
  ghost predicate HoldsGoal(K: Schema, view: GoalView, t: Tree, quotas: Path, n: nat, goal: GoalConfig) {
    && HoldsMetric(K, view, t, quotas, n, goal)
    && HoldsText(K, t, quotas, n, "target_value", K.decimal(goal.targetValue))
    && HoldsText(K, t, quotas, n, "current_value", K.decimal(goal.currentValue))
    && (goal.nodeId.Some? ==> HoldsText(K, t, quotas, n, "nid", view.integer(goal.nodeId.value)))
    && (goal.cgroupPath.Some? ==> HoldsText(K, t, quotas, n, "path", goal.cgroupPath.value))
  }

  ghost predicate HoldsMetric(K: Schema, view: GoalView, t: Tree, quotas: Path, n: nat, goal: GoalConfig) {
    var p := GoalLeaf(K, quotas, n, "target_metric");
    if p in t then t[p] == view.metric(goal.metric) else goal.metric == UserInput
  }

  ghost predicate HoldsText(K: Schema, t: Tree, quotas: Path, n: nat, name: Component, v: string) {
    GoalLeaf(K, quotas, n, name) in t && t[GoalLeaf(K, quotas, n, name)] == v
  }

  /** Texts that were written are read back. */
  lemma HeldIsRead(K: Schema, view: GoalView, t: Tree, quotas: Path, n: nat, goal: GoalConfig)
    requires K.Lawful() && view.Lawful(K) && HoldsGoal(K, view, t, quotas, n, goal) && GoalHolds(view, goal)
    ensures GoalAt(K, view, t, quotas, n) == Some(goal)
  {
    assert MetricAt(K, view, t, quotas, n) == goal.metric;
    if goal.nodeId.Some? {
      var node: int := goal.nodeId.value;
      assert view.parseInteger(view.integer(node)) == Some(node);
    }
    assert K.number(K.decimal(goal.targetValue)) == Some(goal.targetValue) && K.number(K.decimal(goal.currentValue)) == Some(goal.currentValue);
  }

  /** A write to another of the goal's leaves leaves the text alone. */
  lemma TextKept(K: Schema, quotas: Path, n: nat, name: Component, t: Tree, other: Component, u: Tree)
    requires K.Lawful() && IsGoalName(name) && IsGoalName(other) && name != other && LeavesKept({GoalLeaf(K, quotas, n, other)}, t, u)
    ensures GoalLeaf(K, quotas, n, name) in t <==> GoalLeaf(K, quotas, n, name) in u
    ensures GoalLeaf(K, quotas, n, name) in t ==> t[GoalLeaf(K, quotas, n, name)] == u[GoalLeaf(K, quotas, n, name)]
  {
    GoalLeafIsPlain(K, quotas, n, name);
    GoalLeafIsPlain(K, quotas, n, other);
  }

  /** Every leaf staging this goal writes is there. */
  ghost predicate GoalStageable(K: Schema, t: Tree, quotas: Path, n: nat, goal: GoalConfig) {
    && GoalLeaf(K, quotas, n, "target_value") in t && GoalLeaf(K, quotas, n, "current_value") in t
    && (goal.nodeId.Some? ==> GoalLeaf(K, quotas, n, "nid") in t) && (goal.cgroupPath.Some? ==> GoalLeaf(K, quotas, n, "path") in t)
    && (GoalLeaf(K, quotas, n, "target_metric") in t || goal.metric == UserInput)
  }

  lemma StageableKept(K: Schema, quotas: Path, n: nat, goal: GoalConfig, t: Tree, name: Component, u: Tree)
    requires K.Lawful() && IsGoalName(name) && GoalStageable(K, t, quotas, n, goal) && LeavesKept({GoalLeaf(K, quotas, n, name)}, t, u)
    requires GoalLeaf(K, quotas, n, name) in u
    ensures GoalStageable(K, u, quotas, n, goal)
  {
    forall other | IsGoalName(other) && other != name ensures GoalLeaf(K, quotas, n, other) in t <==> GoalLeaf(K, quotas, n, other) in u {
      TextKept(K, quotas, n, other, t, name, u);
    }
  }

  /** The names of a goal's leaves, in the order they are written. */
  function GoalName(k: nat): (name: Component)
    requires k < 5
    ensures IsGoalName(name)
  {
    ["target_metric", "target_value", "current_value", "nid", "path"][k]
  }

  /** What is written to them; the last two are written only if the goal carries them. */
  function GoalText(K: Schema, view: GoalView, goal: GoalConfig, k: nat): Option<string> {
    match k
    case 0 => Some(view.metric(goal.metric))
    case 1 => Some(K.decimal(goal.targetValue))
    case 2 => Some(K.decimal(goal.currentValue))
    case 3 => if goal.nodeId.Some? then Some(view.integer(goal.nodeId.value)) else None
    case 4 => goal.cgroupPath
    case _ => None
  }

  /** The first `count` texts are in place. */
  ghost predicate HoldsPart(K: Schema, view: GoalView, t: Tree, quotas: Path, n: nat, goal: GoalConfig, count: nat) {
    && HoldsMetric(K, view, t, quotas, n, goal)
    && forall k | 1 <= k < count && k < 5 && GoalText(K, view, goal, k).Some? :: HoldsText(K, t, quotas, n, GoalName(k), GoalText(K, view, goal, k).value)
  }

  lemma PartGrows(K: Schema, view: GoalView, quotas: Path, n: nat, goal: GoalConfig, k: nat, t: Tree, u: Tree)
    requires K.Lawful() && 1 <= k < 5 && GoalText(K, view, goal, k).Some? && HoldsPart(K, view, t, quotas, n, goal, k)
    requires LeavesKept({GoalLeaf(K, quotas, n, GoalName(k))}, t, u)
    ensures LeavesKept(GoalPaths(K, quotas, n, goal), t, u)
    ensures HoldsText(K, u, quotas, n, GoalName(k), GoalText(K, view, goal, k).value) ==> HoldsPart(K, view, u, quotas, n, goal, k + 1)
    ensures GoalStageable(K, t, quotas, n, goal) && GoalLeaf(K, quotas, n, GoalName(k)) in u ==> GoalStageable(K, u, quotas, n, goal)
  {
    assert GoalLeaf(K, quotas, n, GoalName(k)) in GoalPaths(K, quotas, n, goal);
    forall j | 0 <= j < 5 && j != k
      ensures GoalLeaf(K, quotas, n, GoalName(j)) in t <==> GoalLeaf(K, quotas, n, GoalName(j)) in u
      ensures GoalLeaf(K, quotas, n, GoalName(j)) in t ==> t[GoalLeaf(K, quotas, n, GoalName(j))] == u[GoalLeaf(K, quotas, n, GoalName(j))]
    {
      NamesDiffer(j, k);
      TextKept(K, quotas, n, GoalName(j), t, GoalName(k), u);
    }
    assert GoalName(0) == "target_metric";
    if GoalStageable(K, t, quotas, n, goal) && GoalLeaf(K, quotas, n, GoalName(k)) in u { StageableKept(K, quotas, n, goal, t, GoalName(k), u); }
  }

  lemma NamesDiffer(j: nat, k: nat)
    requires j < 5 && k < 5 && j != k
    ensures GoalName(j) != GoalName(k)
  {
    assert "target_metric"[7] == 'm' && "target_value"[7] == 'v' && "current_value"[0] == 'c' && "nid"[0] == 'n' && "path"[0] == 'p';
  }

  lemma AllPartsHold(K: Schema, view: GoalView, t: Tree, quotas: Path, n: nat, goal: GoalConfig)
    requires HoldsPart(K, view, t, quotas, n, goal, 5)
    ensures HoldsGoal(K, view, t, quotas, n, goal)
  {
    assert GoalName(1) == "target_value" && GoalName(2) == "current_value" && GoalName(3) == "nid" && GoalName(4) == "path";
    assert HoldsText(K, t, quotas, n, GoalName(1), GoalText(K, view, goal, 1).value);
    assert HoldsText(K, t, quotas, n, GoalName(2), GoalText(K, view, goal, 2).value);
    assert goal.nodeId.Some? ==> HoldsText(K, t, quotas, n, GoalName(3), GoalText(K, view, goal, 3).value);
    assert goal.cgroupPath.Some? ==> HoldsText(K, t, quotas, n, GoalName(4), GoalText(K, view, goal, 4).value);
  }

  lemma PartSkips(K: Schema, view: GoalView, t: Tree, quotas: Path, n: nat, goal: GoalConfig, k: nat)
    requires HoldsPart(K, view, t, quotas, n, goal, k) && k < 5 && GoalText(K, view, goal, k).None?
    ensures HoldsPart(K, view, t, quotas, n, goal, k + 1)
  {
  }

  /** The leaf is there if the goal can be staged. */
  lemma StageableHas(K: Schema, view: GoalView, t: Tree, quotas: Path, n: nat, goal: GoalConfig, k: nat)
    requires GoalStageable(K, t, quotas, n, goal) && 1 <= k < 5 && GoalText(K, view, goal, k).Some?
    ensures GoalLeaf(K, quotas, n, GoalName(k)) in t
  {
  }

  /** What staging a goal has kept so far. */
  ghost predicate GoalFrame(sys: Sysfs, quotas: Path, n: nat, goal: GoalConfig, t0: Tree, threads0: map<nat, Thread>)
    reads sys
  {
    sys.exclusive ==>
      KdamondsKept(sys, t0, threads0, sys.files, sys.threads) && LeavesKept(GoalPaths(sys.schema, quotas, n, goal), t0, sys.files)
  }

  lemma FrameGrows(sys: Sysfs, quotas: Path, n: nat, goal: GoalConfig, t0: Tree, threads0: map<nat, Thread>, t: Tree, threads: map<nat, Thread>)
    requires sys.exclusive ==> KdamondsKept(sys, t0, threads0, t, threads) && LeavesKept(GoalPaths(sys.schema, quotas, n, goal), t0, t)
    requires sys.exclusive ==> KdamondsKept(sys, t, threads, sys.files, sys.threads) && LeavesKept(GoalPaths(sys.schema, quotas, n, goal), t, sys.files)
    ensures GoalFrame(sys, quotas, n, goal, t0, threads0)
  {
    if sys.exclusive {
      KdamondsKeptTransitive(sys, t0, threads0, t, threads, sys.files, sys.threads);
      LeavesKeptTransitive(GoalPaths(sys.schema, quotas, n, goal), t0, t, sys.files);
    }
  }

  /** What has been staged of the goal, and whether the rest still can be. */
  ghost predicate GoalProgress(sys: Sysfs, view: GoalView, quotas: Path, n: nat, goal: GoalConfig, count: nat, stageable: bool)
    reads sys
  {
    sys.exclusive ==> HoldsPart(sys.schema, view, sys.files, quotas, n, goal, count) && (stageable ==> GoalStageable(sys.schema, sys.files, quotas, n, goal))
  }

  /** One leaf of a goal. */
  method StageGoalLeaf(h: ManagedHierarchy, quotas: Path, n: nat, name: Component, v: string, ghost from: Stage, ghost since: seq<Event>)
    returns (r: Result<()>)
    requires h.Valid() && Staying(h.sys, from) && QuotasOf(h.sys.schema, quotas, from.kdamond) && Uncommanded(since, h.sys.trace)
    requires IsGoalName(name) && WriteFits(from.foot, GoalLeaf(h.sys.schema, quotas, n, name))
    modifies h.sys
    ensures h.Valid() && Staying(h.sys, from) && Uncommanded(since, h.sys.trace)
    ensures h.sys.exclusive ==> KdamondsKept(h.sys, old(h.sys.files), old(h.sys.threads), h.sys.files, h.sys.threads)
    ensures h.sys.exclusive ==> LeavesKept({GoalLeaf(h.sys.schema, quotas, n, name)}, old(h.sys.files), h.sys.files)
    ensures h.sys.exclusive && r.Ok? ==> HoldsText(h.sys.schema, h.sys.files, quotas, n, name, v)
    ensures h.sys.steady && GoalLeaf(h.sys.schema, quotas, n, name) in old(h.sys.files) ==> r.Ok?
    ensures r.Err? ==> r.error.IsAccessFailure()
  {
    hide ManagedHierarchy.Valid, Staying, Calm, AfterWrite, Schema.Lawful, OnlyIntervals, WriteFits, Uncommanded,
         KdamondsKept, LeavesKept;
    ghost var t, loose, K := h.sys.files, h.sys.retuned, h.sys.schema;
    LawfulHierarchy(h);
    GoalLeafIsPlain(K, quotas, n, name);
    r := GoalWrite(h, GoalLeaf(h.sys.schema, quotas, n, name), v, from, since);
    if h.sys.exclusive {
      if r.Ok? {
        GoalLeafWritten(K, loose, t, quotas, n, name, v, h.sys.files);
      } else {
        CalmKeepsLeaves(loose, {GoalLeaf(K, quotas, n, name)}, t, h.sys.files);
      }
    }
  }

  lemma LawfulHierarchy(h: ManagedHierarchy)
    requires h.Valid()
    ensures h.sys.schema.Lawful() && OnlyIntervals(h.sys.retuned)
  {
  }

  /** The next text of a goal. */
  method StageText(h: ManagedHierarchy, view: GoalView, quotas: Path, n: nat, goal: GoalConfig, k: nat, ghost stageable: bool, ghost t0: Tree, ghost threads0: map<nat, Thread>,
                   ghost from: Stage, ghost since: seq<Event>) returns (r: Result<()>)
    requires h.Valid() && Staying(h.sys, from) && QuotasOf(h.sys.schema, quotas, from.kdamond) && Uncommanded(since, h.sys.trace)
    requires 1 <= k < 5 && GoalText(h.sys.schema, view, goal, k).Some? && WriteFits(from.foot, GoalLeaf(h.sys.schema, quotas, n, GoalName(k)))
    requires GoalFrame(h.sys, quotas, n, goal, t0, threads0) && GoalProgress(h.sys, view, quotas, n, goal, k, stageable)
    modifies h.sys
    ensures h.Valid() && Staying(h.sys, from) && Uncommanded(since, h.sys.trace)
    ensures GoalFrame(h.sys, quotas, n, goal, t0, threads0)
    ensures r.Ok? ==> GoalProgress(h.sys, view, quotas, n, goal, k + 1, stageable)
    ensures h.sys.exclusive && h.sys.steady && stageable ==> r.Ok?
    ensures r.Err? ==> r.error.IsAccessFailure()
  {
    hide ManagedHierarchy.Valid, Staying, WriteFits, Uncommanded, KdamondsKept, LeavesKept, HoldsPart, GoalStageable,
         Schema.Lawful, OnlyIntervals, GoalPaths, GoalText, GoalName;
    LawfulHierarchy(h);
    ghost var t, threads := h.sys.files, h.sys.threads;
    if h.sys.exclusive && stageable { StageableHas(h.sys.schema, view, t, quotas, n, goal, k); }
    r := StageGoalLeaf(h, quotas, n, GoalName(k), GoalText(h.sys.schema, view, goal, k).value, from, since);
    if h.sys.exclusive {
      PartGrows(h.sys.schema, view, quotas, n, goal, k, t, h.sys.files);
      if r.Ok? { HeldIsThere(h.sys.schema, h.sys.files, quotas, n, GoalName(k), GoalText(h.sys.schema, view, goal, k).value); }
    }
    FrameGrows(h.sys, quotas, n, goal, t0, threads0, t, threads);
  }

  lemma HeldIsThere(K: Schema, t: Tree, quotas: Path, n: nat, name: Component, v: string)
    requires HoldsText(K, t, quotas, n, name, v)
    ensures GoalLeaf(K, quotas, n, name) in t
  {
  }

  /** The metric, if the kernel has one. */
  method StageMetric(h: ManagedHierarchy, view: GoalView, quotas: Path, n: nat, goal: GoalConfig, ghost from: Stage, ghost since: seq<Event>)
    returns (r: Result<()>)
    requires h.Valid() && Staying(h.sys, from) && QuotasOf(h.sys.schema, quotas, from.kdamond) && Uncommanded(since, h.sys.trace)
    requires WriteFits(from.foot, GoalLeaf(h.sys.schema, quotas, n, "target_metric"))
    modifies h.sys
    ensures h.Valid() && Staying(h.sys, from) && Uncommanded(since, h.sys.trace)
    ensures GoalFrame(h.sys, quotas, n, goal, old(h.sys.files), old(h.sys.threads))
    ensures r.Ok? ==> GoalProgress(h.sys, view, quotas, n, goal, 1, GoalStageable(h.sys.schema, old(h.sys.files), quotas, n, goal))
    ensures h.sys.exclusive && h.sys.steady && GoalStageable(h.sys.schema, old(h.sys.files), quotas, n, goal) ==> r.Ok?
    ensures r.Err? ==> r.error.IsAccessFailure() || r.error == UnsupportedFeature
  {
    hide ManagedHierarchy.Valid, Staying, WriteFits, Uncommanded, KdamondsKept, LeavesKept, GoalStageable,
         Schema.Lawful, OnlyIntervals, Calm, GoalPaths, HoldsMetric, HoldsText;
    ghost var K, t0, threads0, paths := h.sys.schema, h.sys.files, h.sys.threads, GoalPaths(h.sys.schema, quotas, n, goal);
    LawfulHierarchy(h);
    var hasMetric := Look(h, GoalLeaf(h.sys.schema, quotas, n, "target_metric"), from);
    ghost var t1, threads1 := h.sys.files, h.sys.threads;
    if h.sys.exclusive {
      LookedGoals(h, quotas, t0, threads0);
      CalmKeepsLeaves(h.sys.retuned, paths, t0, t1);
      CalmKeepsGoal(K, h.sys.retuned, quotas, n, goal, t0, t1);
    }
    if hasMetric.Err? { return Err(hasMetric.error); }
    if !hasMetric.value {
      if h.sys.exclusive { MetricAbsent(K, view, t1, quotas, n, goal); }
      return if goal.metric != UserInput then Err(UnsupportedFeature) else Ok(());
    }
    r := StageGoalLeaf(h, quotas, n, "target_metric", view.metric(goal.metric), from, since);
    if h.sys.exclusive {
      OneLeafKept(K, quotas, n, goal, t1, h.sys.files);
      if r.Ok? {
        MetricHeld(K, view, h.sys.files, quotas, n, goal);
        if GoalStageable(K, t1, quotas, n, goal) { StageableKept(K, quotas, n, goal, t1, "target_metric", h.sys.files); }
      }
    }
    FrameGrows(h.sys, quotas, n, goal, t0, threads0, t1, threads1);
  }

  lemma MetricAbsent(K: Schema, view: GoalView, t: Tree, quotas: Path, n: nat, goal: GoalConfig)
    requires GoalLeaf(K, quotas, n, "target_metric") !in t
    ensures goal.metric == UserInput ==> HoldsMetric(K, view, t, quotas, n, goal)
    ensures GoalStageable(K, t, quotas, n, goal) ==> goal.metric == UserInput
  {
  }

  lemma MetricHeld(K: Schema, view: GoalView, t: Tree, quotas: Path, n: nat, goal: GoalConfig)
    requires HoldsText(K, t, quotas, n, "target_metric", view.metric(goal.metric))
    ensures GoalLeaf(K, quotas, n, "target_metric") in t && HoldsMetric(K, view, t, quotas, n, goal)
  {
  }

  lemma OneLeafKept(K: Schema, quotas: Path, n: nat, goal: GoalConfig, t: Tree, u: Tree)
    requires LeavesKept({GoalLeaf(K, quotas, n, "target_metric")}, t, u)
    ensures LeavesKept(GoalPaths(K, quotas, n, goal), t, u)
  {
  }

  lemma CalmKeepsGoal(K: Schema, loose: set<Path>, quotas: Path, n: nat, goal: GoalConfig, t: Tree, u: Tree)
    requires K.Lawful() && OnlyIntervals(loose) && Calm(loose, t, u)
    ensures GoalStageable(K, t, quotas, n, goal) <==> GoalStageable(K, u, quotas, n, goal)
    ensures GoalLeaf(K, quotas, n, "target_metric") in t <==> GoalLeaf(K, quotas, n, "target_metric") in u
  {
  }

  /** One goal: its metric if the kernel has one, its values, and the payload it carries. */
  method StageGoal(h: ManagedHierarchy, view: GoalView, quotas: Path, n: nat, goal: GoalConfig, ghost from: Stage, ghost since: seq<Event>)
    returns (r: Result<()>)
    requires h.Valid() && Staying(h.sys, from) && QuotasOf(h.sys.schema, quotas, from.kdamond) && Uncommanded(since, h.sys.trace) && view.Lawful(h.sys.schema)
    requires forall p | p in GoalPaths(h.sys.schema, quotas, n, goal) :: WriteFits(from.foot, p)
    modifies h.sys
    ensures h.Valid() && Staying(h.sys, from) && Uncommanded(since, h.sys.trace)
    ensures h.sys.exclusive ==> KdamondsKept(h.sys, old(h.sys.files), old(h.sys.threads), h.sys.files, h.sys.threads)
    ensures h.sys.exclusive ==> LeavesKept(GoalPaths(h.sys.schema, quotas, n, goal), old(h.sys.files), h.sys.files)
    ensures h.sys.exclusive && r.Ok? && GoalHolds(view, goal) ==> GoalAt(h.sys.schema, view, h.sys.files, quotas, n) == Some(goal)
    ensures h.sys.exclusive && h.sys.steady && GoalStageable(h.sys.schema, old(h.sys.files), quotas, n, goal) ==> r.Ok?
    ensures r.Err? ==> r.error.IsAccessFailure() || r.error == UnsupportedFeature
  {
    hide ManagedHierarchy.Valid, Staying, WriteFits, Uncommanded, KdamondsKept, LeavesKept, HoldsPart, GoalAt,
         GoalHolds, GoalView.Lawful, Schema.Lawful, GoalStageable, OnlyIntervals, GoalPaths, GoalProgress, GoalName;
    ghost var K, t0, threads0 := h.sys.schema, h.sys.files, h.sys.threads;
    ghost var stageable := GoalStageable(K, t0, quotas, n, goal);
    LawfulHierarchy(h);
    GoalTextsFit(K, view, quotas, n, goal, from.foot);
    r := StageMetric(h, view, quotas, n, goal, from, since);
    if r.Err? { return; }
    r := StageText(h, view, quotas, n, goal, 1, stageable, t0, threads0, from, since);
    if r.Err? { return; }
    r := StageText(h, view, quotas, n, goal, 2, stageable, t0, threads0, from, since);
    if r.Err? { return; }
    if goal.nodeId.Some? {
      r := StageText(h, view, quotas, n, goal, 3, stageable, t0, threads0, from, since);
      if r.Err? { return; }
    } else {
      ProgressSkips(h.sys, view, quotas, n, goal, 3, stageable);
    }
    if goal.cgroupPath.Some? {
      r := StageText(h, view, quotas, n, goal, 4, stageable, t0, threads0, from, since);
      if r.Err? { return; }
    } else {
      ProgressSkips(h.sys, view, quotas, n, goal, 4, stageable);
    }
    if h.sys.exclusive && GoalHolds(view, goal) { ProgressIsRead(h.sys, view, quotas, n, goal, stageable); }
    r := Ok(());
  }

  lemma ProgressSkips(sys: Sysfs, view: GoalView, quotas: Path, n: nat, goal: GoalConfig, k: nat, stageable: bool)
    requires GoalProgress(sys, view, quotas, n, goal, k, stageable) && k < 5 && GoalText(sys.schema, view, goal, k).None?
    ensures GoalProgress(sys, view, quotas, n, goal, k + 1, stageable)
  {
    if sys.exclusive { PartSkips(sys.schema, view, sys.files, quotas, n, goal, k); }
  }

  lemma ProgressIsRead(sys: Sysfs, view: GoalView, quotas: Path, n: nat, goal: GoalConfig, stageable: bool)
    requires sys.schema.Lawful() && view.Lawful(sys.schema) && sys.exclusive && GoalHolds(view, goal)
    requires GoalProgress(sys, view, quotas, n, goal, 5, stageable)
    ensures GoalAt(sys.schema, view, sys.files, quotas, n) == Some(goal)
  {
    AllPartsHold(sys.schema, view, sys.files, quotas, n, goal);
    HeldIsRead(sys.schema, view, sys.files, quotas, n, goal);
  }

  lemma GoalTextsFit(K: Schema, view: GoalView, quotas: Path, n: nat, goal: GoalConfig, foot: Footprint)
    requires forall p | p in GoalPaths(K, quotas, n, goal) :: WriteFits(foot, p)
    ensures WriteFits(foot, GoalLeaf(K, quotas, n, "target_metric"))
    ensures forall k | 1 <= k < 5 && GoalText(K, view, goal, k).Some? :: WriteFits(foot, GoalLeaf(K, quotas, n, GoalName(k)))
  {
    forall k | 1 <= k < 5 && GoalText(K, view, goal, k).Some? ensures GoalLeaf(K, quotas, n, GoalName(k)) in GoalPaths(K, quotas, n, goal) {
      assert GoalName(1) == "target_value" && GoalName(2) == "current_value" && GoalName(3) == "nid" && GoalName(4) == "path";
    }
  }

  method Look(h: ManagedHierarchy, p: Path, ghost from: Stage) returns (r: Result<bool>)
    requires h.Valid() && Staying(h.sys, from)
    modifies h.sys
    ensures h.Valid() && Staying(h.sys, from) && h.sys.trace == old(h.sys.trace)
    ensures r.Ok? ==> r.value == (p in old(h.sys.files))
    ensures h.sys.exclusive ==> Calm(h.sys.retuned, old(h.sys.files), h.sys.files)
    ensures h.sys.steady ==> h.sys.threads == old(h.sys.threads)
    ensures r.Err? ==> r.error.IsAccessFailure() && !h.sys.steady
  {
    hide SysfsModel.Sysfs.Valid, IsCapture, RunInvariant, Sorted, Stays;
    ghost var t := h.sys.files;
    r := Exists(h.sys, p);
    if h.sys.exclusive { DriftStays(h.sys.schema, h.sys.retuned, from, t, h.sys.journal, h.sys.active, h.sys.files); }
  }

  method LookUpNumber(h: ManagedHierarchy, p: Path, ghost from: Stage) returns (r: Result<nat>)
    requires h.Valid() && Staying(h.sys, from)
    modifies h.sys
    ensures h.Valid() && Staying(h.sys, from) && h.sys.trace == old(h.sys.trace)
    ensures r.Ok? ==> p in old(h.sys.files) && h.sys.schema.number(old(h.sys.files)[p]) == Some(r.value)
    ensures h.sys.exclusive ==> Calm(h.sys.retuned, old(h.sys.files), h.sys.files)
    ensures h.sys.steady ==> h.sys.threads == old(h.sys.threads)
    ensures r.Err? ==> r.error.IsAccessFailure() || r.error == InvalidKernelValue
    ensures h.sys.steady && p in old(h.sys.files) && h.sys.schema.number(old(h.sys.files)[p]).Some? ==> r.Ok?
  {
    hide SysfsModel.Sysfs.Valid, IsCapture, RunInvariant, Sorted, Stays;
    ghost var t := h.sys.files;
    r := ReadNumber(h.sys, p);
    if h.sys.exclusive { DriftStays(h.sys.schema, h.sys.retuned, from, t, h.sys.journal, h.sys.active, h.sys.files); }
  }

  /** The count file says how many goals were observed. */
  ghost predicate CountsFor(K: Schema, quotas: Path, observed: seq<GoalConfig>, t: Tree) {
    GoalCount(quotas) in t ==> K.number(t[GoalCount(quotas)]) == Some(|observed|)
  }

  /** Every leaf goal staging may write is one the footprint allows. */
  lemma GoalLeavesFit(K: Schema, quotas: Path, goals: seq<GoalConfig>, observed: seq<GoalConfig>, n: nat)
    requires n < |goals| && (|observed| == |goals| ==> goals[n] != observed[n])
    ensures forall p | p in GoalPaths(K, quotas, n, goals[n]) :: WriteFits(GoalFootprint(K, quotas, goals, observed), p)
  {
    forall p | p in GoalPaths(K, quotas, n, goals[n]) ensures WriteFits(GoalFootprint(K, quotas, goals, observed), p) {
      assert Name(p) in {"target_metric", "target_value", "current_value", "nid", "path"};
      assert "nr_"[0] == 'n' && "nr_"[1] == 'r';
      assert quotas + ["goals"] <= p;
    }
  }

  /** While the number of goals stays, its count file is outside the footprint. */
  lemma CountOutsideFootprint(K: Schema, quotas: Path, goals: seq<GoalConfig>, observed: seq<GoalConfig>)
    requires |observed| == |goals|
    ensures !GoalFootprint(K, quotas, goals, observed).Has(GoalCount(quotas))
  {
  }

  lemma CountStays(sys: Sysfs, quotas: Path, goals: seq<GoalConfig>, observed: seq<GoalConfig>, from: Stage)
    requires sys.Valid() && Staying(sys, from) && sys.exclusive && |observed| == |goals|
    requires from.foot == GoalFootprint(sys.schema, quotas, goals, observed) && CountsFor(sys.schema, quotas, observed, from.files)
    ensures CountsFor(sys.schema, quotas, observed, sys.files)
  {
    CountOutsideFootprint(sys.schema, quotas, goals, observed);
    CountNameIsCount(quotas);
  }

  lemma CountNameIsCount(quotas: Path)
    ensures IsReconstructionCount(GoalCount(quotas)) && Dir(GoalCount(quotas)) == quotas + ["goals"]
  {
  }

  lemma GoalsCounted(K: Schema, view: GoalView, t: Tree, quotas: Path, goals: seq<GoalConfig>)
    requires GoalsAt(K, view, t, quotas) == Some(goals)
    ensures CountsFor(K, quotas, goals, t)
  {
  }

  /** The count file says how many goals there are to be. */
  ghost predicate CountIs(K: Schema, quotas: Path, count: nat, t: Tree) {
    GoalCount(quotas) in t && K.number(t[GoalCount(quotas)]) == Some(count)
  }

  predicate AllHold(view: GoalView, goals: seq<GoalConfig>) {
    forall g | g in goals :: GoalHolds(view, g)
  }

  /** This kernel gives each of the goals the leaves it needs. */
  ghost predicate GoalsSupported(K: Schema, quotas: Path, goals: seq<GoalConfig>) {
    K.Rebuilds(GoalCount(quotas)) && forall n | 0 <= n < |goals| :: GoalSupported(K, quotas, n, goals[n])
  }

  ghost predicate GoalSupported(K: Schema, quotas: Path, n: nat, goal: GoalConfig) {
    var leaves := K.children(GoalCount(quotas), n);
    && ["target_value"] in leaves && ["current_value"] in leaves
    && (goal.nodeId.Some? ==> ["nid"] in leaves) && (goal.cgroupPath.Some? ==> ["path"] in leaves)
    && (["target_metric"] in leaves || goal.metric == UserInput)
  }

  lemma SupportedIsCounted(K: Schema, quotas: Path, goals: seq<GoalConfig>)
    requires GoalsSupported(K, quotas, goals)
    ensures K.Rebuilds(GoalCount(quotas))
  {
  }

  lemma SupportedIsStageable(K: Schema, t: Tree, quotas: Path, goals: seq<GoalConfig>, n: nat)
    requires Consistent(K, t) && GoalsSupported(K, quotas, goals) && CountIs(K, quotas, |goals|, t) && n < |goals|
    ensures GoalStageable(K, t, quotas, n, goals[n])
  {
    var c := GoalCount(quotas);
    CountNameIsCount(quotas);
    assert GoalSupported(K, quotas, n, goals[n]) && Complete(K, t, c) && CountOf(K, t, c) == |goals|;
    forall name: Component | [name] in K.children(c, n) ensures GoalLeaf(K, quotas, n, name) in t {
      assert K.Child(c, n, [name]) == GoalLeaf(K, quotas, n, name);
    }
  }

  /** A goal observed to be as requested is not touched. */
  lemma ObservedGoalKept(sys: Sysfs, view: GoalView, quotas: Path, goals: seq<GoalConfig>, observed: seq<GoalConfig>, from: Stage, n: nat)
    requires sys.Valid() && Staying(sys, from) && sys.exclusive && n < |goals| == |observed| && goals[n] == observed[n]
    requires from.foot == GoalFootprint(sys.schema, quotas, goals, observed) && GoalsAt(sys.schema, view, from.files, quotas) == Some(observed)
    requires GoalCount(quotas) in from.files
    ensures GoalAt(sys.schema, view, sys.files, quotas, n) == Some(goals[n])
  {
    var K := sys.schema;
    forall name | IsGoalName(name) ensures SameLeaf(K, quotas, n, name, from.files, sys.files) {
      GoalLeafIsPlain(K, quotas, n, name);
      forall m, p | 0 <= m < |goals| && goals[m] != observed[m] && p in GoalPaths(K, quotas, m, goals[m]) ensures p != GoalLeaf(K, quotas, n, name) {
        OtherGoalLeaf(K, quotas, n, name, m, goals[m]);
      }
    }
    SameLeavesSameGoal(K, view, quotas, n, from.files, sys.files);
  }

  /** Goals are not read from leaves the kernel retunes. */
  lemma GoalsReadAlike(K: Schema, view: GoalView, loose: set<Path>, quotas: Path, t: Tree, u: Tree)
    requires K.Lawful() && OnlyIntervals(loose) && Calm(loose, t, u)
    ensures GoalsAt(K, view, t, quotas) == GoalsAt(K, view, u, quotas)
  {
    CountNameIsCount(quotas);
    assert !IsIntervalName(GoalCount(quotas)) by { assert Name(GoalCount(quotas)) == "nr_goals"; }
    forall n: nat ensures GoalAt(K, view, t, quotas, n) == GoalAt(K, view, u, quotas, n) {
      forall name | IsGoalName(name) ensures SameLeaf(K, quotas, n, name, t, u) { GoalLeafIsPlain(K, quotas, n, name); }
      SameLeavesSameGoal(K, view, quotas, n, t, u);
    }
    if GoalCount(quotas) in t && K.number(t[GoalCount(quotas)]).Some? { SameGoalsFrom(K, view, quotas, K.number(t[GoalCount(quotas)]).value, t, u); }
  }

  lemma SameGoalsFrom(K: Schema, view: GoalView, quotas: Path, count: nat, t: Tree, u: Tree)
    requires forall n: nat :: GoalAt(K, view, t, quotas, n) == GoalAt(K, view, u, quotas, n)
    ensures GoalsFrom(K, view, t, quotas, count) == GoalsFrom(K, view, u, quotas, count)
  {
  }

  /** `stage_goals_from`: writes goals that differ, and all of them when their number changes.
      Every path written lies in the footprint. Undisturbed, the goals are then read as
      requested if each fits its metric, and where the kernel has their leaves only an
      access can fail. */
  method StageGoals(h: ManagedHierarchy, view: GoalView, quotas: Path, goals: seq<GoalConfig>, observed: seq<GoalConfig>, ghost from: Stage, ghost since: seq<Event>)
    returns (r: Result<()>)
    requires h.Valid() && Staying(h.sys, from) && QuotasOf(h.sys.schema, quotas, from.kdamond) && Uncommanded(since, h.sys.trace)
    requires from.foot == GoalFootprint(h.sys.schema, quotas, goals, observed) && view.Lawful(h.sys.schema)
    requires h.sys.exclusive ==> GoalsAt(h.sys.schema, view, from.files, quotas) == Some(observed)
    modifies h.sys
    ensures h.Valid() && Staying(h.sys, from) && Uncommanded(since, h.sys.trace)
    ensures h.sys.exclusive ==> KdamondsKept(h.sys, old(h.sys.files), old(h.sys.threads), h.sys.files, h.sys.threads)
    ensures h.sys.exclusive && r.Ok? && AllHold(view, goals) ==> GoalsAt(h.sys.schema, view, h.sys.files, quotas) == Some(goals)
    ensures (h.sys.exclusive && h.sys.steady && ValidGoals(goals) && GoalsSupported(h.sys.schema, quotas, goals)
             && GoalCount(quotas) in old(h.sys.files)) ==> r.Ok?
    ensures r.Err? ==> !r.error.Rollback? && r.error.ClearsValues()
  {
    hide ManagedHierarchy.Valid, Staying, Uncommanded, GoalFootprint, GoalPaths, ValidGoals, KdamondsKept,
         GoalView.Lawful, GoalsSupported, AllHold, Calm;
    ghost var t0, threads0 := h.sys.files, h.sys.threads;
    NothingChanges(h.sys);
    if !ValidGoals(goals) { return Err(InvalidConfiguration); }
    if observed == goals {
      if h.sys.exclusive { AllObserved(h, view, quotas, goals, from); }
      return Ok(());
    }
    var countPath := GoalCount(quotas);
    var hasGoals := Look(h, countPath, from);
    ghost var t1, threads1 := h.sys.files, h.sys.threads;
    if h.sys.exclusive { LookedGoals(h, quotas, t0, threads0); }
    if hasGoals.Err? { return Err(hasGoals.error); }
    if !hasGoals.value {
      return if goals == [] then Ok(()) else Err(UnsupportedFeature);
    }
    if GoalsSupported(h.sys.schema, quotas, goals) { SupportedIsCounted(h.sys.schema, quotas, goals); }
    r := EnsureGoalCount(h, view, quotas, goals, observed, from, since);
    ghost var t2, threads2 := h.sys.files, h.sys.threads;
    if h.sys.exclusive { KdamondsKeptTransitive(h.sys, t0, threads0, t1, threads1, t2, threads2); }
    if r.Err? { return; }
    r := StageEach(h, view, quotas, goals, observed, from, since);
    if h.sys.exclusive { KdamondsKeptTransitive(h.sys, t0, threads0, t2, threads2, h.sys.files, h.sys.threads); }
  }

  lemma AllObserved(h: ManagedHierarchy, view: GoalView, quotas: Path, goals: seq<GoalConfig>, from: Stage)
    requires h.Valid() && Staying(h.sys, from) && h.sys.exclusive
    requires from.foot == GoalFootprint(h.sys.schema, quotas, goals, goals) && GoalsAt(h.sys.schema, view, from.files, quotas) == Some(goals)
    ensures GoalsAt(h.sys.schema, view, h.sys.files, quotas) == Some(goals)
  {
    var K := h.sys.schema;
    GoalsCounted(K, view, from.files, quotas, goals);
    CountStays(h.sys, quotas, goals, goals, from);
    CountPresence(h.sys, quotas, goals, goals, from);
    hide ManagedHierarchy.Valid, SysfsModel.Sysfs.Valid, Staying, GoalFootprint, GoalAt;
    if GoalCount(quotas) in from.files {
      forall n | 0 <= n < |goals| ensures GoalAt(K, view, h.sys.files, quotas, n) == Some(goals[n]) {
        assert h.sys.Valid() by { assert h.Valid(); }
        ObservedGoalKept(h.sys, view, quotas, goals, goals, from, n);
      }
      GoalsAre(K, view, h.sys.files, quotas, goals);
    }
  }

  lemma CountPresence(sys: Sysfs, quotas: Path, goals: seq<GoalConfig>, observed: seq<GoalConfig>, from: Stage)
    requires sys.Valid() && Staying(sys, from) && sys.exclusive && |observed| == |goals|
    requires from.foot == GoalFootprint(sys.schema, quotas, goals, observed)
    ensures GoalCount(quotas) in from.files <==> GoalCount(quotas) in sys.files
  {
    CountOutsideFootprint(sys.schema, quotas, goals, observed);
  }

  lemma LookedGoals(h: ManagedHierarchy, quotas: Path, t0: Tree, threads0: map<nat, Thread>)
    requires h.Valid() && Calm(h.sys.retuned, t0, h.sys.files) && (h.sys.steady ==> h.sys.threads == threads0)
    ensures KdamondsKept(h.sys, t0, threads0, h.sys.files, h.sys.threads)
    ensures GoalCount(quotas) in t0 <==> GoalCount(quotas) in h.sys.files
    ensures GoalCount(quotas) in t0 ==> t0[GoalCount(quotas)] == h.sys.files[GoalCount(quotas)]
  {
    DriftKeepsKdamonds(h.sys, t0, threads0);
    CountNameIsCount(quotas);
    assert forall p | p in h.sys.retuned :: !IsReconstructionCount(p);
  }

  /** One goal after another. */
  method StageEach(h: ManagedHierarchy, view: GoalView, quotas: Path, goals: seq<GoalConfig>, observed: seq<GoalConfig>, ghost from: Stage, ghost since: seq<Event>)
    returns (r: Result<()>)
    requires h.Valid() && Staying(h.sys, from) && QuotasOf(h.sys.schema, quotas, from.kdamond) && Uncommanded(since, h.sys.trace)
    requires from.foot == GoalFootprint(h.sys.schema, quotas, goals, observed) && view.Lawful(h.sys.schema)
    requires h.sys.exclusive ==> GoalsAt(h.sys.schema, view, from.files, quotas) == Some(observed) && CountIs(h.sys.schema, quotas, |goals|, h.sys.files)
    modifies h.sys
    ensures h.Valid() && Staying(h.sys, from) && Uncommanded(since, h.sys.trace)
    ensures h.sys.exclusive ==> KdamondsKept(h.sys, old(h.sys.files), old(h.sys.threads), h.sys.files, h.sys.threads)
    ensures h.sys.exclusive && r.Ok? && AllHold(view, goals) ==> GoalsAt(h.sys.schema, view, h.sys.files, quotas) == Some(goals)
    ensures h.sys.exclusive && h.sys.steady && GoalsSupported(h.sys.schema, quotas, goals) ==> r.Ok?
    ensures r.Err? ==> !r.error.Rollback? && r.error.ClearsValues()
  {
    hide ManagedHierarchy.Valid, Staying, Uncommanded, GoalFootprint, GoalPaths, KdamondsKept, GoalView.Lawful,
         GoalsSupported, GoalAt, GoalsAt, CountIs, LeavesKept, GoalStageable, GoalHolds;
    ghost var K, t0, threads0, good := h.sys.schema, h.sys.files, h.sys.threads, AllHold(view, goals);
    NothingChanges(h.sys);
    for n := 0 to |goals|
      invariant h.Valid() && Staying(h.sys, from) && Uncommanded(since, h.sys.trace)
      invariant h.sys.exclusive ==> KdamondsKept(h.sys, t0, threads0, h.sys.files, h.sys.threads) && CountIs(K, quotas, |goals|, h.sys.files)
      invariant h.sys.exclusive && good ==> forall m | 0 <= m < n :: GoalAt(K, view, h.sys.files, quotas, m) == Some(goals[m])
    {
      if |observed| != |goals| || observed[n] != goals[n] {
        ghost var t1, threads1 := h.sys.files, h.sys.threads;
        GoalLeavesFit(h.sys.schema, quotas, goals, observed, n);
        if h.sys.exclusive && GoalsSupported(K, quotas, goals) { CountedIsStageable(h, quotas, goals, n); }
        r := StageGoal(h, view, quotas, n, goals[n], from, since);
        if h.sys.exclusive {
          KdamondsKeptTransitive(h.sys, t0, threads0, t1, threads1, h.sys.files, h.sys.threads);
          GoalsBesides(h, view, quotas, n, goals, t1);
        }
        if r.Err? { return; }
        assert goals[n] in goals;
      } else if h.sys.exclusive {
        KeptGoal(h, view, quotas, goals, observed, from, n);
      }
    }
    if h.sys.exclusive && good { CountedGoalsAre(K, view, h.sys.files, quotas, goals); }
    r := Ok(());
  }

  lemma CountedGoalsAre(K: Schema, view: GoalView, t: Tree, quotas: Path, goals: seq<GoalConfig>)
    requires CountIs(K, quotas, |goals|, t) && forall n | 0 <= n < |goals| :: GoalAt(K, view, t, quotas, n) == Some(goals[n])
    ensures GoalsAt(K, view, t, quotas) == Some(goals)
  {
    GoalsAre(K, view, t, quotas, goals);
  }

  lemma CountedIsStageable(h: ManagedHierarchy, quotas: Path, goals: seq<GoalConfig>, n: nat)
    requires h.Valid() && GoalsSupported(h.sys.schema, quotas, goals) && CountIs(h.sys.schema, quotas, |goals|, h.sys.files) && n < |goals|
    ensures GoalStageable(h.sys.schema, h.sys.files, quotas, n, goals[n])
  {
    SupportedIsStageable(h.sys.schema, h.sys.files, quotas, goals, n);
  }

  lemma GoalsBesides(h: ManagedHierarchy, view: GoalView, quotas: Path, n: nat, goals: seq<GoalConfig>, t: Tree)
    requires h.Valid() && n < |goals| && LeavesKept(GoalPaths(h.sys.schema, quotas, n, goals[n]), t, h.sys.files)
    ensures CountIs(h.sys.schema, quotas, |goals|, t) ==> CountIs(h.sys.schema, quotas, |goals|, h.sys.files)
    ensures forall m: nat | m != n :: GoalAt(h.sys.schema, view, t, quotas, m) == GoalAt(h.sys.schema, view, h.sys.files, quotas, m)
  {
    hide ManagedHierarchy.Valid, LeavesKept, GoalPaths, GoalAt, Schema.Lawful;
    LawfulHierarchy(h);
    OtherGoalsKept(h.sys.schema, view, quotas, n, goals[n], t, h.sys.files);
  }

  lemma KeptGoal(h: ManagedHierarchy, view: GoalView, quotas: Path, goals: seq<GoalConfig>, observed: seq<GoalConfig>, from: Stage, n: nat)
    requires h.Valid() && Staying(h.sys, from) && h.sys.exclusive && n < |goals| == |observed| && goals[n] == observed[n]
    requires from.foot == GoalFootprint(h.sys.schema, quotas, goals, observed) && GoalsAt(h.sys.schema, view, from.files, quotas) == Some(observed)
    requires CountIs(h.sys.schema, quotas, |goals|, h.sys.files)
    ensures GoalAt(h.sys.schema, view, h.sys.files, quotas, n) == Some(goals[n])
  {
    CountPresence(h.sys, quotas, goals, observed, from);
    ObservedGoalKept(h.sys, view, quotas, goals, observed, from, n);
  }

  method EnsureGoalCount(h: ManagedHierarchy, view: GoalView, quotas: Path, goals: seq<GoalConfig>, observed: seq<GoalConfig>, ghost from: Stage, ghost since: seq<Event>)
    returns (r: Result<()>)
    requires h.Valid() && Staying(h.sys, from) && QuotasOf(h.sys.schema, quotas, from.kdamond) && Uncommanded(since, h.sys.trace)
    requires from.foot == GoalFootprint(h.sys.schema, quotas, goals, observed)
    requires h.sys.exclusive ==> GoalsAt(h.sys.schema, view, from.files, quotas) == Some(observed) && GoalCount(quotas) in h.sys.files
    modifies h.sys
    ensures h.Valid() && Staying(h.sys, from) && Uncommanded(since, h.sys.trace)
    ensures h.sys.exclusive ==> KdamondsKept(h.sys, old(h.sys.files), old(h.sys.threads), h.sys.files, h.sys.threads)
    ensures h.sys.exclusive && r.Ok? ==> CountIs(h.sys.schema, quotas, |goals|, h.sys.files)
    ensures h.sys.exclusive && h.sys.steady && h.sys.schema.Rebuilds(GoalCount(quotas)) ==> r.Ok?
    ensures r.Err? ==> !r.error.Rollback? && r.error.ClearsValues()
  {
    hide ManagedHierarchy.Valid, Staying, Uncommanded, GoalFootprint, WriteFits, KdamondsKept, GoalsAt, GoalAt, Calm,
         AfterWrite, CountsFor;
    ghost var K, t, threads := h.sys.schema, h.sys.files, h.sys.threads;
    if h.sys.exclusive {
      GoalsCounted(K, view, from.files, quotas, observed);
      CountReadable(h, quotas);
      if |observed| == |goals| { CountStaysCounted(h, quotas, goals, observed, from); }
    }
    var count := LookUpNumber(h, GoalCount(quotas), from);
    ghost var t1, threads1 := h.sys.files, h.sys.threads;
    if h.sys.exclusive { LookedGoals(h, quotas, t, threads); }
    if count.Err? { return Err(count.error); }
    if count.value != |goals| {
      if h.sys.exclusive { CountFits(K, quotas, goals, observed, t, count.value); }
      r := GoalWrite(h, GoalCount(quotas), h.sys.schema.decimal(|goals|), from, since);
      if h.sys.exclusive {
        KdamondsKeptTransitive(h.sys, t, threads, t1, threads1, h.sys.files, h.sys.threads);
        if r.Ok? { CountWritten(h, quotas, |goals|, t1); }
      }
    } else {
      r := Ok(());
    }
  }

  lemma CountStaysCounted(h: ManagedHierarchy, quotas: Path, goals: seq<GoalConfig>, observed: seq<GoalConfig>, from: Stage)
    requires h.Valid() && Staying(h.sys, from) && h.sys.exclusive && |observed| == |goals|
    requires from.foot == GoalFootprint(h.sys.schema, quotas, goals, observed) && CountsFor(h.sys.schema, quotas, observed, from.files)
    ensures CountsFor(h.sys.schema, quotas, observed, h.sys.files)
  {
    CountStays(h.sys, quotas, goals, observed, from);
  }

  lemma CountReadable(h: ManagedHierarchy, quotas: Path)
    requires h.Valid() && GoalCount(quotas) in h.sys.files
    ensures h.sys.schema.Rebuilds(GoalCount(quotas)) ==> h.sys.schema.number(h.sys.files[GoalCount(quotas)]).Some?
    ensures forall n: nat :: h.sys.schema.number(h.sys.schema.decimal(n)) == Some(n)
  {
  }

  lemma CountWritten(h: ManagedHierarchy, quotas: Path, count: nat, t: Tree)
    requires h.Valid() && Legal(h.sys.schema, t, GoalCount(quotas), h.sys.schema.decimal(count))
    requires Calm(h.sys.retuned, AfterWrite(h.sys.schema, t, GoalCount(quotas), h.sys.schema.decimal(count)), h.sys.files)
    ensures CountIs(h.sys.schema, quotas, count, h.sys.files)
  {
    WrittenValue(h.sys.schema, t, GoalCount(quotas), h.sys.schema.decimal(count));
    CountNameIsCount(quotas);
  }

  /** A count that has to be rewritten means the number of goals changes, so the whole directory is the footprint. */
  lemma CountFits(K: Schema, quotas: Path, goals: seq<GoalConfig>, observed: seq<GoalConfig>, t: Tree, count: nat)
    requires |observed| == |goals| ==> CountsFor(K, quotas, observed, t)
    requires GoalCount(quotas) in t && K.number(t[GoalCount(quotas)]) == Some(count) && count != |goals|
    ensures WriteFits(GoalFootprint(K, quotas, goals, observed), GoalCount(quotas))
  {
    CountNameIsCount(quotas);
  }

  // ---------- the unchanged check ----------

  /** The owned leaves outside the footprint hold their owned values. */
  ghost predicate AgreesOutside(entries: seq<Entry>, foot: Footprint, ignored: set<Path>, t: Tree) {
    forall e | e in entries && !foot.Has(e.path) && e.path !in ignored :: e.path in t && t[e.path] == e.value
  }

  /** Everything the session owns outside what it is staging is compared with the kernel. */
  method CheckElsewhere(h: ManagedHierarchy, quotas: Path, goals: seq<GoalConfig>, observed: seq<GoalConfig>) returns (r: Result<bool>)
    requires h.Valid()
    modifies h.sys
    ensures h.Valid() && h.sys.Quiet()
    ensures h.sys.exclusive && r == Ok(true) ==>
              AgreesOutside(h.staged.entries, GoalFootprint(h.sys.schema, quotas, goals, observed), h.staged.volatile + h.sys.retuned, h.sys.files)
    ensures h.sys.exclusive && h.sys.retuned <= h.staged.volatile && r == Ok(false) ==>
              !AgreesOutside(h.staged.entries, GoalFootprint(h.sys.schema, quotas, goals, observed), h.staged.volatile, h.sys.files)
    ensures r.Err? ==> r.error.IsAccessFailure() && !h.sys.steady
  {
    hide SysfsModel.Sysfs.Valid, IsCapture, RunInvariant, Sorted, GoalPaths;
    if |observed| == |goals| {
      var changed := GoalFootprint(h.sys.schema, quotas, goals, observed).paths;
      r := MatchesCurrentExcept(h.sys, h.staged.entries, h.staged.volatile + changed);
    } else {
      r := MatchesOutsideExcept(h.sys, h.staged.entries, quotas + ["goals"], h.staged.volatile);
    }
  }

  /** Staging inside the footprint neither hides nor causes a difference elsewhere. */
  lemma FrameKeepsVerdict(entries: seq<Entry>, foot: Footprint, ignored: set<Path>, loose: set<Path>, t: Tree, u: Tree)
    requires FrameKept(foot, loose, t, u) && loose <= ignored
    ensures AgreesOutside(entries, foot, ignored, t) <==> AgreesOutside(entries, foot, ignored, u)
  {
  }

  // ---------- committing goals ----------

  /** The goals kdamond `i` runs are, retuned leaves apart, those `t` stages for it. */
  ghost predicate GoalsAsStaged(K: Schema, loose: set<Path>, active: map<nat, Tree>, t: Tree, i: nat) {
    && i in active
    && forall p | IsGoalLeaf(K, p) ::
         && (p in active[i] <==> p in t && KdamondDir(K, i) <= p)
         && (p in active[i] && p !in loose ==> active[i][p] == t[p])
  }

  /** A quota-goal commit leaves everything else a kdamond runs alone. */
  ghost predicate OnlyGoalsChanged(K: Schema, before: map<nat, Tree>, after: map<nat, Tree>, i: nat) {
    && SparesOthers(before, after, [i])
    && (i in before ==> i in after)
    && (i in before ==> forall p | !IsGoalLeaf(K, p) :: (p in before[i] <==> p in after[i]) && (p in before[i] ==> before[i][p] == after[i][p]))
  }

  lemma GoalsHanded(K: Schema, loose: set<Path>, active: map<nat, Tree>, handed: Tree, i: nat)
    ensures var after := Activated(K, active, handed, i, CommitQuotaGoals);
            GoalsAsStaged(K, loose, after, handed, i) && OnlyGoalsChanged(K, active, after, i)
  {
  }

  lemma GoalsByDrift(K: Schema, loose: set<Path>, active: map<nat, Tree>, t: Tree, u: Tree, i: nat)
    requires GoalsAsStaged(K, loose, active, t, i) && Calm(loose, t, u)
    ensures GoalsAsStaged(K, loose, active, u, i)
  {
  }

  method CommitGoals(h: ManagedHierarchy, i: nat) returns (r: Result<()>)
    requires h.Valid()
    modifies h.sys
    ensures h.Valid() && h.sys.journal == old(h.sys.journal)
    ensures h.sys.exclusive ==> Calm(h.sys.retuned, old(h.sys.files), h.sys.files)
    ensures h.sys.exclusive ==> OnlyGoalsChanged(h.sys.schema, old(h.sys.active), h.sys.active, i)
    ensures old(h.sys.trace) <= h.sys.trace
    ensures r.Ok? ==> h.OwnedPidOf(i).Some? && ConfirmedCommit(h.sys.trace, |old(h.sys.trace)|, i, h.OwnedPidOf(i).value, CommitQuotaGoals)
    ensures r.Ok? && h.sys.exclusive ==> GoalsAsStaged(h.sys.schema, h.sys.retuned, h.sys.active, h.sys.files, i)
    ensures h.sys.exclusive ==> KdamondsKept(h.sys, old(h.sys.files), old(h.sys.threads), h.sys.files, h.sys.threads)
    ensures Undisputed(h, old(h.sys.files), old(h.sys.threads)) && h.OwnedPidOf(i).Some? ==> r.Ok?
    ensures r.Err? ==> !r.error.Rollback? && r.error.ClearsValues()
  {
    hide SysfsModel.Sysfs.Valid, IsCapture, RunInvariant, Sorted, GoalsAsStaged, IsGoalLeaf, Activated, ConfirmedCommit;
    ghost var accepted, handed;
    r, accepted, handed := SendCommit(h, i, CommitQuotaGoals);
    GoalsHanded(h.sys.schema, h.sys.retuned, old(h.sys.active), handed, i);
    if h.sys.exclusive && accepted { GoalsByDrift(h.sys.schema, h.sys.retuned, h.sys.active, handed, h.sys.files, i); }
  }

  // ---------- the transaction ----------

  method CheckIdentities(h: ManagedHierarchy, ghost from: Stage, ghost since: seq<Event>) returns (r: Result<()>)
    requires h.Valid() && Staying(h.sys, from) && Uncommanded(since, h.sys.trace)
    modifies h.sys
    ensures h.Valid() && Staying(h.sys, from) && Uncommanded(since, h.sys.trace)
    ensures h.sys.exclusive ==> Calm(h.sys.retuned, old(h.sys.files), h.sys.files)
    ensures h.sys.steady ==> h.sys.threads == old(h.sys.threads)
    ensures Undisputed(h, old(h.sys.files), old(h.sys.threads)) ==> r.Ok?
    ensures r.Err? ==> !r.error.Rollback? && r.error.ClearsValues()
  {
    hide SysfsModel.Sysfs.Valid, IsCapture, RunInvariant, Sorted, Stays, Uncommanded, Looked, AllFit;
    if Undisputed(h, h.sys.files, h.sys.threads) { UndisputedIsAlive(h); }
    ghost var t, before := h.sys.files, h.sys.trace;
    r := h.VerifyOwnedIdentitiesOnly();
    LookedUncommanded(since, before, h.sys.trace);
    if h.sys.exclusive { DriftStays(h.sys.schema, h.sys.retuned, from, t, h.sys.journal, h.sys.active, h.sys.files); }
  }

  lemma LookedUncommanded(since: seq<Event>, before: seq<Event>, after: seq<Event>)
    requires Uncommanded(since, before) && Looked(before, after)
    ensures Uncommanded(since, after)
  {
    assert forall k | |before| <= k < |after| :: after[k].Passive();
    UncommandedTransitive(since, before, after);
  }

  method RetryStageGoals(h: ManagedHierarchy, view: GoalView, quotas: Path, goals: seq<GoalConfig>, observed: seq<GoalConfig>, ghost from: Stage, ghost since: seq<Event>)
    returns (r: Result<()>)
    requires h.Valid() && Staying(h.sys, from) && QuotasOf(h.sys.schema, quotas, from.kdamond) && Uncommanded(since, h.sys.trace)
    requires from.foot == GoalFootprint(h.sys.schema, quotas, goals, observed) && view.Lawful(h.sys.schema)
    requires h.sys.exclusive ==> GoalsAt(h.sys.schema, view, from.files, quotas) == Some(observed)
    modifies h.sys
    ensures h.Valid() && Staying(h.sys, from) && Uncommanded(since, h.sys.trace)
    ensures h.sys.exclusive ==> KdamondsKept(h.sys, old(h.sys.files), old(h.sys.threads), h.sys.files, h.sys.threads)
    ensures h.sys.exclusive && r.Ok? && AllHold(view, goals) ==> GoalsAt(h.sys.schema, view, h.sys.files, quotas) == Some(goals)
    ensures (Undisputed(h, old(h.sys.files), old(h.sys.threads)) && ValidGoals(goals) && GoalsSupported(h.sys.schema, quotas, goals)
             && GoalCount(quotas) in old(h.sys.files)) ==> r.Ok?
    ensures r.Err? ==> !r.error.Rollback? && r.error.ClearsValues()
  {
    hide ManagedHierarchy.Valid, Staying, Uncommanded, GoalFootprint, GoalsAt, AllHold, KdamondsKept, Undisputed,
         ValidGoals, GoalsSupported, GoalView.Lawful;
    r := TryStageGoals(h, view, quotas, goals, observed, from, since);
    var retries := 0;
    while r.Err? && r.error.Busy? && retries < MAX_RETRIES
      invariant h.Valid() && Staying(h.sys, from) && Uncommanded(since, h.sys.trace)
      invariant h.sys.exclusive ==> KdamondsKept(h.sys, old(h.sys.files), old(h.sys.threads), h.sys.files, h.sys.threads)
      invariant h.sys.exclusive && r.Ok? && AllHold(view, goals) ==> GoalsAt(h.sys.schema, view, h.sys.files, quotas) == Some(goals)
      invariant (Undisputed(h, old(h.sys.files), old(h.sys.threads)) && ValidGoals(goals) && GoalsSupported(h.sys.schema, quotas, goals)
                 && GoalCount(quotas) in old(h.sys.files)) ==> r.Ok?
      invariant r.Err? ==> !r.error.Rollback? && r.error.ClearsValues()
      decreases MAX_RETRIES - retries
    {
      ghost var t, threads := h.sys.files, h.sys.threads;
      r := TryStageGoals(h, view, quotas, goals, observed, from, since);
      if h.sys.exclusive { KdamondsKeptTransitive(h.sys, old(h.sys.files), old(h.sys.threads), t, threads, h.sys.files, h.sys.threads); }
      retries := retries + 1;
    }
  }

  method TryStageGoals(h: ManagedHierarchy, view: GoalView, quotas: Path, goals: seq<GoalConfig>, observed: seq<GoalConfig>, ghost from: Stage, ghost since: seq<Event>)
    returns (r: Result<()>)
    requires h.Valid() && Staying(h.sys, from) && QuotasOf(h.sys.schema, quotas, from.kdamond) && Uncommanded(since, h.sys.trace)
    requires from.foot == GoalFootprint(h.sys.schema, quotas, goals, observed) && view.Lawful(h.sys.schema)
    requires h.sys.exclusive ==> GoalsAt(h.sys.schema, view, from.files, quotas) == Some(observed)
    modifies h.sys
    ensures h.Valid() && Staying(h.sys, from) && Uncommanded(since, h.sys.trace)
    ensures h.sys.exclusive ==> KdamondsKept(h.sys, old(h.sys.files), old(h.sys.threads), h.sys.files, h.sys.threads)
    ensures h.sys.exclusive && r.Ok? && AllHold(view, goals) ==> GoalsAt(h.sys.schema, view, h.sys.files, quotas) == Some(goals)
    ensures (Undisputed(h, old(h.sys.files), old(h.sys.threads)) && ValidGoals(goals) && GoalsSupported(h.sys.schema, quotas, goals)
             && GoalCount(quotas) in old(h.sys.files)) ==> r.Ok?
    ensures r.Err? ==> !r.error.Rollback? && r.error.ClearsValues()
  {
    hide ManagedHierarchy.Valid, Staying, Uncommanded, GoalFootprint, GoalsAt, AllHold, KdamondsKept, ValidGoals,
         GoalsSupported, GoalView.Lawful, Calm, AllFit, CountOf;
    ghost var t, threads := h.sys.files, h.sys.threads;
    r := CheckIdentities(h, from, since);
    if h.sys.exclusive { LookedGoals(h, quotas, t, threads); }
    if r.Err? { return; }
    ghost var t1, threads1 := h.sys.files, h.sys.threads;
    r := StageGoals(h, view, quotas, goals, observed, from, since);
    if h.sys.exclusive { KdamondsKeptTransitive(h.sys, t, threads, t1, threads1, h.sys.files, h.sys.threads); }
  }

  /** `goal_configurations`. */
  method ReadGoals(sys: Sysfs, view: GoalView, quotas: Path) returns (r: Result<seq<GoalConfig>>, ghost seen: Tree)
    requires sys.Valid()
    modifies sys
    ensures sys.Valid() && sys.Quiet()
    ensures r.Ok? ==> GoalsAt(sys.schema, view, seen, quotas) == Some(r.value)
    ensures sys.exclusive ==> Calm(sys.retuned, old(sys.files), seen) && Calm(sys.retuned, seen, sys.files)
    ensures r.Err? ==> r.error.IsAccessFailure() || r.error == InvalidKernelValue
    ensures sys.steady ==> (r.Ok? <==> GoalsAt(sys.schema, view, seen, quotas).Some?)
  {
    hide SysfsModel.Sysfs.Valid;
    seen := sys.files;
    var failure := sys.Attempt();
    var goals := GoalsAt(sys.schema, view, sys.files, quotas);
    r := if failure.Some? then Err(failure.value) else if goals.None? then Err(InvalidKernelValue) else Ok(goals.value);
    sys.Interfere();
  }

  method RetryGoals(sys: Sysfs, view: GoalView, quotas: Path) returns (r: Result<seq<GoalConfig>>, ghost seen: Tree)
    requires sys.Valid()
    modifies sys
    ensures sys.Valid() && sys.Quiet()
    ensures r.Ok? ==> GoalsAt(sys.schema, view, seen, quotas) == Some(r.value)
    ensures sys.exclusive ==> Calm(sys.retuned, old(sys.files), seen) && Calm(sys.retuned, seen, sys.files)
    ensures r.Err? ==> r.error.IsAccessFailure() || r.error == InvalidKernelValue
    ensures sys.steady ==> (r.Ok? <==> GoalsAt(sys.schema, view, seen, quotas).Some?)
  {
    hide SysfsModel.Sysfs.Valid;
    var retries := 0;
    r, seen := ReadGoals(sys, view, quotas);
    while r.Err? && r.error.Busy? && retries < MAX_RETRIES
      invariant sys.Valid() && sys.Quiet()
      invariant r.Ok? ==> GoalsAt(sys.schema, view, seen, quotas) == Some(r.value)
      invariant sys.exclusive ==> Calm(sys.retuned, old(sys.files), seen) && Calm(sys.retuned, seen, sys.files)
      invariant r.Err? ==> r.error.IsAccessFailure() || r.error == InvalidKernelValue
      invariant sys.steady ==> (r.Ok? <==> GoalsAt(sys.schema, view, seen, quotas).Some?)
      decreases MAX_RETRIES - retries
    {
      r, seen := ReadGoals(sys, view, quotas);
      retries := retries + 1;
    }
  }
}
