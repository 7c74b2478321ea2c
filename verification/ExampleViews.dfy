/** A view of quota goals small enough to write down: what is assumed of such views can be
    met on any kernel layout. */
module ExampleViews {
  import opened Outcomes
  import opened Paths
  import opened KernelTree
  import opened Config
  import opened KernelNodes
  import opened QuotaGoals

  function MetricName(m: GoalMetric): string {
    match m
    case UserInput => "user_input"
    case SomeMemoryPressure => "some_mem_psi_us"
    case NodeMemoryUsed => "node_mem_used_bp"
    case NodeMemoryFree => "node_mem_free_bp"
    case NodeCgroupUsed => "node_memcg_used_bp"
    case NodeCgroupFree => "node_memcg_free_bp"
    case ActiveMemory => "active_mem_bp"
    case InactiveMemory => "inactive_mem_bp"
    case NodeEligibleMemory => "node_eligible_mem_bp"
    case HugePageMemory => "hugepage_mem_bp"
    case UnknownMetric(name) => name
  }

  function MetricNamed(name: string): GoalMetric {
    if name == "user_input" then UserInput
    else if name == "some_mem_psi_us" then SomeMemoryPressure
    else if name == "node_mem_used_bp" then NodeMemoryUsed
    else if name == "node_mem_free_bp" then NodeMemoryFree
    else if name == "node_memcg_used_bp" then NodeCgroupUsed
    else if name == "node_memcg_free_bp" then NodeCgroupFree
    else if name == "active_mem_bp" then ActiveMemory
    else if name == "inactive_mem_bp" then InactiveMemory
    else if name == "node_eligible_mem_bp" then NodeEligibleMemory
    else if name == "hugepage_mem_bp" then HugePageMemory
    else UnknownMetric(name)
  }

  /** An unknown metric must not bear a known name. */
  lemma MetricsSurvive(m: GoalMetric)
    ensures MetricNamed(MetricName(m)) == m <==> (m.UnknownMetric? ==> MetricNamed(m.name).UnknownMetric?)
  {
  }

  /** Integers as a sign and a decimal number. */
  function Signed(K: Schema, n: int): string {
    if n < 0 then "-" + K.decimal(-n) else "+" + K.decimal(n)
  }

  function ParseSigned(K: Schema, text: string): Option<int> {
    if text == "" || K.number(text[1..]).None? then None
    else
      var size: int := K.number(text[1..]).value;
      Some(if text[0] == '-' then -size else size)
  }

  lemma IntegersSurvive(K: Schema, n: int)
    requires K.Lawful()
    ensures ParseSigned(K, Signed(K, n)) == Some(n)
  {
    assert Signed(K, n)[1..] == if n < 0 then K.decimal(-n) else K.decimal(n);
  }

  /** The staged goals, beside a quota's other values taken from `like`. */
  function ViewLike(K: Schema, like: QuotaConfig): GoalView {
    GoalView(MetricName, MetricNamed, n => Signed(K, n), text => ParseSigned(K, text),
             (t: Tree, quotas: Path) => QuotaLike(K, like, t, quotas))
  }

  /** A view without quotas: reading goals does not need them. */
  function BareView(K: Schema): GoalView {
    GoalView(MetricName, MetricNamed, n => Signed(K, n), text => ParseSigned(K, text), (t: Tree, quotas: Path) => None)
  }

  function QuotaLike(K: Schema, like: QuotaConfig, t: Tree, quotas: Path): Option<QuotaConfig> {
    var goals := GoalsAt(K, BareView(K), t, quotas);
    if goals.None? then None else Some(like.(goals := goals.value))
  }

  lemma {:induction false} SameGoals(K: Schema, a: GoalView, b: GoalView, t: Tree, quotas: Path, count: nat)
    requires forall s: string :: a.parseMetric(s) == b.parseMetric(s) && a.parseInteger(s) == b.parseInteger(s)
    ensures GoalsFrom(K, a, t, quotas, count) == GoalsFrom(K, b, t, quotas, count)
  {
    if count > 0 {
      SameGoals(K, a, b, t, quotas, count - 1);
      assert GoalAt(K, a, t, quotas, count - 1) == GoalAt(K, b, t, quotas, count - 1);
    }
  }

  lemma ViewsExist(K: Schema, like: QuotaConfig)
    requires K.Lawful()
    ensures ViewLike(K, like).Lawful(K)
    ensures forall g :: GoalHolds(ViewLike(K, like), g) <==> GoalFits(g) && (g.metric.UnknownMetric? ==> MetricNamed(g.metric.name).UnknownMetric?)
  {
    var view := ViewLike(K, like);
    forall n: int ensures view.parseInteger(view.integer(n)) == Some(n) { IntegersSurvive(K, n); }
    forall t: Tree, q, config | view.quota(t, q) == Some(config) ensures GoalsAt(K, view, t, q) == Some(config.goals) {
      if GoalCount(q) in t && K.number(t[GoalCount(q)]).Some? { SameGoals(K, view, BareView(K), t, q, K.number(t[GoalCount(q)]).value); }
    }
    hide MetricName, MetricNamed;
    forall g: GoalConfig ensures view.parseMetric(view.metric(g.metric)) == g.metric <==> (g.metric.UnknownMetric? ==> MetricNamed(g.metric.name).UnknownMetric?) {
      MetricsSurvive(g.metric);
    }
  }
}
