/** Interval tuning as the leaves show it: which contexts have a tuning goal, and which of
    their leaves the kernel retunes meanwhile. */
module TuningGoals {
  import opened Outcomes
  import opened Paths
  import opened KernelTree
  import opened Config

  const GOAL_SUFFIX: Path := ["monitoring_attrs", "intervals", "intervals_goal", "aggrs"]

  function IntervalLeaf(K: Schema, k: nat, c: nat, name: Component): Path {
    KdamondDir(K, k) + ["contexts", K.decimal(c), "monitoring_attrs", "intervals", name]
  }

  /** The tuning goal's aggregation leaf of one context. */
  function GoalAggregations(K: Schema, k: nat, c: nat): Path {
    KdamondDir(K, k) + ["contexts", K.decimal(c)] + GOAL_SUFFIX
  }

  function ContextCount(K: Schema, k: nat): Path {
    KdamondDir(K, k) + ["contexts", "nr_contexts"]
  }

  /** The sampling and aggregation leaves of every context whose intervals are tuned. */
  function VolatilePaths(K: Schema, config: DamonConfig): set<Path> {
    (set k, c | 0 <= k < |config.kdamonds| && 0 <= c < |config.kdamonds[k].contexts| && config.kdamonds[k].contexts[c].Tuned()
       :: IntervalLeaf(K, k, c, "sample_us"))
    + (set k, c | 0 <= k < |config.kdamonds| && 0 <= c < |config.kdamonds[k].contexts| && config.kdamonds[k].contexts[c].Tuned()
       :: IntervalLeaf(K, k, c, "aggr_us"))
  }

  /** `config` is what the typed readers make of the interval goals staged in `t`: every
      context the counts call for, the goal's aggregation count wherever the kernel has
      that leaf, zero elsewhere. */
  ghost predicate ViewsGoals(K: Schema, t: Tree, config: DamonConfig) {
    && |config.kdamonds| == CountOf(K, t, K.top)
    && forall k | 0 <= k < |config.kdamonds| ::
         && |config.kdamonds[k].contexts| == CountOf(K, t, ContextCount(K, k))
         && forall c | 0 <= c < |config.kdamonds[k].contexts| :: ViewsGoal(K, t, config.kdamonds[k].contexts[c], k, c)
  }

  ghost predicate ViewsGoal(K: Schema, t: Tree, context: ContextConfig, k: nat, c: nat) {
    && IntervalLeaf(K, k, c, "sample_us") in t && IntervalLeaf(K, k, c, "aggr_us") in t
    && (if GoalAggregations(K, k, c) in t
        then K.number(t[GoalAggregations(K, k, c)]) == Some(context.intervalsGoal.aggregations)
        else context.intervalsGoal.aggregations == 0)
  }

  /** `paths` are leaves the hierarchy `t` stages for tuning, given its kdamond count. */
  ghost predicate TunedAs(K: Schema, t: Tree, volatile: set<Path>, count: nat) {
    exists config :: ViewsGoals(K, t, config) && volatile == VolatilePaths(K, config) && count == |config.kdamonds|
  }

  predicate IsIntervalName(p: Path) {
    p != [] && (Name(p) == "sample_us" || Name(p) == "aggr_us")
  }

  ghost predicate OnlyIntervals(paths: set<Path>) {
    forall p | p in paths :: IsIntervalName(p)
  }

  lemma VolatileIsIntervals(K: Schema, config: DamonConfig)
    ensures OnlyIntervals(VolatilePaths(K, config))
  {
  }

  // ---------- what keeps the view ----------

  /** Leaves from which the tuning of a hierarchy can be told: the counts of kdamonds and
      contexts, and each context's monitoring attributes. */
  predicate ShowsTuning(K: Schema, p: Path) {
    p == K.top || (|p| == |K.base| + 3 && Name(p) == "nr_contexts") || (|K.base| + 3 < |p| && p[|K.base| + 3] == "monitoring_attrs")
  }

  /** The two trees show the same tuning, whatever the intervals are at the moment. */
  ghost predicate SameTuning(K: Schema, t: Tree, u: Tree) {
    forall p | ShowsTuning(K, p) :: (p in t <==> p in u) && (p in t && !IsIntervalName(p) ==> t[p] == u[p])
  }

  lemma CalmIsSameTuning(K: Schema, loose: set<Path>, t: Tree, u: Tree)
    requires Calm(loose, t, u) && OnlyIntervals(loose)
    ensures SameTuning(K, t, u)
  {
  }

  lemma {:induction false} ViewKept(K: Schema, t: Tree, u: Tree, config: DamonConfig)
    requires K.Lawful() && SameTuning(K, t, u) && ViewsGoals(K, t, config)
    ensures ViewsGoals(K, u, config)
  {
    assert Name(K.top) == K.topName && IsCountName(K.topName) && !IsIntervalName(K.top) by {
      assert Dir(K.top) == K.base;
      assert "nr_"[0] == 'n';
    }
    forall k | 0 <= k < |config.kdamonds|
      ensures |config.kdamonds[k].contexts| == CountOf(K, u, ContextCount(K, k))
      ensures forall c | 0 <= c < |config.kdamonds[k].contexts| :: ViewsGoal(K, u, config.kdamonds[k].contexts[c], k, c)
    {
      assert ShowsTuning(K, ContextCount(K, k)) && !IsIntervalName(ContextCount(K, k));
      forall c | 0 <= c < |config.kdamonds[k].contexts| ensures ViewsGoal(K, u, config.kdamonds[k].contexts[c], k, c) {
        assert ViewsGoal(K, t, config.kdamonds[k].contexts[c], k, c);
        TuningLeaves(K, k, c);
      }
    }
  }

  lemma TuningLeaves(K: Schema, k: nat, c: nat)
    ensures ShowsTuning(K, GoalAggregations(K, k, c)) && !IsIntervalName(GoalAggregations(K, k, c))
    ensures ShowsTuning(K, IntervalLeaf(K, k, c, "sample_us")) && ShowsTuning(K, IntervalLeaf(K, k, c, "aggr_us"))
  {
    assert Name(GoalAggregations(K, k, c)) == "aggrs";
    assert GoalAggregations(K, k, c)[|K.base| + 3] == GOAL_SUFFIX[0];
  }

  lemma TunedAsKept(K: Schema, t: Tree, u: Tree, volatile: set<Path>, count: nat)
    requires K.Lawful() && SameTuning(K, t, u) && TunedAs(K, t, volatile, count)
    ensures TunedAs(K, u, volatile, count)
  {
    var config :| ViewsGoals(K, t, config) && volatile == VolatilePaths(K, config) && count == |config.kdamonds|;
    hide ViewsGoals, VolatilePaths, SameTuning, Schema.Lawful;
    ViewKept(K, t, u, config);
  }

  /** The same contexts are tuned. */
  ghost predicate TunedAlike(a: DamonConfig, b: DamonConfig) {
    && |a.kdamonds| == |b.kdamonds|
    && forall k | 0 <= k < |a.kdamonds| ::
         && |a.kdamonds[k].contexts| == |b.kdamonds[k].contexts|
         && forall c | 0 <= c < |a.kdamonds[k].contexts| :: a.kdamonds[k].contexts[c].Tuned() == b.kdamonds[k].contexts[c].Tuned()
  }

  lemma ViewsTunedAlike(K: Schema, t: Tree, a: DamonConfig, b: DamonConfig)
    requires ViewsGoals(K, t, a) && ViewsGoals(K, t, b)
    ensures TunedAlike(a, b)
  {
    hide IntervalLeaf, GoalAggregations, ContextCount, CountOf;
    forall k | 0 <= k < |a.kdamonds|
      ensures |a.kdamonds[k].contexts| == |b.kdamonds[k].contexts|
      ensures forall c | 0 <= c < |a.kdamonds[k].contexts| :: a.kdamonds[k].contexts[c].Tuned() == b.kdamonds[k].contexts[c].Tuned()
    {
      assert |a.kdamonds[k].contexts| == CountOf(K, t, ContextCount(K, k)) == |b.kdamonds[k].contexts|;
      forall c | 0 <= c < |a.kdamonds[k].contexts| ensures a.kdamonds[k].contexts[c].Tuned() == b.kdamonds[k].contexts[c].Tuned() {
        assert ViewsGoal(K, t, a.kdamonds[k].contexts[c], k, c) && ViewsGoal(K, t, b.kdamonds[k].contexts[c], k, c);
      }
    }
  }

  lemma TunedAlikeSameVolatile(K: Schema, a: DamonConfig, b: DamonConfig)
    requires TunedAlike(a, b)
    ensures VolatilePaths(K, a) == VolatilePaths(K, b)
  {
    hide IntervalLeaf;
  }

  /** A tree shows one tuning. */
  lemma TunedAsIsUnique(K: Schema, t: Tree, v: set<Path>, m: nat, w: set<Path>, n: nat)
    requires TunedAs(K, t, v, m) && TunedAs(K, t, w, n)
    ensures v == w && m == n
  {
    var a :| ViewsGoals(K, t, a) && v == VolatilePaths(K, a) && m == |a.kdamonds|;
    var b :| ViewsGoals(K, t, b) && w == VolatilePaths(K, b) && n == |b.kdamonds|;
    hide ViewsGoals, VolatilePaths;
    ViewsTunedAlike(K, t, a, b);
    TunedAlikeSameVolatile(K, a, b);
  }

  // ---------- configurations that tune alike ----------

  /** The goals of two configurations tune the same contexts. */
  ghost predicate SameGoals(a: DamonConfig, b: DamonConfig) {
    && |a.kdamonds| == |b.kdamonds|
    && forall k | 0 <= k < |a.kdamonds| ::
         && |a.kdamonds[k].contexts| == |b.kdamonds[k].contexts|
         && forall c | 0 <= c < |a.kdamonds[k].contexts| :: a.kdamonds[k].contexts[c].intervalsGoal == b.kdamonds[k].contexts[c].intervalsGoal
  }

  lemma EquivalentHasSameGoals(request: DamonConfig, observed: DamonConfig)
    requires EquivalentAfterKernelNormalization(request, observed)
    ensures SameGoals(request, observed)
  {
    if request != observed {
      var a := Normalize(request, observed);
      forall k | 0 <= k < |request.kdamonds| ensures |request.kdamonds[k].contexts| == |observed.kdamonds[k].contexts|
          && forall c | 0 <= c < |request.kdamonds[k].contexts| ::
               request.kdamonds[k].contexts[c].intervalsGoal == observed.kdamonds[k].contexts[c].intervalsGoal {
        assert a.kdamonds[k] == NormalizeKdamond(request.kdamonds[k], observed.kdamonds[k]) == observed.kdamonds[k];
        forall c | 0 <= c < |request.kdamonds[k].contexts|
          ensures request.kdamonds[k].contexts[c].intervalsGoal == observed.kdamonds[k].contexts[c].intervalsGoal
        {
          assert a.kdamonds[k].contexts[c] == NormalizeContext(request.kdamonds[k].contexts[c], observed.kdamonds[k].contexts[c]);
        }
      }
    }
  }

  /** Adopting retuned intervals leaves every tuning goal alone. */
  lemma AdoptTunedKeepsGoals(requested: DamonConfig, previous: Option<DamonConfig>, observed: DamonConfig)
    ensures SameGoals(observed, AdoptTuned(requested, previous, observed))
  {
  }

  lemma SameGoalsSameVolatile(K: Schema, a: DamonConfig, b: DamonConfig)
    requires SameGoals(a, b)
    ensures VolatilePaths(K, a) == VolatilePaths(K, b)
  {
    hide VolatilePaths;
    TunedAlikeSameVolatile(K, a, b);
  }

  /** A hierarchy read back as the request, tuned intervals apart, is tuned as requested. */
  lemma ReadBackIsTuned(K: Schema, t: Tree, request: DamonConfig, previous: Option<DamonConfig>, readback: DamonConfig)
    requires ViewsGoals(K, t, readback) && EquivalentAfterKernelNormalization(request, AdoptTuned(request, previous, readback))
    ensures TunedAs(K, t, VolatilePaths(K, request), |request.kdamonds|)
  {
    var adopted := AdoptTuned(request, previous, readback);
    EquivalentHasSameGoals(request, adopted);
    AdoptTunedKeepsGoals(request, previous, readback);
    SameGoalsSameVolatile(K, request, adopted);
    SameGoalsSameVolatile(K, readback, adopted);
  }

  lemma EquivalentIsTuned(K: Schema, t: Tree, request: DamonConfig, readback: DamonConfig)
    requires ViewsGoals(K, t, readback) && EquivalentAfterKernelNormalization(request, readback)
    ensures TunedAs(K, t, VolatilePaths(K, request), |request.kdamonds|)
  {
    EquivalentHasSameGoals(request, readback);
    SameGoalsSameVolatile(K, request, readback);
  }
}
