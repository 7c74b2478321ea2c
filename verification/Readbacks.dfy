/** What a readback accepted as a request looks like, field by field. */
module Readbacks {
  import opened Outcomes
  import opened Config
  import opened FilterLayout
  import opened Equivalence

  /** The requested pattern, or the same with the 64-bit size maximum cut to 32 bits. */
  predicate PatternRead(a: AccessPattern, o: AccessPattern) {
    o == a || (a.sizeMax == U64_MAX && o == a.(sizeMax := U32_MAX))
  }

  /** The requested filters, or those with every adaptive one in the directory its type belongs to. */
  ghost predicate FiltersRead(a: seq<FilterConfig>, o: seq<FilterConfig>) {
    || o == a
    || (if exists f | f in o :: f.placement.Core? || f.placement.Operations?
        then o == InLayer(Picked(a, ForCore), Core) + InLayer(Picked(a, ForOperations), Operations) + InLayer(Picked(a, ForUnified), Unified)
        else |o| == |a| && forall i | 0 <= i < |a| :: o[i] == if a[i].placement.Adaptive? then a[i].(placement := Unified) else a[i])
  }

  ghost predicate SchemeRead(a: SchemeConfig, o: SchemeConfig) {
    PatternRead(a.pattern, o.pattern) && FiltersRead(a.filters, o.filters) && o == a.(pattern := o.pattern, filters := o.filters)
  }

  /** Where the kernel tunes, or was tuning, the sampling and aggregation intervals are its own;
      nothing else may differ. */
  ghost predicate ContextRead(a: ContextConfig, tuned: bool, o: ContextConfig) {
    && |o.schemes| == |a.schemes| && (forall i | 0 <= i < |a.schemes| :: SchemeRead(a.schemes[i], o.schemes[i]))
    && o == a.(schemes := o.schemes, intervals := o.intervals)
    && o.intervals.update == a.intervals.update && (!tuned ==> o.intervals == a.intervals)
  }

  /** Context `c` of kdamond `k` has a tuning goal in `config`. */
  predicate TunedIn(config: Option<DamonConfig>, k: nat, c: nat) {
    config.Some? && k < |config.value.kdamonds| && c < |config.value.kdamonds[k].contexts|
    && config.value.kdamonds[k].contexts[c].intervalsGoal.aggregations != 0
  }

  ghost predicate KdamondRead(a: DamonConfig, previous: Option<DamonConfig>, o: DamonConfig, k: nat)
    requires k < |a.kdamonds| && k < |o.kdamonds|
  {
    && o.kdamonds[k].refreshInterval == a.kdamonds[k].refreshInterval && |o.kdamonds[k].contexts| == |a.kdamonds[k].contexts|
    && forall c | 0 <= c < |a.kdamonds[k].contexts| ::
         ContextRead(a.kdamonds[k].contexts[c], TunedIn(Some(a), k, c) || TunedIn(previous, k, c), o.kdamonds[k].contexts[c])
  }

  /** `o` is what the request `a` reads as, with `previous` in force before it. */
  ghost predicate ReadsAs(a: DamonConfig, previous: Option<DamonConfig>, o: DamonConfig) {
    |o.kdamonds| == |a.kdamonds| && forall k | 0 <= k < |a.kdamonds| :: KdamondRead(a, previous, o, k)
  }

  lemma PatternReadIs(a: AccessPattern, o: AccessPattern)
    ensures PatternRead(a, o) <==> PatternEquivalent(a, o)
  {
  }

  lemma FiltersReadIs(a: seq<FilterConfig>, o: seq<FilterConfig>)
    ensures FiltersRead(a, o) <==> FiltersMatch(a, o)
  {
    CanonicalByType(a, o);
    hide Picked, Layered, PlaceAll;
    if !Split(o) && FiltersRead(a, o) && o != a { assert Canonical(a, o) == o; }
  }

  lemma SchemeReadIs(a: SchemeConfig, o: SchemeConfig)
    ensures SchemeRead(a, o) <==> SchemeEquivalent(a, o)
  {
    PatternReadIs(a.pattern, o.pattern);
    FiltersReadIs(a.filters, o.filters);
    hide PatternRead, PatternEquivalent, FiltersRead, FiltersMatch;
  }

  lemma ContextReadIs(a: ContextConfig, wasTuned: bool, o: ContextConfig)
    ensures ContextRead(a, a.intervalsGoal.aggregations != 0 || wasTuned, o) <==> ContextEquivalent(a, AdoptTunedContext(a, wasTuned, o))
  {
    forall i | 0 <= i < |a.schemes| && i < |o.schemes| ensures SchemeRead(a.schemes[i], o.schemes[i]) <==> SchemeEquivalent(a.schemes[i], o.schemes[i]) {
      SchemeReadIs(a.schemes[i], o.schemes[i]);
    }
    hide SchemeRead, SchemeEquivalent;
  }

  lemma KdamondReadIs(a: DamonConfig, previous: Option<DamonConfig>, o: DamonConfig, k: nat)
    requires k < |a.kdamonds| && k < |o.kdamonds|
    ensures KdamondRead(a, previous, o, k) <==> KdamondEquivalent(a.kdamonds[k], AdoptTuned(a, previous, o).kdamonds[k])
  {
    var adopted := AdoptTuned(a, previous, o).kdamonds[k];
    forall c | 0 <= c < |a.kdamonds[k].contexts| && c < |o.kdamonds[k].contexts|
      ensures ContextRead(a.kdamonds[k].contexts[c], TunedIn(Some(a), k, c) || TunedIn(previous, k, c), o.kdamonds[k].contexts[c])
              <==> ContextEquivalent(a.kdamonds[k].contexts[c], adopted.contexts[c])
    {
      ContextReadIs(a.kdamonds[k].contexts[c], TunedIn(previous, k, c), o.kdamonds[k].contexts[c]);
    }
    hide ContextRead, ContextEquivalent, AdoptTunedContext;
  }

  /** What is adopted from a readback before it is compared makes exactly this acceptable. */
  lemma AdoptTunedDecides(a: DamonConfig, previous: Option<DamonConfig>, o: DamonConfig)
    ensures Equivalent(a, AdoptTuned(a, previous, o)) <==> ReadsAs(a, previous, o)
  {
    forall k | 0 <= k < |a.kdamonds| && k < |o.kdamonds|
      ensures KdamondRead(a, previous, o, k) <==> KdamondEquivalent(a.kdamonds[k], AdoptTuned(a, previous, o).kdamonds[k])
    {
      KdamondReadIs(a, previous, o, k);
    }
    hide KdamondRead, KdamondEquivalent, AdoptTunedKdamond;
  }

  /** A readback that passes the comparison reads as the request. Of what the readers produce,
      every such readback passes. */
  lemma AcceptedReadback(a: DamonConfig, previous: Option<DamonConfig>, o: DamonConfig)
    ensures EquivalentAfterKernelNormalization(a, AdoptTuned(a, previous, o)) ==> ReadsAs(a, previous, o)
    ensures IsReadback(o) ==> (EquivalentAfterKernelNormalization(a, AdoptTuned(a, previous, o)) <==> ReadsAs(a, previous, o))
  {
    NormalizationDecidesEquivalence(a, AdoptTuned(a, previous, o));
    AdoptTunedDecides(a, previous, o);
    if IsReadback(o) { AdoptedIsReadback(a, previous, o); }
  }

  lemma AdoptedIsReadback(a: DamonConfig, previous: Option<DamonConfig>, o: DamonConfig)
    requires IsReadback(o)
    ensures IsReadback(AdoptTuned(a, previous, o))
  {
    var adopted := AdoptTuned(a, previous, o);
    hide SchemeReadback;
    forall k, c, s | k in adopted.kdamonds && c in k.contexts && s in c.schemes ensures SchemeReadback(s) {
      var i :| 0 <= i < |adopted.kdamonds| && adopted.kdamonds[i] == k;
      var j :| 0 <= j < |k.contexts| && k.contexts[j] == c;
      assert s in o.kdamonds[i].contexts[j].schemes && o.kdamonds[i] in o.kdamonds && o.kdamonds[i].contexts[j] in o.kdamonds[i].contexts;
    }
  }

  /** Where nothing is adopted, the intervals are the requested ones too. */
  ghost predicate ReadsExactly(a: DamonConfig, o: DamonConfig) {
    && ReadsAs(a, None, o)
    && forall k, c | 0 <= k < |a.kdamonds| && k < |o.kdamonds| && 0 <= c < |a.kdamonds[k].contexts| ::
         c < |o.kdamonds[k].contexts| && o.kdamonds[k].contexts[c].intervals == a.kdamonds[k].contexts[c].intervals
  }

  lemma EquivalentReadback(a: DamonConfig, o: DamonConfig)
    ensures EquivalentAfterKernelNormalization(a, o) ==> ReadsExactly(a, o)
    ensures IsReadback(o) ==> (EquivalentAfterKernelNormalization(a, o) <==> ReadsExactly(a, o))
  {
    NormalizationDecidesEquivalence(a, o);
    hide SchemeEquivalent, SchemeRead;
    if Equivalent(a, o) || ReadsExactly(a, o) {
      var adopted := AdoptTuned(a, None, o);
      forall k | 0 <= k < |o.kdamonds| && k < |a.kdamonds| && (KdamondEquivalent(a.kdamonds[k], o.kdamonds[k]) || ReadsExactly(a, o))
        ensures adopted.kdamonds[k] == o.kdamonds[k]
      {
        assert KdamondRead(a, None, o, k) || KdamondEquivalent(a.kdamonds[k], o.kdamonds[k]);
        forall c | 0 <= c < |o.kdamonds[k].contexts| ensures adopted.kdamonds[k].contexts[c] == o.kdamonds[k].contexts[c] {
          assert o.kdamonds[k].contexts[c].intervals == a.kdamonds[k].contexts[c].intervals;
        }
        assert adopted.kdamonds[k].contexts == o.kdamonds[k].contexts;
      }
      assert adopted.kdamonds == o.kdamonds;
      AdoptTunedDecides(a, None, o);
      hide KdamondRead, AdoptTuned;
      if Equivalent(a, o) { SameIntervals(a, o); }
    }
  }

  lemma SameIntervals(a: DamonConfig, o: DamonConfig)
    requires Equivalent(a, o)
    ensures |a.kdamonds| == |o.kdamonds|
    ensures forall k, c | 0 <= k < |a.kdamonds| && 0 <= c < |a.kdamonds[k].contexts| ::
              c < |o.kdamonds[k].contexts| && o.kdamonds[k].contexts[c].intervals == a.kdamonds[k].contexts[c].intervals
  {
    hide SchemeEquivalent;
    forall k, c | 0 <= k < |a.kdamonds| && 0 <= c < |a.kdamonds[k].contexts|
      ensures c < |o.kdamonds[k].contexts| && o.kdamonds[k].contexts[c].intervals == a.kdamonds[k].contexts[c].intervals
    {
      assert KdamondEquivalent(a.kdamonds[k], o.kdamonds[k]);
      assert ContextEquivalent(a.kdamonds[k].contexts[c], o.kdamonds[k].contexts[c]);
    }
  }

  // ---------- what an update must leave alone ----------

  /** The request describes every kdamond it does not select as it is staged now. */
  ghost predicate KeepsUnselected(a: DamonConfig, previous: DamonConfig, selected: seq<nat>) {
    forall i | 0 <= i < |a.kdamonds| && i !in selected :: i < |previous.kdamonds| && KdamondRead(a, Some(previous), previous, i)
  }

  /** A target marked obsolete is a current target at that place, otherwise unchanged. */
  ghost predicate MarksExisting(a: DamonConfig, previous: DamonConfig) {
    forall k, c | 0 <= k < |a.kdamonds| && k < |previous.kdamonds| && 0 <= c < |a.kdamonds[k].contexts| && c < |previous.kdamonds[k].contexts| ::
      MarksExistingIn(a.kdamonds[k].contexts[c].targets, previous.kdamonds[k].contexts[c].targets)
  }

  ghost predicate MarksExistingIn(targets: seq<TargetConfig>, current: seq<TargetConfig>) {
    forall n | 0 <= n < |targets| && targets[n].obsolete :: n < |current| && current[n] == TargetConfig(targets[n].pid, false, targets[n].regions)
  }

  lemma SingleEquivalent(a: KdamondConfig, o: KdamondConfig)
    ensures EquivalentAfterKernelNormalization(DamonConfig([a]), DamonConfig([o])) ==> KdamondEquivalent(a, o)
    ensures IsReadback(DamonConfig([o])) ==> (EquivalentAfterKernelNormalization(DamonConfig([a]), DamonConfig([o])) <==> KdamondEquivalent(a, o))
  {
    NormalizationDecidesEquivalence(DamonConfig([a]), DamonConfig([o]));
    hide KdamondEquivalent, EquivalentAfterKernelNormalization, SchemeReadback;
    var x, y := DamonConfig([a]), DamonConfig([o]);
    assert x.kdamonds[0] == a && y.kdamonds[0] == o;
    assert Equivalent(x, y) ==> KdamondEquivalent(x.kdamonds[0], y.kdamonds[0]);
  }
}
