/** Whole staging runs: what an attempt leaves behind, why a retry with the same stale
    observation still succeeds, and that differential staging meets the same readback as
    full staging. */
module StagingRuns {
  import opened Outcomes
  import opened Config
  import opened FilterLayout
  import opened Equivalence
  import opened KernelNodes
  import opened Staging
  import opened StagingHierarchy
  import opened Support
  import opened Snapshots

  predicate KdamondFits(kernel: Kernel, c: KdamondConfig) {
    forall x | x in c.contexts :: ContextFits(kernel, x)
  }

  /** Every optional payload is present exactly where its type calls for it. */
  predicate Stageable(kernel: Kernel, config: DamonConfig) {
    forall k | k in config.kdamonds :: KdamondFits(kernel, k)
  }

  // ---------- kdamonds ----------

  ghost predicate ContextsReady(kernel: Kernel, nodes: seq<ContextNode>, c: seq<ContextConfig>, observed: Option<seq<ContextConfig>>) {
    observed.Some? && |observed.value| == |c| ==>
      |nodes| == |c| && forall i | 0 <= i < |c| :: ContextReady(kernel, nodes[i], c[i], Some(observed.value[i]))
  }

  ghost predicate ContextsStaged(kernel: Kernel, nodes: seq<ContextNode>, c: seq<ContextConfig>) {
    |nodes| == |c| && forall i | 0 <= i < |c| :: ContextEquivalent(c[i], ReadContext(kernel, nodes[i]))
  }

  function ReadRefresh(kernel: Kernel, n: KdamondNode): nat {
    if kernel.refresh then n.refreshInterval else 0
  }

  function ObservedContexts(observed: Option<KdamondConfig>): Option<seq<ContextConfig>> {
    if observed.Some? then Some(observed.value.contexts) else None
  }

  ghost predicate KdamondReady(kernel: Kernel, n: KdamondNode, c: KdamondConfig, observed: Option<KdamondConfig>) {
    && (observed.Some? && observed.value.refreshInterval == c.refreshInterval ==> ReadRefresh(kernel, n) == c.refreshInterval)
    && ContextsReady(kernel, n.contexts, c.contexts, ObservedContexts(observed))
  }

  lemma UnobservedContext(kernel: Kernel, n: ContextNode, c: ContextConfig)
    ensures ContextReady(kernel, n, c, None)
  {
  }

  lemma KdamondRealised(kernel: Kernel, n: KdamondNode, c: KdamondConfig)
    requires ReadRefresh(kernel, n) == c.refreshInterval && ContextsStaged(kernel, n.contexts, c.contexts)
    ensures KdamondEquivalent(c, ReadKdamond(kernel, n))
  {
    hide ContextEquivalent, ReadContext;
    var k := ReadKdamond(kernel, n);
    forall i | 0 <= i < |c.contexts| ensures ContextEquivalent(c.contexts[i], k.contexts[i]) {
      assert k.contexts[i] == ReadContext(kernel, n.contexts[i]);
    }
  }

  lemma KdamondSame(kernel: Kernel, n: KdamondNode, c: KdamondConfig)
    requires KdamondReady(kernel, n, c, Some(c))
    ensures KdamondEquivalent(c, ReadKdamond(kernel, n))
  {
    hide ContextReady, ContextEquivalent, ReadContext;
    forall i | 0 <= i < |c.contexts| ensures ContextEquivalent(c.contexts[i], ReadContext(kernel, n.contexts[i])) {
      ContextSame(kernel, n.contexts[i], c.contexts[i]);
    }
    KdamondRealised(kernel, n, c);
  }

  method StageContexts(kernel: Kernel, nodes: seq<ContextNode>, c: seq<ContextConfig>, observed: Option<seq<ContextConfig>>)
    returns (r: Result<()>, after: seq<ContextNode>)
    requires (forall x | x in c :: ContextFits(kernel, x)) && ContextsReady(kernel, nodes, c, observed)
    ensures ContextsReady(kernel, after, c, observed)
    ensures r.Ok? ==> ContextsStaged(kernel, after, c)
    ensures Countable(c) && (forall x | x in c :: ContextSupported(kernel, x)) ==> Granted(kernel, r)
  {
    hide ContextReady, ContextFits, ContextEquivalent, ReadContext;
    r, after := EnsureCount(kernel, nodes, |c|);
    if r.Err? { return; }
    for i := 0 to |c|
      invariant |after| == |c| && ContextsReady(kernel, after, c, observed)
      invariant forall j | 0 <= j < i :: ContextEquivalent(c[j], ReadContext(kernel, after[j]))
    {
      var context;
      UnobservedContext(kernel, after[i], c[i]);
      r, context := StageContext(kernel, after[i], c[i], ObservedAt(observed, c, i));
      after := after[i := context];
      if r.Err? { return; }
    }
    r := Ok(());
  }

  method StageKdamond(kernel: Kernel, n: KdamondNode, c: KdamondConfig, observed: Option<KdamondConfig>)
    returns (r: Result<()>, after: KdamondNode)
    requires KdamondFits(kernel, c) && KdamondReady(kernel, n, c, observed)
    ensures KdamondReady(kernel, after, c, observed)
    ensures r.Ok? ==> KdamondEquivalent(c, ReadKdamond(kernel, after))
    ensures KdamondSupported(kernel, c) ==> Granted(kernel, r)
  {
    hide ContextsReady, ContextsStaged, ContextFits, KdamondEquivalent, ReadKdamond;
    after := n;
    if observed == Some(c) {
      KdamondSame(kernel, n, c);
      return Ok(()), n;
    }
    if observed.None? || observed.value.refreshInterval != c.refreshInterval {
      if kernel.refresh {
        r := Write(kernel);
        if r.Err? { return; }
        after := after.(refreshInterval := c.refreshInterval);
      } else if c.refreshInterval != 0 {
        return Err(UnsupportedFeature), after;
      }
    }
    var contexts;
    r, contexts := StageContexts(kernel, after.contexts, c.contexts, ObservedContexts(observed));
    after := after.(contexts := contexts);
    if r.Ok? { KdamondRealised(kernel, after, c); }
  }

  // ---------- hierarchies ----------

  /** Wherever the observation lets staging skip something, it still reads as requested. This
      is all staging relies on, and every attempt keeps it. */
  ghost predicate Ready(kernel: Kernel, nodes: seq<KdamondNode>, config: DamonConfig, observed: Option<DamonConfig>) {
    observed.Some? && |observed.value.kdamonds| == |config.kdamonds| ==>
      && |nodes| == |config.kdamonds|
      && forall i | 0 <= i < |config.kdamonds| :: KdamondReady(kernel, nodes[i], config.kdamonds[i], Some(observed.value.kdamonds[i]))
  }

  lemma UnobservedKdamond(kernel: Kernel, n: KdamondNode, c: KdamondConfig)
    ensures KdamondReady(kernel, n, c, None)
  {
  }

  lemma HierarchyRealised(kernel: Kernel, nodes: seq<KdamondNode>, config: DamonConfig)
    requires |nodes| == |config.kdamonds|
    requires forall i | 0 <= i < |nodes| :: KdamondEquivalent(config.kdamonds[i], ReadKdamond(kernel, nodes[i]))
    ensures Equivalent(config, ReadHierarchy(kernel, nodes))
  {
    hide KdamondEquivalent, ReadKdamond;
    var h := ReadHierarchy(kernel, nodes);
    forall i | 0 <= i < |nodes| ensures KdamondEquivalent(config.kdamonds[i], h.kdamonds[i]) {
      assert h.kdamonds[i] == ReadKdamond(kernel, nodes[i]);
    }
  }

  /** One attempt. It may stop at any write; what it leaves is ready for the next. */
  method StageFrom(kernel: Kernel, nodes: seq<KdamondNode>, config: DamonConfig, observed: Option<DamonConfig>)
    returns (r: Result<()>, after: seq<KdamondNode>)
    requires Stageable(kernel, config) && Ready(kernel, nodes, config, observed)
    ensures Ready(kernel, after, config, observed)
    ensures r.Ok? ==> Equivalent(config, ReadHierarchy(kernel, after))
    ensures Supported(kernel, config) ==> Granted(kernel, r)
  {
    hide KdamondReady, KdamondFits, KdamondEquivalent, ReadKdamond, Equivalent, ReadHierarchy;
    if observed == Some(config) {
      forall i | 0 <= i < |nodes| ensures KdamondEquivalent(config.kdamonds[i], ReadKdamond(kernel, nodes[i])) {
        KdamondSame(kernel, nodes[i], config.kdamonds[i]);
      }
      HierarchyRealised(kernel, nodes, config);
      return Ok(()), nodes;
    }
    r, after := EnsureCount(kernel, nodes, |config.kdamonds|);
    if r.Err? { return; }
    ghost var list := if observed.Some? then Some(observed.value.kdamonds) else None;
    for i := 0 to |config.kdamonds|
      invariant |after| == |config.kdamonds| && Ready(kernel, after, config, observed)
      invariant forall j | 0 <= j < i :: KdamondEquivalent(config.kdamonds[j], ReadKdamond(kernel, after[j]))
    {
      var kdamond;
      UnobservedKdamond(kernel, after[i], config.kdamonds[i]);
      r, kdamond := StageKdamond(kernel, after[i], config.kdamonds[i],
                                 if observed.Some? then ObservedAt(Some(observed.value.kdamonds), config.kdamonds, i) else None);
      after := after[i := kdamond];
      if r.Err? { return; }
    }
    HierarchyRealised(kernel, after, config);
    r := Ok(());
  }

  /** Staging retried while the kernel is busy, always with the first observation. */
  method RetryStageFrom(kernel: Kernel, nodes: seq<KdamondNode>, config: DamonConfig, observed: Option<DamonConfig>)
    returns (r: Result<()>, after: seq<KdamondNode>)
    requires Stageable(kernel, config) && Ready(kernel, nodes, config, observed)
    ensures Ready(kernel, after, config, observed)
    ensures r.Ok? ==> EquivalentAfterKernelNormalization(config, ReadHierarchy(kernel, after))
    ensures Supported(kernel, config) ==> Granted(kernel, r)
  {
    hide Stageable, Ready, Equivalent, ReadHierarchy, Supported;
    r, after := StageFrom(kernel, nodes, config, observed);
    var retries := 0;
    while r.Err? && r.error.Busy? && retries < MAX_RETRIES
      invariant Ready(kernel, after, config, observed)
      invariant r.Ok? ==> Equivalent(config, ReadHierarchy(kernel, after))
      invariant Supported(kernel, config) ==> Granted(kernel, r)
      decreases MAX_RETRIES - retries
    {
      r, after := StageFrom(kernel, after, config, observed);
      retries := retries + 1;
    }
    if r.Ok? {
      HierarchyIsReadback(kernel, after);
      NormalizationDecidesEquivalence(config, ReadHierarchy(kernel, after));
    }
  }

  lemma HierarchyIsReadback(kernel: Kernel, nodes: seq<KdamondNode>)
    ensures IsReadback(ReadHierarchy(kernel, nodes))
  {
    hide ReadFilters, ReadbackForm;
    forall n: SchemeNode ensures ReadbackForm(ReadFilters(kernel, n)) { ReadFiltersIsReadback(kernel, n); }
    var h := ReadHierarchy(kernel, nodes);
    forall k, c, s | k in h.kdamonds && c in k.contexts && s in c.schemes ensures SchemeReadback(s) {
      var i :| 0 <= i < |nodes| && h.kdamonds[i] == k;
      var j :| 0 <= j < |k.contexts| && k.contexts[j] == c;
      var m :| 0 <= m < |c.schemes| && c.schemes[m] == s;
      ContextSchemes(kernel, nodes[i], j, m);
    }
  }

  lemma ContextSchemes(kernel: Kernel, n: KdamondNode, j: nat, m: nat)
    requires j < |n.contexts| && m < |n.contexts[j].schemes|
    ensures ReadKdamond(kernel, n).contexts[j].schemes[m].filters == ReadFilters(kernel, n.contexts[j].schemes[m])
  {
    hide ReadFilters, ReadQuota, ReadSample, ReadProbes;
    assert ReadKdamond(kernel, n).contexts[j] == ReadContext(kernel, n.contexts[j]);
    assert ReadContext(kernel, n.contexts[j]).schemes[m] == ReadScheme(kernel, n.contexts[j].schemes[m]);
  }

  // ---------- observations that may be relied on ----------

  lemma SchemeReadyFrom(kernel: Kernel, n: SchemeNode, c: SchemeConfig, observed: SchemeConfig)
    requires SchemeEquivalent(observed, ReadScheme(kernel, n))
    ensures SchemeReady(kernel, n, c, Some(observed))
  {
    hide ReadGoals, ReadFilters;
    if FiltersMatch(c.filters, observed.filters) {
      FiltersMatchTransitive(c.filters, observed.filters, ReadFilters(kernel, n));
    }
    hide FiltersMatch;
  }

  lemma TargetReadyFrom(kernel: Kernel, n: TargetNode, c: TargetConfig, observed: TargetConfig)
    requires observed == ReadTarget(kernel, n)
    ensures TargetReady(kernel, n, c, Some(observed))
  {
  }

  lemma ProbeReadyFrom(kernel: Kernel, n: ProbeNode, c: ProbeConfig, observed: ProbeConfig)
    requires observed == ReadProbe(kernel, n)
    ensures ProbeReady(kernel, n, c, Some(observed))
  {
  }

  lemma ListsReadyFrom(kernel: Kernel, n: ContextNode, c: ContextConfig, observed: ContextConfig)
    requires ContextEquivalent(observed, ReadContext(kernel, n))
    ensures ProbesReady(kernel, n.probes, c.probes, Some(observed.probes))
    ensures TargetsReady(kernel, n.targets, c.targets, Some(observed.targets))
    ensures SchemesReady(kernel, n.schemes, c.schemes, Some(observed.schemes))
  {
    hide SchemeReady, TargetReady, ProbeReady, SchemeEquivalent, ReadScheme, ReadTarget, ReadProbe, ReadSample;
    var x := ReadContext(kernel, n);
    assert observed.probes == x.probes && observed.targets == x.targets;
    forall i | 0 <= i < |n.targets| && i < |c.targets| ensures TargetReady(kernel, n.targets[i], c.targets[i], Some(x.targets[i])) {
      TargetReadyFrom(kernel, n.targets[i], c.targets[i], x.targets[i]);
    }
    if kernel.probes {
      forall i | 0 <= i < |n.probes| && i < |c.probes| ensures ProbeReady(kernel, n.probes[i], c.probes[i], Some(x.probes[i])) {
        ProbeReadyFrom(kernel, n.probes[i], c.probes[i], x.probes[i]);
      }
    }
    forall i | 0 <= i < |n.schemes| && i < |c.schemes| ensures SchemeReady(kernel, n.schemes[i], c.schemes[i], Some(observed.schemes[i])) {
      assert x.schemes[i] == ReadScheme(kernel, n.schemes[i]);
      SchemeReadyFrom(kernel, n.schemes[i], c.schemes[i], observed.schemes[i]);
    }
  }

  lemma ContextReadyFrom(kernel: Kernel, n: ContextNode, c: ContextConfig, observed: ContextConfig)
    requires ContextEquivalent(observed, ReadContext(kernel, n))
    ensures ContextReady(kernel, n, c, Some(observed))
  {
    ListsReadyFrom(kernel, n, c, observed);
    hide ProbesReady, TargetsReady, SchemesReady, ReadProbes, ReadSample, SchemeEquivalent;
    var x := ReadContext(kernel, n);
    assert observed == x.(schemes := observed.schemes);
  }

  /** Staging may rely on anything the staged hierarchy realises: on its own readback, and on
      a configuration it was just staged with and checked against. */
  lemma ReadyFrom(kernel: Kernel, nodes: seq<KdamondNode>, config: DamonConfig, observed: DamonConfig)
    requires EquivalentAfterKernelNormalization(observed, ReadHierarchy(kernel, nodes))
    ensures Ready(kernel, nodes, config, Some(observed))
  {
    NormalizationDecidesEquivalence(observed, ReadHierarchy(kernel, nodes));
    hide ContextEquivalent, ContextReady, ReadContext;
    var h := ReadHierarchy(kernel, nodes);
    forall i | 0 <= i < |nodes| && i < |config.kdamonds|
      ensures KdamondReady(kernel, nodes[i], config.kdamonds[i], Some(observed.kdamonds[i]))
    {
      assert h.kdamonds[i] == ReadKdamond(kernel, nodes[i]);
      KdamondReadyFrom(kernel, nodes[i], config.kdamonds[i], observed.kdamonds[i]);
    }
  }

  lemma KdamondReadyFrom(kernel: Kernel, n: KdamondNode, c: KdamondConfig, observed: KdamondConfig)
    requires KdamondEquivalent(observed, ReadKdamond(kernel, n))
    ensures KdamondReady(kernel, n, c, Some(observed))
  {
    hide ContextEquivalent, ContextReady, ReadContext;
    var k := ReadKdamond(kernel, n);
    forall i | 0 <= i < |n.contexts| && i < |c.contexts| ensures ContextReady(kernel, n.contexts[i], c.contexts[i], Some(observed.contexts[i])) {
      assert k.contexts[i] == ReadContext(kernel, n.contexts[i]);
      ContextReadyFrom(kernel, n.contexts[i], c.contexts[i], observed.contexts[i]);
    }
  }

  /** Differential staging refines full staging: whether it starts from the current readback or
      from nothing, success means a readback the request is equivalent to. */
  method StageEitherWay(kernel: Kernel, nodes: seq<KdamondNode>, config: DamonConfig, differential: bool)
    returns (r: Result<()>, after: seq<KdamondNode>)
    requires Stageable(kernel, config)
    ensures r.Ok? ==> EquivalentAfterKernelNormalization(config, ReadHierarchy(kernel, after))
    ensures Supported(kernel, config) ==> Granted(kernel, r)
  {
    var observed := if differential then Some(ReadHierarchy(kernel, nodes)) else None;
    if differential { ReadyFrom(kernel, nodes, config, observed.value); }
    hide Stageable, Ready, ReadHierarchy;
    r, after := RetryStageFrom(kernel, nodes, config, observed);
  }

  /** After a commit the obsolete targets are staged away, comparing against the request that
      was just staged and verified rather than against a fresh readback. */
  method StageCleaned(kernel: Kernel, nodes: seq<KdamondNode>, config: DamonConfig, selected: seq<nat>)
    returns (r: Result<()>, after: seq<KdamondNode>)
    requires Stageable(kernel, WithoutObsolete(config, selected))
    requires EquivalentAfterKernelNormalization(config, ReadHierarchy(kernel, nodes))
    ensures r.Ok? ==> EquivalentAfterKernelNormalization(WithoutObsolete(config, selected), ReadHierarchy(kernel, after))
    ensures Supported(kernel, WithoutObsolete(config, selected)) ==> Granted(kernel, r)
  {
    ReadyFrom(kernel, nodes, WithoutObsolete(config, selected), config);
    hide Stageable, Ready, ReadHierarchy, WithoutObsolete;
    r, after := RetryStageFrom(kernel, nodes, WithoutObsolete(config, selected), Some(config));
  }
}
