/** Which configurations a kernel has the attributes for. They are those some staged nodes
    read back as: a kernel lacking an attribute can only ever read its neutral value. */
module Support {
  import opened Outcomes
  import opened Config
  import opened FilterLayout
  import opened KernelNodes

  /** The kernel counts children in a signed 32-bit number. */
  predicate Countable<E>(items: seq<E>) {
    |items| <= I32_MAX
  }

  predicate TargetSupported(kernel: Kernel, t: TargetConfig) {
    (t.obsolete ==> kernel.obsolete) && (t.regions != [] ==> kernel.regions) && Countable(t.regions)
  }

  predicate ProbeSupported(kernel: Kernel, p: ProbeConfig) {
    && (p.weight != 0 ==> kernel.probeWeight) && (p.preparations != [] ==> kernel.preparations)
    && Countable(p.filters) && Countable(p.preparations)
  }

  predicate ProbesSupported(kernel: Kernel, probes: seq<ProbeConfig>) {
    (probes != [] ==> kernel.probes) && Countable(probes) && forall p | p in probes :: ProbeSupported(kernel, p)
  }

  predicate SampleSupported(kernel: Kernel, c: SampleControl) {
    (c != DEFAULT_SAMPLE ==> kernel.sample) && Countable(c.filters)
  }

  predicate GoalsSupported(kernel: Kernel, goals: seq<GoalConfig>) {
    (goals != [] ==> kernel.goals) && Countable(goals) && forall g | g in goals && g.metric != UserInput :: kernel.goalMetric
  }

  predicate QuotaSupported(kernel: Kernel, q: QuotaConfig) {
    && GoalsSupported(kernel, q.goals)
    && (q.goalTuner != ConsistentTuner ==> kernel.goalTuner)
    && (q.failureNumerator != 0 ==> kernel.failureNumerator)
    && (q.failureDenominator != 0 ==> kernel.failureDenominator)
  }

  predicate LayerSupported(kernel: Kernel, present: bool, filters: seq<FilterConfig>) {
    (filters != [] ==> present) && Countable(filters) && forall f | f in filters && f.allow :: kernel.filterAllow
  }

  /** Every filter has a directory: one of the three where the kernel splits them, the only
      one elsewhere. */
  predicate FiltersSupported(kernel: Kernel, filters: seq<FilterConfig>) {
    if kernel.coreFilters || kernel.operationsFilters then
      && LayerSupported(kernel, kernel.coreFilters, Picked(filters, ForCore))
      && LayerSupported(kernel, kernel.operationsFilters, Picked(filters, ForOperations))
      && LayerSupported(kernel, kernel.unifiedFilters, Picked(filters, ForUnified))
    else
      !Split(filters) && LayerSupported(kernel, kernel.unifiedFilters, filters)
  }

  predicate SchemeSupported(kernel: Kernel, s: SchemeConfig) {
    && (s.applyInterval != 0 ==> kernel.applyInterval) && (s.targetNode.Some? ==> kernel.targetNode)
    && QuotaSupported(kernel, s.quota) && FiltersSupported(kernel, s.filters)
    && (s.destinations != [] ==> kernel.destinations) && Countable(s.destinations)
    && (s.snapshotLimit != 0 ==> kernel.snapshotLimit)
  }

  predicate IdentitySupported(kernel: Kernel, c: ContextConfig) {
    && (c.addressUnit != 1 ==> kernel.addressUnit) && (c.paused ==> kernel.pause)
    && (c.operationAttributes != DEFAULT_ATTRIBUTES ==> kernel.operationAttributes)
  }

  predicate ChildrenSupported(kernel: Kernel, c: ContextConfig) {
    && ProbesSupported(kernel, c.probes) && SampleSupported(kernel, c.sampleControl)
    && Countable(c.targets) && (forall t | t in c.targets :: TargetSupported(kernel, t))
    && Countable(c.schemes) && forall s | s in c.schemes :: SchemeSupported(kernel, s)
  }

  predicate ContextSupported(kernel: Kernel, c: ContextConfig) {
    && IdentitySupported(kernel, c) && ChildrenSupported(kernel, c)
    && (c.intervalsGoal != DEFAULT_GOAL ==> kernel.intervalsGoal)
  }

  predicate KdamondSupported(kernel: Kernel, k: KdamondConfig) {
    (k.refreshInterval != 0 ==> kernel.refresh) && Countable(k.contexts) && forall c | c in k.contexts :: ContextSupported(kernel, c)
  }

  predicate Supported(kernel: Kernel, config: DamonConfig) {
    Countable(config.kdamonds) && forall k | k in config.kdamonds :: KdamondSupported(kernel, k)
  }

  // ---------- what reads back is supported ----------

  /** No list is longer than the kernel can count. */
  predicate SchemeSized(s: SchemeConfig) {
    Countable(s.quota.goals) && Countable(s.filters) && Countable(s.destinations)
  }

  predicate ContextSized(c: ContextConfig) {
    && Countable(c.probes) && (forall p | p in c.probes :: Countable(p.filters) && Countable(p.preparations))
    && Countable(c.sampleControl.filters)
    && Countable(c.targets) && (forall t | t in c.targets :: Countable(t.regions))
    && Countable(c.schemes) && forall s | s in c.schemes :: SchemeSized(s)
  }

  predicate Sized(config: DamonConfig) {
    Countable(config.kdamonds)
    && forall k | k in config.kdamonds :: Countable(k.contexts) && forall c | c in k.contexts :: ContextSized(c)
  }

  lemma {:induction false} PickedIsShorter(filters: seq<FilterConfig>, test: FilterConfig -> bool)
    ensures |Picked(filters, test)| <= |filters|
    decreases |filters|
  {
    if filters != [] { PickedIsShorter(filters[1..], test); }
  }

  lemma ReadFilterKeeps(kernel: Kernel, placement: FilterPlacement, n: FilterNode)
    ensures var f := ReadFilter(kernel, placement, n); f.placement == placement && (f.allow ==> kernel.filterAllow)
  {
    match n.filterType
    case UnknownFilter(_) =>
    case _ =>
  }

  lemma LayerPlacement(kernel: Kernel, placement: FilterPlacement, present: bool, nodes: seq<FilterNode>)
    ensures forall f | f in ReadLayer(kernel, placement, present, nodes) :: present && f.placement == placement && (f.allow ==> kernel.filterAllow)
  {
    hide ReadFilter;
    forall f | f in ReadLayer(kernel, placement, present, nodes)
      ensures present && f.placement == placement && (f.allow ==> kernel.filterAllow)
    {
      var i :| 0 <= i < |nodes| && f == FilterReader(kernel, placement)(nodes[i]);
      ReadFilterKeeps(kernel, placement, nodes[i]);
    }
  }

  /** A filter read back lies in a directory the kernel has. */
  predicate Filed(kernel: Kernel, f: FilterConfig) {
    && (f.allow ==> kernel.filterAllow)
    && match f.placement
       case Core => kernel.coreFilters
       case Operations => kernel.operationsFilters
       case Unified => kernel.unifiedFilters
       case Adaptive => false
  }

  lemma ReadFiltersFiled(kernel: Kernel, n: SchemeNode)
    ensures forall f | f in ReadFilters(kernel, n) :: Filed(kernel, f)
  {
    LayerPlacement(kernel, Core, kernel.coreFilters, n.core);
    LayerPlacement(kernel, Operations, kernel.operationsFilters, n.operations);
    LayerPlacement(kernel, Unified, kernel.unifiedFilters, n.unified);
    hide ReadLayer;
  }

  /** Each requested filter reads back as itself, up to its placement. */
  lemma MatchedFiled(kernel: Kernel, filters: seq<FilterConfig>, read: seq<FilterConfig>)
    requires FiltersMatch(filters, read) && forall f | f in read :: Filed(kernel, f)
    ensures forall f | f in filters :: Filed(kernel, Place(f, true)) || Filed(kernel, Place(f, false))
  {
    forall f | f in filters ensures Filed(kernel, Place(f, true)) || Filed(kernel, Place(f, false)) {
      var i :| 0 <= i < |filters| && filters[i] == f;
      assert PlaceAll(filters, true)[i] == Place(f, true) && PlaceAll(filters, false)[i] == Place(f, false);
      LayeredMembers(PlaceAll(filters, true));
    }
  }

  lemma FiledByType(kernel: Kernel, f: FilterConfig)
    requires (Filed(kernel, Place(f, true)) || Filed(kernel, Place(f, false))) && kernel.coreFilters == kernel.operationsFilters
    ensures (f.allow ==> kernel.filterAllow) && (f.placement.Unified? ==> kernel.unifiedFilters)
    ensures !kernel.coreFilters ==> kernel.unifiedFilters && f.placement != Core && f.placement != Operations
  {
  }

  /** Kernels gained both split directories at once. */
  lemma ReadFiltersSupported(kernel: Kernel, n: SchemeNode, filters: seq<FilterConfig>)
    requires FiltersMatch(filters, ReadFilters(kernel, n)) && Countable(filters) && kernel.coreFilters == kernel.operationsFilters
    ensures FiltersSupported(kernel, filters)
  {
    ReadFiltersFiled(kernel, n);
    MatchedFiled(kernel, filters, ReadFilters(kernel, n));
    PickedIsShorter(filters, ForCore);
    PickedIsShorter(filters, ForOperations);
    PickedIsShorter(filters, ForUnified);
    forall f | f in filters
      ensures (f.allow ==> kernel.filterAllow) && (f.placement.Unified? ==> kernel.unifiedFilters)
      ensures !kernel.coreFilters ==> kernel.unifiedFilters && f.placement != Core && f.placement != Operations
    {
      FiledByType(kernel, f);
    }
    hide ReadFilters, FiltersMatch, Filed, Place, Picked;
    if filters != [] { assert filters[0] in filters; }
    var unified := Picked(filters, ForUnified);
    if unified != [] { assert unified[0] in unified; }
  }

  lemma ReadSchemeSupported(kernel: Kernel, n: SchemeNode, s: SchemeConfig)
    requires SchemeEquivalent(s, ReadScheme(kernel, n)) && SchemeSized(s) && kernel.coreFilters == kernel.operationsFilters
    ensures SchemeSupported(kernel, s)
  {
    ReadFiltersSupported(kernel, n, s.filters);
    hide FiltersMatch, ReadFilters, FiltersSupported, PatternEquivalent;
    var x := ReadScheme(kernel, n);
    assert s == x.(pattern := s.pattern, filters := s.filters);
    assert GoalsSupported(kernel, s.quota.goals) by {
      forall g | g in s.quota.goals && g.metric != UserInput ensures kernel.goalMetric {
        var i :| 0 <= i < |n.quota.goals| && g == GoalReader(kernel)(n.quota.goals[i]);
      }
    }
  }

  lemma ReadProbesSupported(kernel: Kernel, nodes: seq<ProbeNode>)
    requires Countable(ReadProbes(kernel, nodes))
    requires forall p | p in ReadProbes(kernel, nodes) :: Countable(p.filters) && Countable(p.preparations)
    ensures ProbesSupported(kernel, ReadProbes(kernel, nodes))
  {
    forall p | p in ReadProbes(kernel, nodes) ensures ProbeSupported(kernel, p) {
      var i :| 0 <= i < |nodes| && p == ProbeReader(kernel)(nodes[i]);
    }
  }

  lemma ReadTargetsSupported(kernel: Kernel, nodes: seq<TargetNode>)
    requires forall t | t in Each(TargetReader(kernel), nodes) :: Countable(t.regions)
    ensures forall t | t in Each(TargetReader(kernel), nodes) :: TargetSupported(kernel, t)
  {
    forall t | t in Each(TargetReader(kernel), nodes) ensures TargetSupported(kernel, t) {
      var i :| 0 <= i < |nodes| && t == TargetReader(kernel)(nodes[i]);
    }
  }

  lemma ReadContextSupported(kernel: Kernel, n: ContextNode, c: ContextConfig)
    requires ContextEquivalent(c, ReadContext(kernel, n)) && ContextSized(c) && kernel.coreFilters == kernel.operationsFilters
    ensures ContextSupported(kernel, c)
  {
    var x := ReadContext(kernel, n);
    assert c == x.(schemes := c.schemes);
    ReadProbesSupported(kernel, n.probes);
    ReadTargetsSupported(kernel, n.targets);
    hide SchemeEquivalent, SchemeSupported, SchemeSized, ReadScheme, ReadProbes, ProbesSupported, TargetSupported;
    forall s | s in c.schemes ensures SchemeSupported(kernel, s) {
      var i :| 0 <= i < |c.schemes| && c.schemes[i] == s;
      assert x.schemes[i] == ReadScheme(kernel, n.schemes[i]);
      ReadSchemeSupported(kernel, n.schemes[i], s);
    }
  }

  /** Only supported configurations can ever be the readback staging aims at. */
  lemma ReadIsSupported(kernel: Kernel, nodes: seq<KdamondNode>, config: DamonConfig)
    requires Equivalent(config, ReadHierarchy(kernel, nodes)) && Sized(config) && kernel.coreFilters == kernel.operationsFilters
    ensures Supported(kernel, config)
  {
    hide ContextEquivalent, ContextSized, ContextSupported, ReadContext;
    var h := ReadHierarchy(kernel, nodes);
    forall k | k in config.kdamonds ensures KdamondSupported(kernel, k) {
      var i :| 0 <= i < |config.kdamonds| && config.kdamonds[i] == k;
      assert h.kdamonds[i] == ReadKdamond(kernel, nodes[i]);
      forall c | c in k.contexts ensures ContextSupported(kernel, c) {
        var j :| 0 <= j < |k.contexts| && k.contexts[j] == c;
        assert h.kdamonds[i].contexts[j] == ReadContext(kernel, nodes[i].contexts[j]);
        ReadContextSupported(kernel, nodes[i].contexts[j], c);
      }
    }
  }
}
