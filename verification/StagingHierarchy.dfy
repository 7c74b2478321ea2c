/** Differential staging of schemes, contexts, kdamonds and whole hierarchies. From any
    observation that is still true where staging relies on it, success reads back as the
    request, however often the attempt was cut short before. */
module StagingHierarchy {
  import opened Outcomes
  import opened Config
  import opened FilterLayout
  import opened KernelNodes
  import opened Staging
  import opened Support

  // ---------- filters ----------

  method StageFilter(kernel: Kernel, placement: FilterPlacement, n: FilterNode, c: FilterConfig) returns (r: Result<()>, after: FilterNode)
    requires FilterFits(kernel, c)
    ensures r.Ok? ==> ReadFilter(kernel, placement, after) == c.(placement := placement)
    ensures (c.allow ==> kernel.filterAllow) ==> Granted(kernel, r)
  {
    hide FilterFits, PayloadHeld, ReadFilter;
    after := n;
    r := Write(kernel);
    if r.Err? { return; }
    after := after.(filterType := c.filterType);
    r := Write(kernel);
    if r.Err? { return; }
    after := after.(matching := c.matching);
    if kernel.filterAllow {
      r := Write(kernel);
      if r.Err? { return; }
      after := after.(allow := c.allow);
    } else if c.allow {
      return Err(UnsupportedFeature), after;
    }
    r, after := StageFilterPayload(kernel, after, c);
    if r.Ok? { FilterReads(kernel, placement, after, c); }
  }

  /** The node holds every payload the request carries. */
  predicate PayloadHeld(n: FilterNode, c: FilterConfig) {
    && (c.cgroupPath.Some? ==> n.cgroup == c.cgroupPath.value)
    && (c.addressRange.Some? ==> (n.start, n.end) == c.addressRange.value)
    && (c.sizeRange.Some? ==> (n.min, n.max) == c.sizeRange.value)
    && (c.targetIndex.Some? ==> n.target == c.targetIndex.value)
    && (c.weightedSumRange.Some? ==> (n.min, n.max) == c.weightedSumRange.value)
  }

  lemma FilterReads(kernel: Kernel, placement: FilterPlacement, n: FilterNode, c: FilterConfig)
    requires FilterFits(kernel, c) && PayloadHeld(n, c)
    requires n.filterType == c.filterType && n.matching == c.matching && (kernel.filterAllow && n.allow) == c.allow
    ensures ReadFilter(kernel, placement, n) == c.(placement := placement)
  {
  }

  /** Whatever payload the request carries, file by file. */
  method StageFilterPayload(kernel: Kernel, n: FilterNode, c: FilterConfig) returns (r: Result<()>, after: FilterNode)
    requires FilterFits(kernel, c)
    ensures after.filterType == n.filterType && after.matching == n.matching && after.allow == n.allow
    ensures r.Ok? ==> PayloadHeld(after, c)
    ensures Granted(kernel, r)
  {
    after := n;
    r := Ok(());
    if c.cgroupPath.Some? {
      r := Write(kernel);
      if r.Err? { return; }
      after := after.(cgroup := c.cgroupPath.value);
    }
    if c.addressRange.Some? {
      r := Write(kernel);
      if r.Err? { return; }
      after := after.(start := c.addressRange.value.0);
      r := Write(kernel);
      if r.Err? { return; }
      after := after.(end := c.addressRange.value.1);
    }
    if c.sizeRange.Some? {
      r := Write(kernel);
      if r.Err? { return; }
      after := after.(min := c.sizeRange.value.0);
      r := Write(kernel);
      if r.Err? { return; }
      after := after.(max := c.sizeRange.value.1);
    }
    if c.targetIndex.Some? {
      r := Write(kernel);
      if r.Err? { return; }
      after := after.(target := c.targetIndex.value);
    }
    if c.weightedSumRange.Some? {
      r := Write(kernel);
      if r.Err? { return; }
      after := after.(min := c.weightedSumRange.value.0);
      r := Write(kernel);
      if r.Err? { return; }
      after := after.(max := c.weightedSumRange.value.1);
    }
  }

  /** One layer, if the kernel has it; filters for a layer it lacks are refused. */
  method StageFilterLayer(kernel: Kernel, placement: FilterPlacement, present: bool, nodes: seq<FilterNode>, filters: seq<FilterConfig>)
    returns (r: Result<()>, after: seq<FilterNode>)
    requires forall f | f in filters :: FilterFits(kernel, f)
    ensures r.Ok? ==> ReadLayer(kernel, placement, present, after) == InLayer(filters, placement)
    ensures LayerSupported(kernel, present, filters) ==> Granted(kernel, r)
  {
    after := nodes;
    if !present { return if filters == [] then Ok(()) else Err(UnsupportedFeature), nodes; }
    r, after := EnsureCount(kernel, nodes, |filters|);
    if r.Err? { return; }
    for i := 0 to |filters|
      invariant |after| == |filters|
      invariant forall j | 0 <= j < i :: ReadFilter(kernel, placement, after[j]) == filters[j].(placement := placement)
    {
      var filter;
      r, filter := StageFilter(kernel, placement, after[i], filters[i]);
      after := after[i := filter];
      if r.Err? { return; }
    }
    r := Ok(());
  }

  /** What a scheme's filter directories read as after staging. */
  ghost predicate FiltersStaged(kernel: Kernel, n: SchemeNode, filters: seq<FilterConfig>) {
    ReadFilters(kernel, n) == Canonical(filters, ReadFilters(kernel, n))
  }

  /** What each directory of a split kernel holds, told from placements and types. */
  ghost predicate SplitHolds(kernel: Kernel, n: SchemeNode, filters: seq<FilterConfig>) {
    && ReadLayer(kernel, Core, kernel.coreFilters, n.core) == InLayer(Picked(filters, ForCore), Core)
    && ReadLayer(kernel, Operations, kernel.operationsFilters, n.operations) == InLayer(Picked(filters, ForOperations), Operations)
    && ReadLayer(kernel, Unified, kernel.unifiedFilters, n.unified) == InLayer(Picked(filters, ForUnified), Unified)
  }

  /** Spreads a filter list over the layers a kernel has. Reading the layers back gives the
      canonical form of the list with respect to that very readback. */
  method StageSemanticFilters(kernel: Kernel, n: SchemeNode, filters: seq<FilterConfig>) returns (r: Result<()>, after: SchemeNode)
    requires forall f | f in filters :: FilterFits(kernel, f)
    ensures after == n.(core := after.core, operations := after.operations, unified := after.unified)
    ensures r.Ok? ==> FiltersStaged(kernel, after, filters)
    ensures r.Ok? && (kernel.coreFilters || kernel.operationsFilters) ==> SplitHolds(kernel, after, filters)
    ensures r.Ok? && !kernel.coreFilters && !kernel.operationsFilters ==>
              !Split(filters) && ReadFilters(kernel, after) == InLayer(filters, Unified)
    ensures FiltersSupported(kernel, filters) ==> Granted(kernel, r)
  {
    after := n;
    if kernel.coreFilters || kernel.operationsFilters {
      r, after := StageSplit(kernel, n, filters);
    } else if kernel.unifiedFilters {
      if Split(filters) { return Err(UnsupportedFeature), n; }
      var unified;
      r, unified := StageFilterLayer(kernel, Unified, true, n.unified, filters);
      after := after.(unified := unified);
      if r.Ok? {
        UnifiedReadsBack(kernel, after, filters);
        NoLayer(kernel, Core, after.core);
        NoLayer(kernel, Operations, after.operations);
      }
    } else if filters == [] {
      r := Ok(());
      assert ReadFilters(kernel, after) == [] && PlaceAll([], false) == [];
    } else {
      r := Err(UnsupportedFeature);
    }
  }

  method StageSplit(kernel: Kernel, n: SchemeNode, filters: seq<FilterConfig>) returns (r: Result<()>, after: SchemeNode)
    requires (kernel.coreFilters || kernel.operationsFilters) && forall f | f in filters :: FilterFits(kernel, f)
    ensures after == n.(core := after.core, operations := after.operations, unified := after.unified)
    ensures r.Ok? ==> FiltersStaged(kernel, after, filters) && SplitHolds(kernel, after, filters)
    ensures FiltersSupported(kernel, filters) ==> Granted(kernel, r)
  {
    DestinedByType(filters);
    after := n;
    var core := SelectLayer(filters, Core);
    var operations := SelectLayer(filters, Operations);
    var unified := SelectLayer(filters, Unified);
    hide ReadLayer, InLayer, FilterFits, Destined, Picked;
    var nodes;
    r, nodes := StageFilterLayer(kernel, Core, kernel.coreFilters, n.core, core);
    after := after.(core := nodes);
    if r.Err? { return; }
    r, nodes := StageFilterLayer(kernel, Operations, kernel.operationsFilters, n.operations, operations);
    after := after.(operations := nodes);
    if r.Err? { return; }
    r, nodes := StageFilterLayer(kernel, Unified, kernel.unifiedFilters, n.unified, unified);
    after := after.(unified := nodes);
    if r.Err? { return; }
    SplitReadsBack(kernel, after, filters);
  }

  method SelectLayer(filters: seq<FilterConfig>, placement: FilterPlacement) returns (layer: seq<FilterConfig>)
    ensures layer == Destined(filters, placement)
  {
    layer := [];
    for i := 0 to |filters|
      invariant layer == Destined(filters[..i], placement)
    {
      DestinedOneMore(filters, i, placement);
      if Place(filters[i], true).placement == placement { layer := layer + [filters[i]]; }
    }
    assert filters[..|filters|] == filters;
  }

  lemma {:induction false} DestinedOneMore(filters: seq<FilterConfig>, i: nat, placement: FilterPlacement)
    requires i < |filters|
    ensures Destined(filters[..i + 1], placement) ==
              Destined(filters[..i], placement) + if Place(filters[i], true).placement == placement then [filters[i]] else []
    decreases i
  {
    if i == 0 {
      assert filters[..1] == [filters[0]] && filters[..1][1..] == [] && filters[..0] == [];
    } else {
      DestinedOneMore(filters[1..], i - 1, placement);
      assert filters[..i + 1][1..] == filters[1..][..i] && filters[..i][1..] == filters[1..][..i - 1];
      assert filters[..i + 1][0] == filters[0] == filters[..i][0] && filters[1..][i - 1] == filters[i];
    }
  }

  lemma UnifiedReadsBack(kernel: Kernel, n: SchemeNode, filters: seq<FilterConfig>)
    requires !kernel.coreFilters && !kernel.operationsFilters && kernel.unifiedFilters && !Split(filters)
    requires ReadLayer(kernel, Unified, true, n.unified) == InLayer(filters, Unified)
    ensures FiltersStaged(kernel, n, filters)
  {
    hide ReadLayer;
    var read := ReadFilters(kernel, n);
    NoLayer(kernel, Core, n.core);
    NoLayer(kernel, Operations, n.operations);
    assert read == InLayer(filters, Unified);
    assert !Split(read);
    forall i | 0 <= i < |filters| ensures PlaceAll(filters, false)[i] == read[i] {
      assert filters[i] in filters;
    }
  }

  lemma NoLayer(kernel: Kernel, placement: FilterPlacement, nodes: seq<FilterNode>)
    ensures ReadLayer(kernel, placement, false, nodes) == []
  {
  }

  /** An adaptive filter on a split kernel goes to a split layer, so the readback looks split. */
  lemma SplitReadsBack(kernel: Kernel, n: SchemeNode, filters: seq<FilterConfig>)
    requires ReadLayer(kernel, Core, kernel.coreFilters, n.core) == InLayer(Destined(filters, Core), Core)
    requires ReadLayer(kernel, Operations, kernel.operationsFilters, n.operations) == InLayer(Destined(filters, Operations), Operations)
    requires ReadLayer(kernel, Unified, kernel.unifiedFilters, n.unified) == InLayer(Destined(filters, Unified), Unified)
    ensures FiltersStaged(kernel, n, filters)
  {
    var placed, read := PlaceAll(filters, true), ReadFilters(kernel, n);
    DestinedLayer(filters, Core);
    DestinedLayer(filters, Operations);
    DestinedLayer(filters, Unified);
    PlacedHasNoAdaptive(filters, true);
    LayerMembers(placed, Adaptive);
    assert read == Layered(placed);
    LayeredMembers(placed);
    if !Split(read) { AllUnified(filters); }
  }

  lemma AllUnified(filters: seq<FilterConfig>)
    requires forall f | f in PlaceAll(filters, true) :: f.placement != Core && f.placement != Operations
    ensures Layered(PlaceAll(filters, true)) == PlaceAll(filters, false) == filters
  {
    var placed := PlaceAll(filters, true);
    forall i | 0 <= i < |filters| ensures filters[i].placement == Unified {
      assert placed[i] in placed && placed[i] == Place(filters[i], true);
    }
    assert placed == filters;
    LayerOfUniform(filters, Unified, Core);
    LayerOfUniform(filters, Unified, Operations);
    LayerOfUniform(filters, Unified, Unified);
    LayerOfUniform(filters, Unified, Adaptive);
  }

  /** The three layers always read in canonical order. */
  lemma ReadFiltersIsReadback(kernel: Kernel, n: SchemeNode)
    ensures ReadbackForm(ReadFilters(kernel, n))
  {
    hide ReadLayer, Layered;
    LayerPlacement(kernel, Core, kernel.coreFilters, n.core);
    LayerPlacement(kernel, Operations, kernel.operationsFilters, n.operations);
    LayerPlacement(kernel, Unified, kernel.unifiedFilters, n.unified);
    LayeredOfLayers(ReadLayer(kernel, Core, kernel.coreFilters, n.core),
                    ReadLayer(kernel, Operations, kernel.operationsFilters, n.operations),
                    ReadLayer(kernel, Unified, kernel.unifiedFilters, n.unified));
  }

  // ---------- access patterns ----------

  /** One write of the 64-bit maximum, which a kernel with 32-bit sizes finds out of range. */
  method WriteWidest(kernel: Kernel) returns (r: Result<()>, tooWide: bool)
    ensures tooWide ==> r == Err(Io)
    ensures kernel.narrow ==> r.Err?
    ensures (kernel.narrow && tooWide) || Granted(kernel, r)
  {
    r := Write(kernel);
    tooWide := *;
    if r.Ok? && kernel.narrow { return Err(Io), true; }
    tooWide := tooWide && r == Err(Io);
  }

  /** Writes the pattern; a kernel with 32-bit sizes refuses the 64-bit maximum and gets its own. */
  method StagePattern(kernel: Kernel, n: AccessPattern, c: AccessPattern) returns (r: Result<()>, after: AccessPattern)
    ensures r.Ok? ==> PatternEquivalent(c, after)
    ensures r.Ok? && kernel.narrow ==> after.sizeMax != U64_MAX
    ensures Granted(kernel, r)
  {
    after := n;
    r := Write(kernel);
    if r.Err? { return; }
    after := after.(sizeMin := c.sizeMin);
    if c.sizeMax == U64_MAX {
      var tooWide;
      r, tooWide := WriteWidest(kernel);
      if r.Ok? {
        after := after.(sizeMax := U64_MAX);
      } else if tooWide {
        r := Write(kernel);
        if r.Err? { return; }
        after := after.(sizeMax := U32_MAX);
      } else {
        return;
      }
    } else {
      r := Write(kernel);
      if r.Err? { return; }
      after := after.(sizeMax := c.sizeMax);
    }
    r, after := StagePatternRanges(kernel, after, c);
  }

  method StagePatternRanges(kernel: Kernel, n: AccessPattern, c: AccessPattern) returns (r: Result<()>, after: AccessPattern)
    ensures after == n.(accesses := after.accesses, age := after.age)
    ensures r.Ok? ==> after == n.(accesses := c.accesses, age := c.age)
    ensures Granted(kernel, r)
  {
    after := n;
    r := Write(kernel);
    if r.Err? { return; }
    after := after.(accesses := (c.accesses.0, after.accesses.1));
    r := Write(kernel);
    if r.Err? { return; }
    after := after.(accesses := c.accesses);
    r := Write(kernel);
    if r.Err? { return; }
    after := after.(age := (c.age.0, after.age.1));
    r := Write(kernel);
    if r.Err? { return; }
    after := after.(age := c.age);
  }

  // ---------- schemes ----------

  /** What the readers make of the single values of a scheme. */
  function ReadInterval(kernel: Kernel, n: SchemeNode): nat {
    if kernel.applyInterval then n.applyInterval else 0
  }

  function ReadNode(kernel: Kernel, n: SchemeNode): Option<int> {
    if kernel.targetNode && n.targetNode != -1 then Some(n.targetNode) else None
  }

  ghost predicate ScalarsReady(action: Action, pattern: AccessPattern, interval: nat, node: Option<int>, c: SchemeConfig, observed: Option<SchemeConfig>) {
    observed.Some? ==>
      var o := observed.value;
      && (o.action == c.action ==> action == c.action)
      && (PatternEquivalent(c.pattern, o.pattern) ==> PatternEquivalent(c.pattern, pattern))
      && (o.applyInterval == c.applyInterval ==> interval == c.applyInterval)
      && (o.targetNode == c.targetNode ==> node == c.targetNode)
  }

  ghost predicate FiltersReady(filters: seq<FilterConfig>, c: SchemeConfig, observed: Option<SchemeConfig>) {
    observed.Some? && FiltersMatch(c.filters, observed.value.filters) ==> FiltersMatch(c.filters, filters)
  }

  ghost predicate TailReady(kernel: Kernel, destinations: seq<DestinationConfig>, limit: nat, c: SchemeConfig, observed: Option<SchemeConfig>) {
    observed.Some? ==>
      && ListReady(c.destinations, Some(observed.value.destinations), kernel.destinations, if kernel.destinations then destinations else [])
      && (observed.value.snapshotLimit == c.snapshotLimit ==> (if kernel.snapshotLimit then limit else 0) == c.snapshotLimit)
  }

  function ObservedQuota(observed: Option<SchemeConfig>): Option<QuotaConfig> {
    if observed.Some? then Some(observed.value.quota) else None
  }

  function ObservedWatermarks(observed: Option<SchemeConfig>): Option<WatermarksConfig> {
    if observed.Some? then Some(observed.value.watermarks) else None
  }

  /** Everything the observation lets staging skip already reads as requested. */
  ghost predicate SchemeReady(kernel: Kernel, n: SchemeNode, c: SchemeConfig, observed: Option<SchemeConfig>) {
    && ScalarsReady(n.action, n.pattern, ReadInterval(kernel, n), ReadNode(kernel, n), c, observed)
    && QuotaReady(kernel, n.quota, c.quota, ObservedQuota(observed))
    && WatermarksReady(n.watermarks, c.watermarks, ObservedWatermarks(observed))
    && FiltersReady(ReadFilters(kernel, n), c, observed)
    && TailReady(kernel, n.destinations, n.snapshotLimit, c, observed)
  }

  lemma SchemeSame(kernel: Kernel, n: SchemeNode, c: SchemeConfig)
    requires SchemeReady(kernel, n, c, Some(c))
    ensures SchemeEquivalent(c, ReadScheme(kernel, n))
  {
    QuotaSame(kernel, n.quota, c.quota);
    hide ReadQuota, ReadFilters, QuotaReady;
    SchemeRealised(kernel, n, c);
  }

  method StageScheme(kernel: Kernel, n: SchemeNode, c: SchemeConfig, observed: Option<SchemeConfig>)
    returns (r: Result<()>, after: SchemeNode)
    requires SchemeFits(kernel, c) && SchemeReady(kernel, n, c, observed)
    ensures SchemeReady(kernel, after, c, observed)
    ensures r.Ok? ==> SchemeEquivalent(c, ReadScheme(kernel, after))
    ensures SchemeSupported(kernel, c) ==> Granted(kernel, r)
  {
    hide ScalarsReady, QuotaReady, WatermarksReady, FiltersReady, TailReady, SchemeEquivalent, ScalarsStaged,
         TailStaged, ReadScheme, ReadQuota, ReadFilters, FiltersMatch;
    after := n;
    if observed == Some(c) {
      SchemeSame(kernel, n, c);
      return Ok(()), n;
    }
    r, after := StageSchemeScalars(kernel, after, c, observed);
    LayersKept(kernel, n, after);
    if r.Err? { return; }
    r, after := StageSchemeParts(kernel, after, c, observed);
    if r.Err? { return; }
    ghost var staged := after;
    r, after := StageSchemeTail(kernel, after, c, observed);
    LayersKept(kernel, staged, after);
    if r.Ok? { SchemeRealised(kernel, after, c); }
  }

  lemma SchemeRealised(kernel: Kernel, n: SchemeNode, c: SchemeConfig)
    requires ScalarsStaged(n.action, n.pattern, ReadInterval(kernel, n), ReadNode(kernel, n), c)
    requires ReadQuota(kernel, n.quota) == c.quota && n.watermarks == c.watermarks && FiltersMatch(c.filters, ReadFilters(kernel, n))
    requires TailStaged(kernel, n.destinations, n.snapshotLimit, c)
    ensures SchemeEquivalent(c, ReadScheme(kernel, n))
  {
    hide ReadQuota, ReadFilters, FiltersMatch, PatternEquivalent;
  }

  ghost predicate ScalarsStaged(action: Action, pattern: AccessPattern, interval: nat, node: Option<int>, c: SchemeConfig) {
    action == c.action && PatternEquivalent(c.pattern, pattern) && interval == c.applyInterval && node == c.targetNode
  }

  ghost predicate TailStaged(kernel: Kernel, destinations: seq<DestinationConfig>, limit: nat, c: SchemeConfig) {
    (if kernel.destinations then destinations else []) == c.destinations && (if kernel.snapshotLimit then limit else 0) == c.snapshotLimit
  }

  /** Action, pattern, interval and legacy target node. */
  method StageSchemeScalars(kernel: Kernel, n: SchemeNode, c: SchemeConfig, observed: Option<SchemeConfig>)
    returns (r: Result<()>, after: SchemeNode)
    requires SchemeFits(kernel, c) && ScalarsReady(n.action, n.pattern, ReadInterval(kernel, n), ReadNode(kernel, n), c, observed)
    ensures after == n.(action := after.action, pattern := after.pattern, applyInterval := after.applyInterval, targetNode := after.targetNode)
    ensures ScalarsReady(after.action, after.pattern, ReadInterval(kernel, after), ReadNode(kernel, after), c, observed)
    ensures r.Ok? ==> ScalarsStaged(after.action, after.pattern, ReadInterval(kernel, after), ReadNode(kernel, after), c)
    ensures SchemeSupported(kernel, c) ==> Granted(kernel, r)
  {
    hide PatternEquivalent, FilterFits, GoalFits;
    after := n;
    if observed.None? || observed.value.action != c.action {
      r := Write(kernel);
      if r.Err? { return; }
      after := after.(action := c.action);
    }
    if observed.None? || !PatternEquivalent(c.pattern, observed.value.pattern) {
      var pattern;
      r, pattern := StagePattern(kernel, after.pattern, c.pattern);
      after := after.(pattern := pattern);
      if r.Err? { return; }
    }
    if observed.None? || observed.value.applyInterval != c.applyInterval {
      if kernel.applyInterval {
        r := Write(kernel);
        if r.Err? { return; }
        after := after.(applyInterval := c.applyInterval);
      } else if c.applyInterval != 0 {
        return Err(UnsupportedFeature), after;
      }
    }
    if observed.None? || observed.value.targetNode != c.targetNode {
      if kernel.targetNode {
        r := Write(kernel);
        if r.Err? { return; }
        after := after.(targetNode := if c.targetNode.Some? then c.targetNode.value else -1);
      } else if c.targetNode.Some? {
        return Err(UnsupportedFeature), after;
      }
    }
    r := Ok(());
  }

  /** Quota, watermarks and filters. */
  method StageSchemeParts(kernel: Kernel, n: SchemeNode, c: SchemeConfig, observed: Option<SchemeConfig>)
    returns (r: Result<()>, after: SchemeNode)
    requires SchemeFits(kernel, c) && QuotaReady(kernel, n.quota, c.quota, ObservedQuota(observed))
    requires WatermarksReady(n.watermarks, c.watermarks, ObservedWatermarks(observed)) && FiltersReady(ReadFilters(kernel, n), c, observed)
    ensures after == n.(quota := after.quota, watermarks := after.watermarks, core := after.core, operations := after.operations, unified := after.unified)
    ensures QuotaReady(kernel, after.quota, c.quota, ObservedQuota(observed))
    ensures WatermarksReady(after.watermarks, c.watermarks, ObservedWatermarks(observed)) && FiltersReady(ReadFilters(kernel, after), c, observed)
    ensures r.Ok? ==> ReadQuota(kernel, after.quota) == c.quota && after.watermarks == c.watermarks && FiltersMatch(c.filters, ReadFilters(kernel, after))
    ensures SchemeSupported(kernel, c) ==> Granted(kernel, r)
  {
    hide QuotaReady, WatermarksReady, ReadQuota, FiltersMatch, FilterFits, GoalFits, ReadFilters, FiltersStaged;
    after := n;
    var quota;
    r, quota := StageQuota(kernel, after.quota, c.quota, ObservedQuota(observed));
    after := after.(quota := quota);
    LayersKept(kernel, n, after);
    if r.Err? { return; }
    ghost var before := after;
    var watermarks;
    r, watermarks := StageWatermarks(kernel, after.watermarks, c.watermarks, ObservedWatermarks(observed));
    after := after.(watermarks := watermarks);
    LayersKept(kernel, before, after);
    if r.Err? { return; }
    if observed.None? || !FiltersMatch(c.filters, observed.value.filters) {
      r, after := StageSemanticFilters(kernel, after, c.filters);
      if r.Ok? { StagedFiltersMatch(kernel, after, c.filters); }
    }
  }

  lemma LayersKept(kernel: Kernel, n: SchemeNode, m: SchemeNode)
    requires n.core == m.core && n.operations == m.operations && n.unified == m.unified
    ensures ReadFilters(kernel, n) == ReadFilters(kernel, m)
  {
  }

  lemma StagedFiltersMatch(kernel: Kernel, n: SchemeNode, filters: seq<FilterConfig>)
    requires FiltersStaged(kernel, n, filters)
    ensures FiltersMatch(filters, ReadFilters(kernel, n))
  {
  }

  method StageDestination(kernel: Kernel, n: DestinationConfig, c: DestinationConfig) returns (r: Result<()>, after: DestinationConfig)
    ensures r.Ok? ==> after == c
    ensures Granted(kernel, r)
  {
    after := n;
    r := Write(kernel);
    if r.Err? { return; }
    after := after.(nodeId := c.nodeId);
    r := Write(kernel);
    if r.Err? { return; }
    after := after.(weight := c.weight);
  }

  method StageDestinations(kernel: Kernel, nodes: seq<DestinationConfig>, destinations: seq<DestinationConfig>, observed: Option<seq<DestinationConfig>>)
    returns (r: Result<()>, after: seq<DestinationConfig>)
    requires ListReady(destinations, observed, true, nodes)
    ensures ListReady(destinations, observed, true, after)
    ensures r.Ok? ==> after == destinations
    ensures Countable(destinations) ==> Granted(kernel, r)
  {
    r, after := EnsureCount(kernel, nodes, |destinations|);
    if r.Err? { return; }
    for i := 0 to |destinations|
      invariant ListStaged(destinations, observed, after, i)
    {
      if !Skips(destinations, observed, i) {
        var destination;
        r, destination := StageDestination(kernel, after[i], destinations[i]);
        after := after[i := destination];
        if r.Err? { return; }
      }
    }
    r := Ok(());
  }

  /** Destinations and the snapshot limit. */
  method StageSchemeTail(kernel: Kernel, n: SchemeNode, c: SchemeConfig, observed: Option<SchemeConfig>)
    returns (r: Result<()>, after: SchemeNode)
    requires TailReady(kernel, n.destinations, n.snapshotLimit, c, observed)
    ensures after == n.(destinations := after.destinations, snapshotLimit := after.snapshotLimit)
    ensures TailReady(kernel, after.destinations, after.snapshotLimit, c, observed)
    ensures r.Ok? ==> TailStaged(kernel, after.destinations, after.snapshotLimit, c)
    ensures SchemeSupported(kernel, c) ==> Granted(kernel, r)
  {
    after := n;
    if observed.None? || observed.value.destinations != c.destinations {
      if kernel.destinations {
        var destinations;
        r, destinations := StageDestinations(kernel, after.destinations, c.destinations, if observed.Some? then Some(observed.value.destinations) else None);
        after := after.(destinations := destinations);
        if r.Err? { return; }
      } else if c.destinations != [] {
        return Err(UnsupportedFeature), after;
      }
    }
    if observed.None? || observed.value.snapshotLimit != c.snapshotLimit {
      if kernel.snapshotLimit {
        r := Write(kernel);
        if r.Err? { return; }
        after := after.(snapshotLimit := c.snapshotLimit);
      } else if c.snapshotLimit != 0 {
        return Err(UnsupportedFeature), after;
      }
    }
    r := Ok(());
  }

  // ---------- contexts ----------

  /** Every listed node is ready for its request, as far as the observation is comparable. */
  ghost predicate TargetsReady(kernel: Kernel, nodes: seq<TargetNode>, c: seq<TargetConfig>, observed: Option<seq<TargetConfig>>) {
    observed.Some? && |observed.value| == |c| ==>
      |nodes| == |c| && forall i | 0 <= i < |c| :: TargetReady(kernel, nodes[i], c[i], Some(observed.value[i]))
  }

  ghost predicate ProbesReady(kernel: Kernel, nodes: seq<ProbeNode>, c: seq<ProbeConfig>, observed: Option<seq<ProbeConfig>>) {
    observed.Some? ==>
      && (observed.value == c ==> ReadProbes(kernel, nodes) == c)
      && (kernel.probes && |observed.value| == |c| ==>
            |nodes| == |c| && forall i | 0 <= i < |c| :: ProbeReady(kernel, nodes[i], c[i], Some(observed.value[i])))
  }

  ghost predicate SchemesReady(kernel: Kernel, nodes: seq<SchemeNode>, c: seq<SchemeConfig>, observed: Option<seq<SchemeConfig>>) {
    observed.Some? && |observed.value| == |c| ==>
      |nodes| == |c| && forall i | 0 <= i < |c| :: SchemeReady(kernel, nodes[i], c[i], Some(observed.value[i]))
  }

  /** The comparable observation of element `i`, if any. */
  function ObservedAt<E>(observed: Option<seq<E>>, requested: seq<E>, i: nat): Option<E>
    requires i < |requested|
  {
    if observed.Some? && |observed.value| == |requested| then Some(observed.value[i]) else None
  }

  lemma TargetSame(kernel: Kernel, n: TargetNode, c: TargetConfig)
    requires TargetReady(kernel, n, c, Some(c))
    ensures ReadTarget(kernel, n) == c
  {
  }

  lemma ProbeSame(kernel: Kernel, n: ProbeNode, c: ProbeConfig)
    requires ProbeReady(kernel, n, c, Some(c))
    ensures ReadProbe(kernel, n) == c
  {
  }

  method StageTargets(kernel: Kernel, nodes: seq<TargetNode>, c: seq<TargetConfig>, observed: Option<seq<TargetConfig>>)
    returns (r: Result<()>, after: seq<TargetNode>)
    requires (forall t | t in c :: TargetFits(t)) && TargetsReady(kernel, nodes, c, observed)
    ensures TargetsReady(kernel, after, c, observed)
    ensures r.Ok? ==> Each(TargetReader(kernel), after) == c
    ensures Countable(c) && (forall t | t in c :: TargetSupported(kernel, t)) ==> Granted(kernel, r)
  {
    hide TargetReady, TargetFits, ReadTarget;
    r, after := EnsureCount(kernel, nodes, |c|);
    if r.Err? { return; }
    for i := 0 to |c|
      invariant |after| == |c| && TargetsReady(kernel, after, c, observed)
      invariant forall j | 0 <= j < i :: ReadTarget(kernel, after[j]) == c[j]
    {
      var target;
      UnobservedTarget(kernel, after[i], c[i]);
      r, target := StageTarget(kernel, after[i], c[i], ObservedAt(observed, c, i));
      after := after[i := target];
      if r.Err? { return; }
    }
    r := Ok(());
  }

  lemma UnobservedTarget(kernel: Kernel, n: TargetNode, c: TargetConfig)
    ensures TargetReady(kernel, n, c, None)
  {
  }

  method StageProbes(kernel: Kernel, nodes: seq<ProbeNode>, c: seq<ProbeConfig>, observed: Option<seq<ProbeConfig>>)
    returns (r: Result<()>, after: seq<ProbeNode>)
    requires (forall p | p in c :: ProbeFits(p)) && ProbesReady(kernel, nodes, c, observed)
    ensures ProbesReady(kernel, after, c, observed)
    ensures r.Ok? ==> ReadProbes(kernel, after) == c
    ensures ProbesSupported(kernel, c) ==> Granted(kernel, r)
  {
    hide ProbeReady, ProbeFits, ReadProbe;
    after := nodes;
    if !kernel.probes { return if c == [] then Ok(()) else Err(UnsupportedFeature), nodes; }
    r, after := EnsureCount(kernel, nodes, |c|);
    ProbesReadyByCount(kernel, nodes, after, c, observed, r.Ok?);
    if r.Err? { return; }
    for i := 0 to |c|
      invariant |after| == |c| && ProbesComparable(kernel, after, c, observed)
      invariant forall j | 0 <= j < i :: ReadProbe(kernel, after[j]) == c[j]
    {
      var probe;
      UnobservedProbe(kernel, after[i], c[i]);
      r, probe := StageProbe(kernel, after[i], c[i], ObservedAt(observed, c, i));
      after := after[i := probe];
      if r.Err? {
        ComparableIsReady(kernel, after, c, observed);
        return;
      }
    }
    ComparableIsReady(kernel, after, c, observed);
    r := Ok(());
  }

  /** What matters of `ProbesReady` once the kernel is known to have probes. */
  ghost predicate ProbesComparable(kernel: Kernel, nodes: seq<ProbeNode>, c: seq<ProbeConfig>, observed: Option<seq<ProbeConfig>>)
    requires |nodes| == |c|
  {
    observed.Some? && |observed.value| == |c| ==> forall i | 0 <= i < |c| :: ProbeReady(kernel, nodes[i], c[i], Some(observed.value[i]))
  }

  lemma ComparableIsReady(kernel: Kernel, nodes: seq<ProbeNode>, c: seq<ProbeConfig>, observed: Option<seq<ProbeConfig>>)
    requires |nodes| == |c| && ProbesComparable(kernel, nodes, c, observed) && kernel.probes
    ensures ProbesReady(kernel, nodes, c, observed)
  {
    hide ProbeReady;
    if observed == Some(c) {
      forall i | 0 <= i < |c| ensures ReadProbe(kernel, nodes[i]) == c[i] { ProbeSame(kernel, nodes[i], c[i]); }
    }
  }

  lemma ProbesReadyByCount(kernel: Kernel, nodes: seq<ProbeNode>, after: seq<ProbeNode>, c: seq<ProbeConfig>, observed: Option<seq<ProbeConfig>>, ok: bool)
    requires ProbesReady(kernel, nodes, c, observed) && kernel.probes
    requires !ok || |nodes| == |c| ==> after == nodes
    requires ok ==> |after| == |c|
    ensures !ok ==> ProbesReady(kernel, after, c, observed)
    ensures ok ==> ProbesComparable(kernel, after, c, observed)
  {
  }

  lemma UnobservedProbe(kernel: Kernel, n: ProbeNode, c: ProbeConfig)
    ensures ProbeReady(kernel, n, c, None)
  {
  }

  method StageSchemes(kernel: Kernel, nodes: seq<SchemeNode>, c: seq<SchemeConfig>, observed: Option<seq<SchemeConfig>>)
    returns (r: Result<()>, after: seq<SchemeNode>)
    requires (forall s | s in c :: SchemeFits(kernel, s)) && SchemesReady(kernel, nodes, c, observed)
    ensures SchemesReady(kernel, after, c, observed)
    ensures r.Ok? ==> SchemesStaged(kernel, after, c)
    ensures Countable(c) && (forall s | s in c :: SchemeSupported(kernel, s)) ==> Granted(kernel, r)
  {
    hide SchemeReady, SchemeFits, ReadScheme, SchemeEquivalent;
    r, after := EnsureCount(kernel, nodes, |c|);
    if r.Err? { return; }
    for i := 0 to |c|
      invariant |after| == |c| && SchemesReady(kernel, after, c, observed)
      invariant forall j | 0 <= j < i :: SchemeEquivalent(c[j], ReadScheme(kernel, after[j]))
    {
      var scheme;
      UnobservedScheme(kernel, after[i], c[i]);
      r, scheme := StageScheme(kernel, after[i], c[i], ObservedAt(observed, c, i));
      after := after[i := scheme];
      if r.Err? { return; }
    }
    r := Ok(());
  }

  lemma UnobservedScheme(kernel: Kernel, n: SchemeNode, c: SchemeConfig)
    ensures SchemeReady(kernel, n, c, None)
  {
  }

  function ReadUnit(kernel: Kernel, n: ContextNode): nat {
    if kernel.addressUnit then n.addressUnit else 1
  }

  function ReadAttributes(kernel: Kernel, n: ContextNode): OperationAttributes {
    if kernel.operationAttributes then n.operationAttributes else DEFAULT_ATTRIBUTES
  }

  function ReadIntervalsGoal(kernel: Kernel, n: ContextNode): IntervalsGoal {
    if kernel.intervalsGoal then n.intervalsGoal else DEFAULT_GOAL
  }

  ghost predicate IdentityReady(operation: Operation, unit: nat, paused: bool, attributes: OperationAttributes, c: ContextConfig, observed: Option<ContextConfig>) {
    observed.Some? ==>
      var o := observed.value;
      && (o.operation == c.operation ==> operation == c.operation)
      && (o.addressUnit == c.addressUnit ==> unit == c.addressUnit)
      && (o.paused == c.paused ==> paused == c.paused)
      && (o.operationAttributes == c.operationAttributes ==> attributes == c.operationAttributes)
  }

  ghost predicate MonitoringReady(intervals: Intervals, goal: IntervalsGoal, bounds: RegionBounds, c: ContextConfig, observed: Option<ContextConfig>) {
    observed.Some? ==>
      var o := observed.value;
      && (o.intervals == c.intervals ==> intervals == c.intervals)
      && (o.intervalsGoal == c.intervalsGoal ==> goal == c.intervalsGoal)
      && (o.regionBounds == c.regionBounds ==> bounds == c.regionBounds)
  }

  ghost predicate SampleReady(sample: SampleControl, c: ContextConfig, observed: Option<ContextConfig>) {
    observed.Some? && observed.value.sampleControl == c.sampleControl ==> sample == c.sampleControl
  }

  function ObservedProbes(observed: Option<ContextConfig>): Option<seq<ProbeConfig>> {
    if observed.Some? then Some(observed.value.probes) else None
  }

  function ObservedTargets(observed: Option<ContextConfig>): Option<seq<TargetConfig>> {
    if observed.Some? then Some(observed.value.targets) else None
  }

  function ObservedSchemes(observed: Option<ContextConfig>): Option<seq<SchemeConfig>> {
    if observed.Some? then Some(observed.value.schemes) else None
  }

  ghost predicate ContextReady(kernel: Kernel, n: ContextNode, c: ContextConfig, observed: Option<ContextConfig>) {
    && IdentityReady(n.operation, ReadUnit(kernel, n), kernel.pause && n.paused, ReadAttributes(kernel, n), c, observed)
    && MonitoringReady(n.intervals, ReadIntervalsGoal(kernel, n), n.regionBounds, c, observed)
    && ProbesReady(kernel, n.probes, c.probes, ObservedProbes(observed))
    && SampleReady(ReadSample(kernel, n.sample), c, observed)
    && TargetsReady(kernel, n.targets, c.targets, ObservedTargets(observed))
    && SchemesReady(kernel, n.schemes, c.schemes, ObservedSchemes(observed))
  }

  ghost predicate IdentityStaged(operation: Operation, unit: nat, paused: bool, attributes: OperationAttributes, c: ContextConfig) {
    operation == c.operation && unit == c.addressUnit && paused == c.paused && attributes == c.operationAttributes
  }

  ghost predicate MonitoringStaged(intervals: Intervals, goal: IntervalsGoal, bounds: RegionBounds, c: ContextConfig) {
    intervals == c.intervals && goal == c.intervalsGoal && bounds == c.regionBounds
  }

  ghost predicate SchemesStaged(kernel: Kernel, nodes: seq<SchemeNode>, c: seq<SchemeConfig>) {
    |nodes| == |c| && forall i | 0 <= i < |c| :: SchemeEquivalent(c[i], ReadScheme(kernel, nodes[i]))
  }

  lemma ContextRealised(kernel: Kernel, n: ContextNode, c: ContextConfig)
    requires IdentityStaged(n.operation, ReadUnit(kernel, n), kernel.pause && n.paused, ReadAttributes(kernel, n), c)
    requires MonitoringStaged(n.intervals, ReadIntervalsGoal(kernel, n), n.regionBounds, c)
    requires ReadProbes(kernel, n.probes) == c.probes && ReadSample(kernel, n.sample) == c.sampleControl
    requires Each(TargetReader(kernel), n.targets) == c.targets && SchemesStaged(kernel, n.schemes, c.schemes)
    ensures ContextEquivalent(c, ReadContext(kernel, n))
  {
    hide ReadProbes, ReadSample, ReadTarget, ReadScheme, SchemeEquivalent;
    var x := ReadContext(kernel, n);
    assert x.schemes == Each(SchemeReader(kernel), n.schemes);
    forall i | 0 <= i < |c.schemes| ensures SchemeEquivalent(c.schemes[i], x.schemes[i]) {
      assert x.schemes[i] == ReadScheme(kernel, n.schemes[i]);
    }
  }

  lemma TargetsSame(kernel: Kernel, nodes: seq<TargetNode>, c: seq<TargetConfig>)
    requires TargetsReady(kernel, nodes, c, Some(c))
    ensures Each(TargetReader(kernel), nodes) == c
  {
    hide TargetReady, ReadTarget;
    forall i | 0 <= i < |c| ensures ReadTarget(kernel, nodes[i]) == c[i] { TargetSame(kernel, nodes[i], c[i]); }
  }

  lemma SchemesSame(kernel: Kernel, nodes: seq<SchemeNode>, c: seq<SchemeConfig>)
    requires SchemesReady(kernel, nodes, c, Some(c))
    ensures SchemesStaged(kernel, nodes, c)
  {
    hide SchemeReady, ReadScheme, SchemeEquivalent;
    forall i | 0 <= i < |c| ensures SchemeEquivalent(c[i], ReadScheme(kernel, nodes[i])) { SchemeSame(kernel, nodes[i], c[i]); }
  }

  lemma ContextSame(kernel: Kernel, n: ContextNode, c: ContextConfig)
    requires ContextReady(kernel, n, c, Some(c))
    ensures ContextEquivalent(c, ReadContext(kernel, n))
  {
    TargetsSame(kernel, n.targets, c.targets);
    SchemesSame(kernel, n.schemes, c.schemes);
    hide TargetsReady, SchemesReady, ReadProbes, ReadSample, ReadContext, ContextEquivalent, SchemesStaged;
    ContextRealised(kernel, n, c);
  }

  method StageContext(kernel: Kernel, n: ContextNode, c: ContextConfig, observed: Option<ContextConfig>)
    returns (r: Result<()>, after: ContextNode)
    requires ContextFits(kernel, c) && ContextReady(kernel, n, c, observed)
    ensures ContextReady(kernel, after, c, observed)
    ensures r.Ok? ==> ContextEquivalent(c, ReadContext(kernel, after))
    ensures ContextSupported(kernel, c) ==> Granted(kernel, r)
  {
    hide IdentityReady, MonitoringReady, ProbesReady, SampleReady, TargetsReady, SchemesReady, IdentityStaged,
         MonitoringStaged, SchemesStaged, ContextFits, ContextEquivalent, ReadContext, ReadProbes, ReadSample;
    after := n;
    if observed == Some(c) {
      ContextSame(kernel, n, c);
      return Ok(()), n;
    }
    r, after := StageContextIdentity(kernel, n, c, observed);
    if r.Err? { return; }
    r, after := StageContextMonitoring(kernel, after, c, observed);
    if r.Err? { return; }
    r, after := StageContextChildren(kernel, after, c, observed);
    if r.Ok? { ContextRealised(kernel, after, c); }
  }

  method StageAttributes(kernel: Kernel, n: OperationAttributes, c: OperationAttributes) returns (r: Result<()>, after: OperationAttributes)
    ensures r.Ok? ==> after == c
    ensures Granted(kernel, r)
  {
    after := n;
    r := Write(kernel);
    if r.Err? { return; }
    after := after.(useReports := c.useReports);
    r := Write(kernel);
    if r.Err? { return; }
    after := after.(writeOnly := c.writeOnly);
    r := Write(kernel);
    if r.Err? { return; }
    after := after.(cpus := c.cpus);
    r := Write(kernel);
    if r.Err? { return; }
    after := after.(threadIds := c.threadIds);
  }

  method StageIntervals(kernel: Kernel, n: Intervals, c: Intervals) returns (r: Result<()>, after: Intervals)
    ensures r.Ok? ==> after == c
    ensures Granted(kernel, r)
  {
    after := n;
    r := Write(kernel);
    if r.Err? { return; }
    after := after.(sample := c.sample);
    r := Write(kernel);
    if r.Err? { return; }
    after := after.(aggregation := c.aggregation);
    r := Write(kernel);
    if r.Err? { return; }
    after := after.(update := c.update);
  }

  method StageIntervalsGoal(kernel: Kernel, n: IntervalsGoal, c: IntervalsGoal) returns (r: Result<()>, after: IntervalsGoal)
    ensures r.Ok? ==> after == c
    ensures Granted(kernel, r)
  {
    after := n;
    r := Write(kernel);
    if r.Err? { return; }
    after := after.(accessBasisPoints := c.accessBasisPoints);
    r := Write(kernel);
    if r.Err? { return; }
    after := after.(aggregations := c.aggregations);
    r := Write(kernel);
    if r.Err? { return; }
    after := after.(minimumSample := c.minimumSample);
    r := Write(kernel);
    if r.Err? { return; }
    after := after.(maximumSample := c.maximumSample);
  }

  /** Operation, address unit, pause and operation attributes. */
  method StageContextIdentity(kernel: Kernel, n: ContextNode, c: ContextConfig, observed: Option<ContextConfig>)
    returns (r: Result<()>, after: ContextNode)
    requires IdentityReady(n.operation, ReadUnit(kernel, n), kernel.pause && n.paused, ReadAttributes(kernel, n), c, observed)
    ensures after == n.(operation := after.operation, addressUnit := after.addressUnit, paused := after.paused, operationAttributes := after.operationAttributes)
    ensures IdentityReady(after.operation, ReadUnit(kernel, after), kernel.pause && after.paused, ReadAttributes(kernel, after), c, observed)
    ensures r.Ok? ==> IdentityStaged(after.operation, ReadUnit(kernel, after), kernel.pause && after.paused, ReadAttributes(kernel, after), c)
    ensures IdentitySupported(kernel, c) ==> Granted(kernel, r)
  {
    after := n;
    if observed.None? || observed.value.operation != c.operation {
      r := Write(kernel);
      if r.Err? { return; }
      after := after.(operation := c.operation);
    }
    if observed.None? || observed.value.addressUnit != c.addressUnit {
      if kernel.addressUnit {
        r := Write(kernel);
        if r.Err? { return; }
        after := after.(addressUnit := c.addressUnit);
      } else if c.addressUnit != 1 {
        return Err(UnsupportedFeature), after;
      }
    }
    if observed.None? || observed.value.paused != c.paused {
      if kernel.pause {
        r := Write(kernel);
        if r.Err? { return; }
        after := after.(paused := c.paused);
      } else if c.paused {
        return Err(UnsupportedFeature), after;
      }
    }
    if observed.None? || observed.value.operationAttributes != c.operationAttributes {
      if kernel.operationAttributes {
        var attributes;
        r, attributes := StageAttributes(kernel, after.operationAttributes, c.operationAttributes);
        after := after.(operationAttributes := attributes);
        if r.Err? { return; }
      } else if c.operationAttributes != DEFAULT_ATTRIBUTES {
        return Err(UnsupportedFeature), after;
      }
    }
    r := Ok(());
  }

  /** Intervals, their goal and the region bounds. */
  method StageContextMonitoring(kernel: Kernel, n: ContextNode, c: ContextConfig, observed: Option<ContextConfig>)
    returns (r: Result<()>, after: ContextNode)
    requires MonitoringReady(n.intervals, ReadIntervalsGoal(kernel, n), n.regionBounds, c, observed)
    ensures after == n.(intervals := after.intervals, intervalsGoal := after.intervalsGoal, regionBounds := after.regionBounds)
    ensures MonitoringReady(after.intervals, ReadIntervalsGoal(kernel, after), after.regionBounds, c, observed)
    ensures r.Ok? ==> MonitoringStaged(after.intervals, ReadIntervalsGoal(kernel, after), after.regionBounds, c)
    ensures (c.intervalsGoal != DEFAULT_GOAL ==> kernel.intervalsGoal) ==> Granted(kernel, r)
  {
    after := n;
    if observed.None? || observed.value.intervals != c.intervals {
      var intervals;
      r, intervals := StageIntervals(kernel, after.intervals, c.intervals);
      after := after.(intervals := intervals);
      if r.Err? { return; }
    }
    if observed.None? || observed.value.intervalsGoal != c.intervalsGoal {
      if kernel.intervalsGoal {
        var goal;
        r, goal := StageIntervalsGoal(kernel, after.intervalsGoal, c.intervalsGoal);
        after := after.(intervalsGoal := goal);
        if r.Err? { return; }
      } else if c.intervalsGoal != DEFAULT_GOAL {
        return Err(UnsupportedFeature), after;
      }
    }
    if observed.None? || observed.value.regionBounds != c.regionBounds {
      r := Write(kernel);
      if r.Err? { return; }
      after := after.(regionBounds := after.regionBounds.(min := c.regionBounds.min));
      r := Write(kernel);
      if r.Err? { return; }
      after := after.(regionBounds := c.regionBounds);
    }
    r := Ok(());
  }

  /** Probes, sample controls, targets and schemes. */
  method StageContextChildren(kernel: Kernel, n: ContextNode, c: ContextConfig, observed: Option<ContextConfig>)
    returns (r: Result<()>, after: ContextNode)
    requires ContextFits(kernel, c)
    requires ProbesReady(kernel, n.probes, c.probes, ObservedProbes(observed)) && SampleReady(ReadSample(kernel, n.sample), c, observed)
    requires TargetsReady(kernel, n.targets, c.targets, ObservedTargets(observed)) && SchemesReady(kernel, n.schemes, c.schemes, ObservedSchemes(observed))
    ensures after == n.(probes := after.probes, sample := after.sample, targets := after.targets, schemes := after.schemes)
    ensures ProbesReady(kernel, after.probes, c.probes, ObservedProbes(observed)) && SampleReady(ReadSample(kernel, after.sample), c, observed)
    ensures TargetsReady(kernel, after.targets, c.targets, ObservedTargets(observed)) && SchemesReady(kernel, after.schemes, c.schemes, ObservedSchemes(observed))
    ensures r.Ok? ==>
              && ReadProbes(kernel, after.probes) == c.probes && ReadSample(kernel, after.sample) == c.sampleControl
              && Each(TargetReader(kernel), after.targets) == c.targets && SchemesStaged(kernel, after.schemes, c.schemes)
    ensures ChildrenSupported(kernel, c) ==> Granted(kernel, r)
  {
    hide ProbesReady, TargetsReady, SchemesReady, ReadProbes, ReadSample, SchemesStaged, ProbeFilterFits,
         SampleFilterFits, TargetFits, SchemeFits;
    after := n;
    var probes;
    r, probes := StageProbes(kernel, after.probes, c.probes, ObservedProbes(observed));
    after := after.(probes := probes);
    if r.Err? { return; }
    if observed.None? || observed.value.sampleControl != c.sampleControl {
      if kernel.sample {
        var sample;
        r, sample := StageSample(kernel, after.sample, c.sampleControl);
        after := after.(sample := sample);
        if r.Err? { return; }
      } else if c.sampleControl != DEFAULT_SAMPLE {
        return Err(UnsupportedFeature), after;
      } else {
        AbsentSample(kernel, after.sample);
      }
    }
    var targets;
    r, targets := StageTargets(kernel, after.targets, c.targets, ObservedTargets(observed));
    after := after.(targets := targets);
    if r.Err? { return; }
    var schemes;
    r, schemes := StageSchemes(kernel, after.schemes, c.schemes, ObservedSchemes(observed));
    after := after.(schemes := schemes);
  }

  lemma AbsentSample(kernel: Kernel, n: SampleNode)
    requires !kernel.sample
    ensures ReadSample(kernel, n) == DEFAULT_SAMPLE
  {
  }
}
