/** The owned configuration values: one DAMON admin hierarchy as typed data, and
    the equivalences under which a kernel readback realises a request. Durations
    are whole microseconds or milliseconds, as the kernel stores them. */
module Config {
  import opened Outcomes

  datatype Operation = VirtualAddress | FixedVirtualAddress | PhysicalAddress | OtherOperation(name: string)

  datatype Intervals = Intervals(sample: nat, aggregation: nat, update: nat)

  datatype IntervalsGoal = IntervalsGoal(accessBasisPoints: nat, aggregations: nat, minimumSample: nat, maximumSample: nat)

  datatype RegionBounds = RegionBounds(min: nat, max: nat)

  datatype OperationAttributes = OperationAttributes(useReports: bool, writeOnly: bool, cpus: string, threadIds: string)

  datatype ProbeFilterType = ProbeAnonymous | ProbeMemoryControlGroup | ProbePageIdleUnset | ProbePageIdleSet | ProbeUnknown(name: string)

  datatype ProbeFilterConfig = ProbeFilterConfig(filterType: ProbeFilterType, matching: bool, allow: bool, cgroupPath: Option<string>)

  datatype ProbeConfig = ProbeConfig(filters: seq<ProbeFilterConfig>, weight: nat, preparations: seq<string>)

  datatype SampleFilterType = CpuMask | Threads | WriteAccess | SampleUnknown(name: string)

  datatype SampleFilterConfig = SampleFilterConfig(
    filterType: SampleFilterType, matching: bool, allow: bool, cpuMask: Option<string>, threadIds: Option<string>)

  datatype SampleControl = SampleControl(pageTable: bool, pageFault: bool, filters: seq<SampleFilterConfig>)

  datatype Region = Region(start: nat, end: nat)

  datatype TargetConfig = TargetConfig(pid: Option<nat>, obsolete: bool, regions: seq<Region>)

  datatype FilterPlacement = Adaptive | Unified | Core | Operations

  datatype FilterType =
    | Anonymous | Active | MemoryControlGroup | Young | HugePageSize | Unmapped
    | Address | TargetIndex | ProbeHitsWeightedSum | UnknownFilter(name: string)
  {
    function HandledByOperations(): Option<bool> {
      match this
      case Address | TargetIndex | ProbeHitsWeightedSum => Some(false)
      case UnknownFilter(_) => None
      case _ => Some(true)
    }
  }

  datatype FilterConfig = FilterConfig(
    placement: FilterPlacement, filterType: FilterType, matching: bool, allow: bool,
    cgroupPath: Option<string>, addressRange: Option<(nat, nat)>, sizeRange: Option<(nat, nat)>,
    targetIndex: Option<nat>, weightedSumRange: Option<(nat, nat)>)

  datatype GoalMetric =
    | UserInput | SomeMemoryPressure | NodeMemoryUsed | NodeMemoryFree | NodeCgroupUsed | NodeCgroupFree
    | ActiveMemory | InactiveMemory | NodeEligibleMemory | HugePageMemory | UnknownMetric(name: string)
  {
    predicate RequiresNode() {
      NodeMemoryUsed? || NodeMemoryFree? || NodeCgroupUsed? || NodeCgroupFree? || NodeEligibleMemory?
    }

    predicate RequiresCgroupPath() {
      NodeCgroupUsed? || NodeCgroupFree?
    }

    predicate UsesBasisPoints() {
      RequiresNode() || ActiveMemory? || InactiveMemory? || HugePageMemory?
    }
  }

  datatype GoalConfig = GoalConfig(metric: GoalMetric, targetValue: nat, currentValue: nat, nodeId: Option<int>, cgroupPath: Option<string>)

  datatype GoalTuner = ConsistentTuner | TemporalTuner | UnknownTuner(name: string)

  datatype Weights = Weights(size: nat, accesses: nat, age: nat)

  datatype QuotaConfig = QuotaConfig(
    time: nat, sizeUnits: nat, resetInterval: nat, weights: Weights, goals: seq<GoalConfig>,
    goalTuner: GoalTuner, failureNumerator: nat, failureDenominator: nat)

  datatype WatermarksConfig = WatermarksConfig(metric: string, interval: nat, high: nat, middle: nat, low: nat)

  datatype DestinationConfig = DestinationConfig(nodeId: nat, weight: nat)

  datatype AccessPattern = AccessPattern(sizeMin: nat, sizeMax: nat, accesses: (nat, nat), age: (nat, nat))

  datatype Action =
    | WillNeed | Cold | PageOut | HugePage | NoHugePage | Collapse | LruPrioritize | LruDeprioritize
    | MigrateHot | MigrateCold | DamosAllocate | DamosFree | Stat | UnknownAction(name: string)

  datatype SchemeConfig = SchemeConfig(
    action: Action, pattern: AccessPattern, applyInterval: nat, targetNode: Option<int>,
    quota: QuotaConfig, watermarks: WatermarksConfig, filters: seq<FilterConfig>,
    destinations: seq<DestinationConfig>, snapshotLimit: nat)

  datatype ContextConfig = ContextConfig(
    operation: Operation, addressUnit: nat, paused: bool, operationAttributes: OperationAttributes,
    intervals: Intervals, intervalsGoal: IntervalsGoal, regionBounds: RegionBounds,
    probes: seq<ProbeConfig>, sampleControl: SampleControl,
    targets: seq<TargetConfig>, schemes: seq<SchemeConfig>)
  {
    predicate Tuned() {
      intervalsGoal.aggregations != 0
    }
  }

  datatype KdamondConfig = KdamondConfig(refreshInterval: nat, contexts: seq<ContextConfig>)

  datatype DamonConfig = DamonConfig(kdamonds: seq<KdamondConfig>)

  const U8_MAX: nat := 0xFF
  const U32_MAX: nat := 0xFFFF_FFFF
  const U64_MAX: nat := 0xFFFF_FFFF_FFFF_FFFF
  const I32_MAX: nat := 0x7FFF_FFFF

  // ---------- equivalence after kernel normalisation ----------

  predicate PatternEquivalent(a: AccessPattern, observed: AccessPattern) {
    a == observed
    || (a.sizeMin == observed.sizeMin && a.sizeMax == U64_MAX && observed.sizeMax == U32_MAX
        && a.accesses == observed.accesses && a.age == observed.age)
  }

  /** Whether a filter list was read from a kernel with split filter directories. */
  predicate Split(filters: seq<FilterConfig>) {
    exists f | f in filters :: f.placement == Core || f.placement == Operations
  }

  /** The directory an adaptive filter goes to. */
  function Place(f: FilterConfig, split: bool): FilterConfig {
    if f.placement != Adaptive then f
    else if !split then f.(placement := Unified)
    else if f.filterType.HandledByOperations() == Some(false) then f.(placement := Core)
    else f.(placement := Operations)
  }

  function PlaceAll(filters: seq<FilterConfig>, split: bool): (placed: seq<FilterConfig>)
    ensures |placed| == |filters| && forall i | 0 <= i < |filters| :: placed[i] == Place(filters[i], split)
  {
    seq(|filters|, i requires 0 <= i < |filters| => Place(filters[i], split))
  }

  /** The filters of one placement, in order. */
  function Layer(filters: seq<FilterConfig>, placement: FilterPlacement): seq<FilterConfig>
    decreases |filters|
  {
    if filters == [] then []
    else if filters[0].placement == placement then [filters[0]] + Layer(filters[1..], placement)
    else Layer(filters[1..], placement)
  }

  /** The order in which the kernel evaluates layers. */
  function Layered(filters: seq<FilterConfig>): seq<FilterConfig> {
    Layer(filters, Core) + Layer(filters, Operations) + Layer(filters, Unified) + Layer(filters, Adaptive)
  }

  /** A requested filter list in the form a readback with `observed`'s layout takes. */
  function Canonical(filters: seq<FilterConfig>, observed: seq<FilterConfig>): seq<FilterConfig> {
    if Split(observed) then Layered(PlaceAll(filters, true)) else PlaceAll(filters, false)
  }

  predicate FiltersMatch(requested: seq<FilterConfig>, observed: seq<FilterConfig>) {
    requested == observed || Canonical(requested, observed) == observed
  }

  predicate SchemeEquivalent(a: SchemeConfig, observed: SchemeConfig) {
    && PatternEquivalent(a.pattern, observed.pattern)
    && FiltersMatch(a.filters, observed.filters)
    && a.(pattern := observed.pattern, filters := observed.filters) == observed
  }

  predicate ContextEquivalent(a: ContextConfig, observed: ContextConfig) {
    && |a.schemes| == |observed.schemes|
    && (forall i | 0 <= i < |a.schemes| :: SchemeEquivalent(a.schemes[i], observed.schemes[i]))
    && a.(schemes := observed.schemes) == observed
  }

  predicate KdamondEquivalent(a: KdamondConfig, observed: KdamondConfig) {
    && a.refreshInterval == observed.refreshInterval
    && |a.contexts| == |observed.contexts|
    && forall i | 0 <= i < |a.contexts| :: ContextEquivalent(a.contexts[i], observed.contexts[i])
  }

  /** `observed` realises the request `a`: equal apart from a size maximum the kernel
      narrowed and from where adaptive filters were placed. */
  predicate Equivalent(a: DamonConfig, observed: DamonConfig) {
    && |a.kdamonds| == |observed.kdamonds|
    && forall i | 0 <= i < |a.kdamonds| :: KdamondEquivalent(a.kdamonds[i], observed.kdamonds[i])
  }

  // ---------- the procedure that decides it ----------

  function NormalizeScheme(a: SchemeConfig, observed: SchemeConfig): SchemeConfig {
    a.(pattern := if PatternEquivalent(a.pattern, observed.pattern)
                  then a.pattern.(sizeMin := observed.pattern.sizeMin, sizeMax := observed.pattern.sizeMax)
                  else a.pattern,
       filters := Canonical(a.filters, observed.filters))
  }

  /** The request rewritten towards the readback, scheme by scheme. */
  function NormalizeContext(a: ContextConfig, observed: ContextConfig): ContextConfig {
    a.(schemes := seq(|a.schemes|, i requires 0 <= i < |a.schemes| =>
        if i < |observed.schemes| then NormalizeScheme(a.schemes[i], observed.schemes[i]) else a.schemes[i]))
  }

  function NormalizeKdamond(a: KdamondConfig, observed: KdamondConfig): KdamondConfig {
    a.(contexts := seq(|a.contexts|, i requires 0 <= i < |a.contexts| =>
        if i < |observed.contexts| then NormalizeContext(a.contexts[i], observed.contexts[i]) else a.contexts[i]))
  }

  function Normalize(a: DamonConfig, observed: DamonConfig): DamonConfig {
    a.(kdamonds := seq(|a.kdamonds|, i requires 0 <= i < |a.kdamonds| =>
        if i < |observed.kdamonds| then NormalizeKdamond(a.kdamonds[i], observed.kdamonds[i]) else a.kdamonds[i]))
  }

  predicate EquivalentAfterKernelNormalization(a: DamonConfig, observed: DamonConfig) {
    a == observed || Normalize(a, observed) == observed
  }

  // ---------- tuned intervals and obsolete targets ----------

  /** `observed` with the requested sampling and aggregation intervals wherever the
      kernel tunes them now or tuned them under `previous`. */
  function AdoptTuned(requested: DamonConfig, previous: Option<DamonConfig>, observed: DamonConfig): DamonConfig {
    DamonConfig(seq(|observed.kdamonds|, k requires 0 <= k < |observed.kdamonds| =>
      if k < |requested.kdamonds| then
        AdoptTunedKdamond(requested.kdamonds[k],
          if previous.Some? && k < |previous.value.kdamonds| then Some(previous.value.kdamonds[k]) else None,
          observed.kdamonds[k])
      else observed.kdamonds[k]))
  }

  function AdoptTunedKdamond(requested: KdamondConfig, previous: Option<KdamondConfig>, observed: KdamondConfig): KdamondConfig {
    observed.(contexts := seq(|observed.contexts|, c requires 0 <= c < |observed.contexts| =>
      if c < |requested.contexts| then
        AdoptTunedContext(requested.contexts[c],
          previous.Some? && c < |previous.value.contexts| && previous.value.contexts[c].Tuned(),
          observed.contexts[c])
      else observed.contexts[c]))
  }

  function AdoptTunedContext(requested: ContextConfig, wasTuned: bool, observed: ContextConfig): ContextConfig {
    if !requested.Tuned() && !wasTuned then observed
    else observed.(intervals := observed.intervals.(
      sample := requested.intervals.sample, aggregation := requested.intervals.aggregation))
  }

  /** The targets a commit keeps. */
  function Retained(targets: seq<TargetConfig>): seq<TargetConfig>
    decreases |targets|
  {
    if targets == [] then []
    else
      var last := targets[|targets| - 1];
      Retained(targets[..|targets| - 1]) + if last.obsolete then [] else [last]
  }

  function DropObsoleteContext(c: ContextConfig): ContextConfig {
    c.(targets := Retained(c.targets))
  }

  /** What a kdamond runs after committing `k`: targets marked obsolete are gone. */
  function DropObsolete(k: KdamondConfig): KdamondConfig {
    k.(contexts := seq(|k.contexts|, i requires 0 <= i < |k.contexts| => DropObsoleteContext(k.contexts[i])))
  }

  predicate HasObsolete(k: KdamondConfig) {
    exists c, t | c in k.contexts && t in c.targets :: t.obsolete
  }

  predicate ContainsObsolete(config: DamonConfig, selected: seq<nat>)
    requires forall i | i in selected :: i < |config.kdamonds|
  {
    exists i | i in selected :: HasObsolete(config.kdamonds[i])
  }

  /** The configuration to stage once the obsolete targets have been committed away. */
  function WithoutObsolete(config: DamonConfig, selected: seq<nat>): DamonConfig {
    DamonConfig(seq(|config.kdamonds|, i requires 0 <= i < |config.kdamonds| =>
      if i in selected then DropObsolete(config.kdamonds[i]) else config.kdamonds[i]))
  }
}
