/** Staged sysfs nodes as the kernel stores them, and what the typed readers make of them
    on a kernel that may lack any of its optional attributes. */
module KernelNodes {
  import opened Outcomes
  import opened Config

  /** Which optional files and directories a kernel has, whether its sizes are of 32 bits, and
      whether it is steady: no write it can carry out ever fails. */
  datatype Kernel = Kernel(
    steady: bool, narrow: bool,
    refresh: bool, addressUnit: bool, pause: bool, operationAttributes: bool, intervalsGoal: bool,
    probes: bool, probeWeight: bool, preparations: bool, sample: bool, maskFile: bool, threadsFile: bool,
    obsolete: bool, regions: bool,
    applyInterval: bool, targetNode: bool, goals: bool, goalMetric: bool, goalTuner: bool,
    failureNumerator: bool, failureDenominator: bool,
    coreFilters: bool, operationsFilters: bool, unifiedFilters: bool, filterAllow: bool,
    cgroupFile: bool, addressFiles: bool, sizeFiles: bool, targetFile: bool,
    destinations: bool, snapshotLimit: bool)

  datatype ProbeFilterNode = ProbeFilterNode(filterType: ProbeFilterType, matching: bool, allow: bool, path: string)
  datatype ProbeNode = ProbeNode(filters: seq<ProbeFilterNode>, weight: nat, preparations: seq<string>)
  datatype SampleFilterNode = SampleFilterNode(filterType: SampleFilterType, matching: bool, allow: bool, mask: string, threads: string)
  datatype SampleNode = SampleNode(pageTable: bool, pageFault: bool, filters: seq<SampleFilterNode>)
  datatype TargetNode = TargetNode(pid: nat, obsolete: bool, regions: seq<Region>)
  datatype GoalNode = GoalNode(metric: GoalMetric, targetValue: nat, currentValue: nat, node: int, path: string)
  datatype QuotaNode = QuotaNode(
    time: nat, sizeUnits: nat, resetInterval: nat, weights: Weights, goals: seq<GoalNode>,
    goalTuner: GoalTuner, failureNumerator: nat, failureDenominator: nat)
  datatype FilterNode = FilterNode(
    filterType: FilterType, matching: bool, allow: bool, cgroup: string, start: nat, end: nat, min: nat, max: nat, target: nat)
  datatype SchemeNode = SchemeNode(
    action: Action, pattern: AccessPattern, applyInterval: nat, targetNode: int, quota: QuotaNode, watermarks: WatermarksConfig,
    core: seq<FilterNode>, operations: seq<FilterNode>, unified: seq<FilterNode>,
    destinations: seq<DestinationConfig>, snapshotLimit: nat)
  datatype ContextNode = ContextNode(
    operation: Operation, addressUnit: nat, paused: bool, operationAttributes: OperationAttributes,
    intervals: Intervals, intervalsGoal: IntervalsGoal, regionBounds: RegionBounds,
    probes: seq<ProbeNode>, sample: SampleNode, targets: seq<TargetNode>, schemes: seq<SchemeNode>)
  datatype KdamondNode = KdamondNode(refreshInterval: nat, contexts: seq<ContextNode>)

  // ---------- neutral values of absent attributes ----------

  const DEFAULT_ATTRIBUTES: OperationAttributes := OperationAttributes(false, false, "all", "")
  const DEFAULT_GOAL: IntervalsGoal := IntervalsGoal(0, 0, 0, 0)
  const DEFAULT_SAMPLE: SampleControl := SampleControl(true, false, [])

  /** What a reader makes of each node of a list. */
  function Each<N, E>(read: N -> E, nodes: seq<N>): (items: seq<E>)
    ensures |items| == |nodes| && forall i | 0 <= i < |nodes| :: items[i] == read(nodes[i])
  {
    seq(|nodes|, i requires 0 <= i < |nodes| => read(nodes[i]))
  }

  // ---------- readers ----------

  function ReadProbeFilter(n: ProbeFilterNode): ProbeFilterConfig {
    ProbeFilterConfig(n.filterType, n.matching, n.allow,
      if n.filterType.ProbeMemoryControlGroup? || n.filterType.ProbeUnknown? then Some(n.path) else None)
  }

  function ReadProbe(kernel: Kernel, n: ProbeNode): ProbeConfig {
    ProbeConfig(Each(ReadProbeFilter, n.filters), if kernel.probeWeight then n.weight else 0, if kernel.preparations then n.preparations else [])
  }

  function ProbeReader(kernel: Kernel): ProbeNode -> ProbeConfig {
    n => ReadProbe(kernel, n)
  }

  function ReadSampleFilter(kernel: Kernel, n: SampleFilterNode): SampleFilterConfig {
    match n.filterType
    case CpuMask => SampleFilterConfig(CpuMask, n.matching, n.allow, Some(n.mask), None)
    case Threads => SampleFilterConfig(Threads, n.matching, n.allow, None, Some(n.threads))
    case WriteAccess => SampleFilterConfig(WriteAccess, n.matching, n.allow, None, None)
    case SampleUnknown(name) =>
      SampleFilterConfig(n.filterType, n.matching, n.allow,
        if kernel.maskFile then Some(n.mask) else None, if kernel.threadsFile then Some(n.threads) else None)
  }

  function SampleFilterReader(kernel: Kernel): SampleFilterNode -> SampleFilterConfig {
    n => ReadSampleFilter(kernel, n)
  }

  function ReadSample(kernel: Kernel, n: SampleNode): SampleControl {
    if kernel.sample then SampleControl(n.pageTable, n.pageFault, Each(SampleFilterReader(kernel), n.filters)) else DEFAULT_SAMPLE
  }

  function ReadTarget(kernel: Kernel, n: TargetNode): TargetConfig {
    TargetConfig(if n.pid == 0 then None else Some(n.pid), kernel.obsolete && n.obsolete, if kernel.regions then n.regions else [])
  }

  function TargetReader(kernel: Kernel): TargetNode -> TargetConfig {
    n => ReadTarget(kernel, n)
  }

  function ReadGoal(kernel: Kernel, n: GoalNode): GoalConfig {
    var metric := if kernel.goalMetric then n.metric else UserInput;
    GoalConfig(metric, n.targetValue, n.currentValue,
      if metric.RequiresNode() || metric.UnknownMetric? then Some(n.node) else None,
      if metric.RequiresCgroupPath() || metric.UnknownMetric? then Some(n.path) else None)
  }

  function GoalReader(kernel: Kernel): GoalNode -> GoalConfig {
    n => ReadGoal(kernel, n)
  }

  function ReadGoals(kernel: Kernel, nodes: seq<GoalNode>): seq<GoalConfig> {
    if kernel.goals then Each(GoalReader(kernel), nodes) else []
  }

  function ReadQuota(kernel: Kernel, n: QuotaNode): QuotaConfig {
    QuotaConfig(n.time, n.sizeUnits, n.resetInterval, n.weights, ReadGoals(kernel, n.goals),
      if kernel.goalTuner then n.goalTuner else ConsistentTuner,
      if kernel.failureNumerator then n.failureNumerator else 0,
      if kernel.failureDenominator then n.failureDenominator else 0)
  }

  function ReadFilter(kernel: Kernel, placement: FilterPlacement, n: FilterNode): FilterConfig {
    var base := FilterConfig(placement, n.filterType, n.matching, kernel.filterAllow && n.allow, None, None, None, None, None);
    match n.filterType
    case MemoryControlGroup => base.(cgroupPath := Some(n.cgroup))
    case Address => base.(addressRange := Some((n.start, n.end)))
    case HugePageSize => base.(sizeRange := Some((n.min, n.max)))
    case TargetIndex => base.(targetIndex := Some(n.target))
    case ProbeHitsWeightedSum => base.(weightedSumRange := Some((n.min, n.max)))
    case UnknownFilter(_) =>
      base.(cgroupPath := if kernel.cgroupFile then Some(n.cgroup) else None,
            addressRange := if kernel.addressFiles then Some((n.start, n.end)) else None,
            sizeRange := if kernel.sizeFiles then Some((n.min, n.max)) else None,
            targetIndex := if kernel.targetFile then Some(n.target) else None)
    case _ => base
  }

  function FilterReader(kernel: Kernel, placement: FilterPlacement): FilterNode -> FilterConfig {
    n => ReadFilter(kernel, placement, n)
  }

  function ReadLayer(kernel: Kernel, placement: FilterPlacement, present: bool, nodes: seq<FilterNode>): seq<FilterConfig> {
    if present then Each(FilterReader(kernel, placement), nodes) else []
  }

  /** Core, then operations, then unified. */
  function ReadFilters(kernel: Kernel, n: SchemeNode): seq<FilterConfig> {
    ReadLayer(kernel, Core, kernel.coreFilters, n.core)
    + ReadLayer(kernel, Operations, kernel.operationsFilters, n.operations)
    + ReadLayer(kernel, Unified, kernel.unifiedFilters, n.unified)
  }

  function ReadScheme(kernel: Kernel, n: SchemeNode): SchemeConfig {
    SchemeConfig(n.action, n.pattern, if kernel.applyInterval then n.applyInterval else 0,
      if kernel.targetNode && n.targetNode != -1 then Some(n.targetNode) else None,
      ReadQuota(kernel, n.quota), n.watermarks, ReadFilters(kernel, n),
      if kernel.destinations then n.destinations else [], if kernel.snapshotLimit then n.snapshotLimit else 0)
  }

  function SchemeReader(kernel: Kernel): SchemeNode -> SchemeConfig {
    n => ReadScheme(kernel, n)
  }

  function ReadProbes(kernel: Kernel, nodes: seq<ProbeNode>): seq<ProbeConfig> {
    if kernel.probes then Each(ProbeReader(kernel), nodes) else []
  }

  function ReadContext(kernel: Kernel, n: ContextNode): ContextConfig {
    ContextConfig(n.operation, if kernel.addressUnit then n.addressUnit else 1, kernel.pause && n.paused,
      if kernel.operationAttributes then n.operationAttributes else DEFAULT_ATTRIBUTES,
      n.intervals, if kernel.intervalsGoal then n.intervalsGoal else DEFAULT_GOAL, n.regionBounds,
      ReadProbes(kernel, n.probes), ReadSample(kernel, n.sample),
      Each(TargetReader(kernel), n.targets), Each(SchemeReader(kernel), n.schemes))
  }

  function ContextReader(kernel: Kernel): ContextNode -> ContextConfig {
    n => ReadContext(kernel, n)
  }

  function ReadKdamond(kernel: Kernel, n: KdamondNode): KdamondConfig {
    KdamondConfig(if kernel.refresh then n.refreshInterval else 0, Each(ContextReader(kernel), n.contexts))
  }

  function KdamondReader(kernel: Kernel): KdamondNode -> KdamondConfig {
    n => ReadKdamond(kernel, n)
  }

  function ReadHierarchy(kernel: Kernel, nodes: seq<KdamondNode>): DamonConfig {
    DamonConfig(Each(KdamondReader(kernel), nodes))
  }

  // ---------- payloads that match their types ----------

  predicate ProbeFilterFits(f: ProbeFilterConfig) {
    f.cgroupPath.Some? <==> f.filterType.ProbeMemoryControlGroup? || f.filterType.ProbeUnknown?
  }

  predicate SampleFilterFits(kernel: Kernel, f: SampleFilterConfig) {
    match f.filterType
    case CpuMask => f.cpuMask.Some? && f.threadIds.None?
    case Threads => f.threadIds.Some? && f.cpuMask.None?
    case WriteAccess => f.cpuMask.None? && f.threadIds.None?
    case SampleUnknown(_) => f.cpuMask.Some? == kernel.maskFile && f.threadIds.Some? == kernel.threadsFile
  }

  predicate GoalFits(g: GoalConfig) {
    && (g.nodeId.Some? <==> g.metric.RequiresNode() || g.metric.UnknownMetric?)
    && (g.cgroupPath.Some? <==> g.metric.RequiresCgroupPath() || g.metric.UnknownMetric?)
  }

  predicate FilterFits(kernel: Kernel, f: FilterConfig) {
    if f.filterType.UnknownFilter? then
      && f.cgroupPath.Some? == kernel.cgroupFile && f.addressRange.Some? == kernel.addressFiles
      && f.sizeRange.Some? == kernel.sizeFiles && f.targetIndex.Some? == kernel.targetFile && f.weightedSumRange.None?
    else
      && (f.cgroupPath.Some? <==> f.filterType.MemoryControlGroup?) && (f.addressRange.Some? <==> f.filterType.Address?)
      && (f.sizeRange.Some? <==> f.filterType.HugePageSize?) && (f.targetIndex.Some? <==> f.filterType.TargetIndex?)
      && (f.weightedSumRange.Some? <==> f.filterType.ProbeHitsWeightedSum?)
  }

  predicate SchemeFits(kernel: Kernel, s: SchemeConfig) {
    && (s.targetNode.Some? ==> 0 <= s.targetNode.value)
    && (forall g | g in s.quota.goals :: GoalFits(g))
    && forall f | f in s.filters :: FilterFits(kernel, f)
  }

  predicate TargetFits(t: TargetConfig) {
    t.pid.Some? ==> 0 < t.pid.value
  }

  predicate ContextFits(kernel: Kernel, c: ContextConfig) {
    && (forall p, f | p in c.probes && f in p.filters :: ProbeFilterFits(f))
    && (forall f | f in c.sampleControl.filters :: SampleFilterFits(kernel, f))
    && (forall t | t in c.targets :: TargetFits(t))
    && forall s | s in c.schemes :: SchemeFits(kernel, s)
  }
}
