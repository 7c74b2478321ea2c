/** When a configuration may be staged, when it may run, and when it may be applied to
    running kdamonds. Fixed-width fields are assumed to hold values of their width. */
module Validity {
  import opened Outcomes
  import opened Config
  import opened Alignment

  // ---------- text, counts and durations ----------

  predicate ValidToken(s: string) {
    s != "" && forall c | c in s :: c !in {'\0', ' ', '\t', '\n', '\U{0C}', '\r'}
  }

  predicate ValidText(s: string) {
    forall c | c in s :: c !in {'\n', '\r', '\0'}
  }

  predicate ValidOptionalText(s: Option<string>) {
    s.Some? ==> ValidText(s.value)
  }

  predicate ValidRequiredText(s: Option<string>) {
    s.Some? && s.value != "" && ValidText(s.value)
  }

  predicate ValidCount(n: nat) {
    n <= I32_MAX
  }

  // ---------- targets, probes and sampling ----------

  predicate ValidTarget(t: TargetConfig) {
    && ValidCount(|t.regions|)
    && (forall i | 0 <= i < |t.regions| :: t.regions[i].start < t.regions[i].end)
    && forall i | 0 < i < |t.regions| :: t.regions[i - 1].end <= t.regions[i].start
  }

  predicate ValidProbeFilter(f: ProbeFilterConfig) {
    match f.filterType
    case ProbeMemoryControlGroup => ValidRequiredText(f.cgroupPath)
    case ProbeUnknown(name) => ValidToken(name) && ValidOptionalText(f.cgroupPath)
    case _ => f.cgroupPath.None?
  }

  predicate ValidProbe(p: ProbeConfig) {
    && ValidCount(|p.filters|) && ValidCount(|p.preparations|)
    && (forall f | f in p.filters :: ValidProbeFilter(f))
    && forall a | a in p.preparations :: ValidToken(a)
  }

  predicate ValidSampleFilter(f: SampleFilterConfig) {
    && (match f.filterType
        case CpuMask => ValidRequiredText(f.cpuMask) && f.threadIds.None?
        case Threads => ValidRequiredText(f.threadIds) && f.cpuMask.None?
        case WriteAccess => f.cpuMask.None? && f.threadIds.None?
        case SampleUnknown(name) => ValidToken(name))
    && ValidOptionalText(f.cpuMask) && ValidOptionalText(f.threadIds)
  }

  predicate ValidIntervalsGoal(g: IntervalsGoal, intervals: Intervals) {
    && g.minimumSample <= U64_MAX && g.maximumSample <= U64_MAX
    && (g.aggregations == 0
        || (g.accessBasisPoints <= 10_000 && g.minimumSample <= intervals.sample <= g.maximumSample))
  }

  // ---------- schemes ----------

  /** Only the payload of the filter's own type may be present. */
  predicate OnlyPayload(f: FilterConfig, cgroup: bool, address: bool, size: bool, target: bool, sum: bool) {
    && (f.cgroupPath.Some? ==> cgroup) && (f.addressRange.Some? ==> address) && (f.sizeRange.Some? ==> size)
    && (f.targetIndex.Some? ==> target) && (f.weightedSumRange.Some? ==> sum)
  }

  predicate ValidFilter(f: FilterConfig, targets: nat) {
    && (f.placement == Core ==> f.filterType.HandledByOperations() != Some(true))
    && (f.placement == Operations ==> f.filterType.HandledByOperations() != Some(false))
    && (match f.filterType
        case MemoryControlGroup => OnlyPayload(f, true, false, false, false, false) && ValidRequiredText(f.cgroupPath)
        case Address => OnlyPayload(f, false, true, false, false, false)
                        && f.addressRange.Some? && f.addressRange.value.0 <= f.addressRange.value.1
        case HugePageSize => OnlyPayload(f, false, false, true, false, false) && f.sizeRange.Some?
        case TargetIndex => OnlyPayload(f, false, false, false, true, false)
                            && f.targetIndex.Some? && f.targetIndex.value < targets
        case ProbeHitsWeightedSum => OnlyPayload(f, false, false, false, false, true) && f.weightedSumRange.Some?
        case UnknownFilter(name) => ValidToken(name) && f.weightedSumRange.None?
        case _ => OnlyPayload(f, false, false, false, false, false))
    && ValidOptionalText(f.cgroupPath)
    && (f.targetIndex.Some? ==> ValidCount(f.targetIndex.value))
  }

  /** A valid filter is still valid in the directory it is placed in. */
  lemma PlaceKeepsValid(f: FilterConfig, split: bool, targets: nat)
    requires ValidFilter(f, targets)
    ensures ValidFilter(Place(f, split), targets) && Place(f, split).placement != Adaptive
    ensures Place(f, split).(placement := f.placement) == f
    ensures f.placement.Adaptive? && !split ==> Place(f, split).placement == Unified
    ensures f.placement.Adaptive? && split ==> Place(f, split).placement == Core || Place(f, split).placement == Operations
  {
  }

  predicate ValidGoal(g: GoalConfig) {
    && (g.metric.UnknownMetric? ==> ValidToken(g.metric.name))
    && (g.targetValue != 0 && g.metric.UsesBasisPoints() ==> g.targetValue <= 10_000)
    && (g.targetValue != 0 && g.metric.RequiresNode() ==> g.nodeId.Some?)
    && (g.nodeId.Some? ==> 0 <= g.nodeId.value)
    && if g.targetValue != 0 && g.metric.RequiresCgroupPath() then ValidRequiredText(g.cgroupPath) else ValidOptionalText(g.cgroupPath)
  }

  predicate ValidGoals(goals: seq<GoalConfig>) {
    ValidCount(|goals|) && forall g | g in goals :: ValidGoal(g)
  }

  predicate ValidQuota(q: QuotaConfig) {
    && q.time <= U64_MAX && q.resetInterval <= U64_MAX
    && q.weights.size <= 1_000 && q.weights.accesses <= 1_000 && q.weights.age <= 1_000
    && ValidGoals(q.goals)
    && (q.time != 0 || q.sizeUnits != 0 || (exists g | g in q.goals :: g.targetValue != 0) ==> q.resetInterval != 0)
    && (q.goalTuner.UnknownTuner? ==> ValidToken(q.goalTuner.name))
  }

  predicate ValidWatermarks(w: WatermarksConfig) {
    && ValidToken(w.metric) && w.interval <= U64_MAX
    && (w.metric == "free_mem_rate" ==> w.interval != 0 && w.low <= w.middle <= w.high <= 1_000)
  }

  function TotalWeight(destinations: seq<DestinationConfig>): nat
    decreases |destinations|
  {
    if destinations == [] then 0 else destinations[0].weight + TotalWeight(destinations[1..])
  }

  predicate ValidScheme(s: SchemeConfig, targets: nat) {
    && (s.action.UnknownAction? ==> ValidToken(s.action.name))
    && s.applyInterval <= U64_MAX
    && ValidQuota(s.quota) && ValidWatermarks(s.watermarks)
    && ValidCount(|s.filters|) && (forall f | f in s.filters :: ValidFilter(f, targets))
    && ValidCount(|s.destinations|) && (forall d | d in s.destinations :: d.nodeId <= I32_MAX)
    && TotalWeight(s.destinations) <= U32_MAX
    && (s.destinations != [] ==> TotalWeight(s.destinations) != 0)
    && (s.targetNode.Some? ==> 0 <= s.targetNode.value)
  }

  predicate SupportedAction(action: Action, operation: Operation) {
    match operation
    case VirtualAddress | FixedVirtualAddress =>
      action in {WillNeed, Cold, PageOut, HugePage, NoHugePage, Collapse, MigrateHot, MigrateCold, Stat} || action.UnknownAction?
    case PhysicalAddress =>
      action in {PageOut, LruPrioritize, LruDeprioritize, MigrateHot, MigrateCold, DamosAllocate, DamosFree, Stat} || action.UnknownAction?
    case OtherOperation(_) => true
  }

  predicate RunnableScheme(s: SchemeConfig, operation: Operation, targets: nat) {
    && ValidScheme(s, targets)
    && SupportedAction(s.action, operation)
    && (s.action.MigrateHot? || s.action.MigrateCold? || (s.targetNode.None? && s.destinations == []))
    && (operation.PhysicalAddress? || operation.OtherOperation?
        || forall g | g in s.quota.goals :: !g.metric.NodeEligibleMemory?)
  }

  // ---------- weighted probes ----------

  /** Samples per aggregation interval, at least one and at most 32 bits. */
  function MaximumHits(intervals: Intervals): (hits: nat)
    ensures 1 <= hits <= U32_MAX
  {
    var sample := if intervals.sample == 0 then 1 else intervals.sample;
    var hits := intervals.aggregation / sample;
    if hits < 1 then 1 else if hits > U32_MAX then U32_MAX else hits
  }

  function TotalProbeWeight(probes: seq<ProbeConfig>): nat {
    if probes == [] then 0 else TotalProbeWeight(probes[..|probes| - 1]) + probes[|probes| - 1].weight
  }

  predicate Unweighted(probes: seq<ProbeConfig>) {
    forall p | p in probes :: p.weight == 0
  }

  /** The largest weighted hit sum one region can reach stays within 32 bits. */
  predicate WeightsFit(c: ContextConfig) {
    Unweighted(c.probes)
    || (MaximumHits(c.intervals) <= U8_MAX && TotalProbeWeight(c.probes) * MaximumHits(c.intervals) <= U32_MAX)
  }

  lemma {:induction false} WeightOfPrefix(probes: seq<ProbeConfig>, n: nat)
    requires n <= |probes|
    ensures TotalProbeWeight(probes[..n]) <= TotalProbeWeight(probes)
    decreases |probes| - n
  {
    if n < |probes| {
      assert probes[..n + 1][..n] == probes[..n];
      WeightOfPrefix(probes, n + 1);
    } else {
      assert probes[..n] == probes;
    }
  }

  /** Checked multiplications and additions, probe by probe, accept exactly the bounded total. */
  method ValidateWeightedProbes(c: ContextConfig) returns (r: Result<()>)
    ensures r.Ok? <==> WeightsFit(c)
  {
    if Unweighted(c.probes) { return Ok(()); }
    var hits := MaximumHits(c.intervals);
    if hits > U8_MAX { return Err(InvalidConfiguration); }
    hide MaximumHits;
    var total := 0;
    for n := 0 to |c.probes|
      invariant total == TotalProbeWeight(c.probes[..n]) * hits <= U32_MAX
    {
      assert c.probes[..n + 1][..n] == c.probes[..n];
      WeightOfPrefix(c.probes, n + 1);
      Exceeds(TotalProbeWeight(c.probes[..n]), c.probes[n].weight, TotalProbeWeight(c.probes), hits);
      var weighted := c.probes[n].weight * hits;
      if weighted > U32_MAX { return Err(InvalidConfiguration); }
      if total + weighted > U32_MAX { return Err(InvalidConfiguration); }
      total := total + weighted;
    }
    assert c.probes[..|c.probes|] == c.probes;
    r := Ok(());
  }

  /** As many samples as fit an aggregation interval, but at least one and at most 32 bits of them. */
  lemma MaximumHitsFit(intervals: Intervals)
    ensures var sample, hits := if intervals.sample == 0 then 1 else intervals.sample, MaximumHits(intervals);
            (hits > 1 ==> hits * sample <= intervals.aggregation) && (hits < U32_MAX ==> intervals.aggregation < (hits + 1) * sample)
  {
    var sample := if intervals.sample == 0 then 1 else intervals.sample;
    var q, hits := intervals.aggregation / sample, MaximumHits(intervals);
    assert q * sample <= intervals.aggregation < (q + 1) * sample;
    if hits < q { assert hits * sample <= q * sample; }
    if hits > q { assert (q + 1) * sample <= (hits + 1) * sample; }
  }

  /** The weighted hits of one region. */
  function WeightedHits(probes: seq<ProbeConfig>, hits: seq<nat>): nat
    requires |hits| == |probes|
    decreases |probes|
  {
    if probes == [] then 0
    else
      var last := |probes| - 1;
      WeightedHits(probes[..last], hits[..last]) + probes[last].weight * hits[last]
  }

  lemma {:induction false} WeightedHitsBounded(probes: seq<ProbeConfig>, hits: seq<nat>, most: nat)
    requires |hits| == |probes| && forall n | 0 <= n < |hits| :: hits[n] <= most
    ensures WeightedHits(probes, hits) <= TotalProbeWeight(probes) * most
    ensures (forall n | 0 <= n < |hits| :: hits[n] == most) ==> WeightedHits(probes, hits) == TotalProbeWeight(probes) * most
    decreases |probes|
  {
    if probes != [] {
      var last := |probes| - 1;
      WeightedHitsBounded(probes[..last], hits[..last], most);
      HitsAdd(WeightedHits(probes[..last], hits[..last]), TotalProbeWeight(probes[..last]), probes[last].weight, hits[last], most);
    }
  }

  lemma HitsAdd(sum: nat, before: nat, weight: nat, hits: nat, most: nat)
    requires sum <= before * most && hits <= most
    ensures sum + weight * hits <= (before + weight) * most
    ensures sum == before * most && hits == most ==> sum + weight * hits == (before + weight) * most
  {
    assert (before + weight) * most == before * most + weight * most;
    Scales(hits, most, weight);
  }

  lemma Scales(x: nat, y: nat, weight: nat)
    requires x <= y
    ensures weight * x <= weight * y
  {
  }

  /** Weights are accepted exactly when no region's weighted hits can exceed 32 bits. */
  lemma WeightsFitHits(c: ContextConfig)
    ensures WeightsFit(c) <==>
              || Unweighted(c.probes)
              || (MaximumHits(c.intervals) <= U8_MAX
                  && forall hits: seq<nat> | |hits| == |c.probes| && (forall n | 0 <= n < |hits| :: hits[n] <= MaximumHits(c.intervals)) ::
                       WeightedHits(c.probes, hits) <= U32_MAX)
  {
    var most := MaximumHits(c.intervals);
    forall hits: seq<nat> | |hits| == |c.probes| && (forall n | 0 <= n < |hits| :: hits[n] <= most)
      ensures WeightedHits(c.probes, hits) <= TotalProbeWeight(c.probes) * most
    {
      WeightedHitsBounded(c.probes, hits, most);
    }
    var all: seq<nat> := seq(|c.probes|, _ => most);
    WeightedHitsBounded(c.probes, all, most);
  }

  lemma Exceeds(before: nat, next: nat, all: nat, hits: nat)
    requires before + next <= all
    ensures before * hits + next * hits == (before + next) * hits <= all * hits
  {
  }

  // ---------- contexts and hierarchies ----------

  predicate IsPowerOfTwo(n: nat) {
    n == 1 || (n > 1 && n % 2 == 0 && IsPowerOfTwo(n / 2))
  }

  predicate ValidAddressing(c: ContextConfig, page: nat) {
    match c.operation
    case VirtualAddress | FixedVirtualAddress => c.addressUnit == 1
    case PhysicalAddress =>
      && (c.addressUnit < page ==> IsPowerOfTwo(c.addressUnit))
      && forall t | t in c.targets :: forall g | g in t.regions :: g.start * c.addressUnit <= U64_MAX && g.end * c.addressUnit <= U64_MAX
    case OtherOperation(_) => true
  }

  predicate ValidAlignment(c: ContextConfig, page: nat)
    requires 0 < page && 0 < c.addressUnit
  {
    var units := MinimumRegionUnits(c.operation, c.addressUnit, page);
    units.Some? ==> forall t | t in c.targets :: AlignedApart(t.regions, units.value)
  }

  predicate ValidContext(c: ContextConfig, page: nat)
    requires 0 < page
  {
    && 0 < c.addressUnit
    && (c.operation.OtherOperation? ==> ValidToken(c.operation.name))
    && ValidCount(|c.targets|) && ValidCount(|c.schemes|)
    && ValidIntervalsGoal(c.intervalsGoal, c.intervals)
    && ValidText(c.operationAttributes.cpus) && ValidText(c.operationAttributes.threadIds)
    && ValidCount(|c.sampleControl.filters|) && (forall f | f in c.sampleControl.filters :: ValidSampleFilter(f))
    && ValidCount(|c.probes|) && (forall p | p in c.probes :: ValidProbe(p))
    && (forall t | t in c.targets :: ValidTarget(t))
    && ValidAddressing(c, page) && ValidAlignment(c, page)
    && forall s | s in c.schemes :: ValidScheme(s, |c.targets|)
  }

  predicate RunnableSampling(c: ContextConfig) {
    && c.sampleControl.pageTable != c.sampleControl.pageFault
    && (c.sampleControl.pageFault ==> !c.operation.VirtualAddress? && !c.operation.FixedVirtualAddress?)
    && (c.sampleControl.filters != [] ==> c.sampleControl.pageFault)
  }

  /** What each operation asks of the targets that stay. */
  predicate RunnableTargets(c: ContextConfig) {
    match c.operation
    case VirtualAddress => forall t | t in c.targets && !t.obsolete :: t.pid.Some?
    case FixedVirtualAddress => forall t | t in c.targets && !t.obsolete :: t.pid.Some? && t.regions != []
    case PhysicalAddress => |c.targets| == 1 && |Retained(c.targets)| == 1 && c.targets[0].pid.None? && c.targets[0].regions != []
    case OtherOperation(_) => true
  }

  predicate RunnableContext(c: ContextConfig, allowObsolete: bool, page: nat)
    requires 0 < page
  {
    && ValidContext(c, page)
    && (!allowObsolete ==> forall t | t in c.targets :: !t.obsolete)
    && |Retained(c.targets)| != 0
    && WeightsFit(c) && RunnableSampling(c) && RunnableTargets(c)
    && forall s | s in c.schemes :: RunnableScheme(s, c.operation, |Retained(c.targets)|)
  }

  predicate Runnable(config: DamonConfig, allowObsolete: bool, page: nat)
    requires 0 < page
  {
    && ValidCount(|config.kdamonds|) && config.kdamonds != []
    && forall k | k in config.kdamonds ::
         k.refreshInterval <= U32_MAX && |k.contexts| == 1 && RunnableContext(k.contexts[0], allowObsolete, page)
  }

  // ---------- removing obsolete targets ----------

  /** Where the retained targets were. */
  function Origins(targets: seq<TargetConfig>): seq<nat>
    decreases |targets|
  {
    if targets == [] then []
    else
      var last := |targets| - 1;
      Origins(targets[..last]) + if targets[last].obsolete then [] else [last]
  }

  lemma OneMore(targets: seq<TargetConfig>, t: TargetConfig)
    ensures t.obsolete ==> Retained(targets + [t]) == Retained(targets) && Origins(targets + [t]) == Origins(targets)
    ensures !t.obsolete ==> Retained(targets + [t]) == Retained(targets) + [t] && Origins(targets + [t]) == Origins(targets) + [|targets|]
  {
    assert (targets + [t])[..|targets|] == targets;
  }

  /** `kept` are the non-obsolete targets, each once and in order, taken from `origins`. */
  ghost predicate IsRetention(targets: seq<TargetConfig>, origins: seq<nat>, kept: seq<TargetConfig>) {
    && |origins| == |kept|
    && (forall n | 0 <= n < |origins| :: origins[n] < |targets| && targets[origins[n]] == kept[n] && !kept[n].obsolete)
    && (forall m, n | 0 <= m < n < |origins| :: origins[m] < origins[n])
    && forall i | 0 <= i < |targets| && !targets[i].obsolete :: i in origins
  }

  lemma RetentionGrows(targets: seq<TargetConfig>, origins: seq<nat>, kept: seq<TargetConfig>, t: TargetConfig)
    requires IsRetention(targets, origins, kept)
    ensures t.obsolete ==> IsRetention(targets + [t], origins, kept)
    ensures !t.obsolete ==> IsRetention(targets + [t], origins + [|targets|], kept + [t])
  {
  }

  lemma {:induction false} RetainedInOrder(targets: seq<TargetConfig>)
    ensures IsRetention(targets, Origins(targets), Retained(targets))
    decreases |targets|
  {
    if targets != [] {
      hide Retained, Origins, IsRetention;
      var init, t := targets[..|targets| - 1], targets[|targets| - 1];
      assert targets == init + [t];
      OneMore(init, t);
      RetainedInOrder(init);
      RetentionGrows(init, Origins(init), Retained(init), t);
    }
  }

  /** Retention keeps every target exactly when none is obsolete, and is then the identity. */
  lemma {:induction false} AllRetained(targets: seq<TargetConfig>)
    ensures |Retained(targets)| == |targets| <==> forall i | 0 <= i < |targets| :: !targets[i].obsolete
    ensures |Retained(targets)| == |targets| ==> Retained(targets) == targets
    ensures |Retained(targets)| <= |targets|
    decreases |targets|
  {
    if targets != [] {
      hide Retained, Origins;
      var init, t := targets[..|targets| - 1], targets[|targets| - 1];
      assert targets == init + [t];
      OneMore(init, t);
      AllRetained(init);
    }
  }

  /** None of the first `n` targets is obsolete. */
  predicate KeptUpTo(targets: seq<TargetConfig>, n: nat) {
    n <= |targets| && forall i | 0 <= i < n :: !targets[i].obsolete
  }

  /** A target filter still names the target it named exactly when no target up to that
      one was removed: indices are not renumbered. */
  lemma {:induction false} FilterIndexKeepsTarget(targets: seq<TargetConfig>, index: nat)
    requires targets != [] && index < |Origins(targets)|
    ensures Origins(targets)[index] == index <==> KeptUpTo(targets, index + 1)
    decreases |targets|
  {
    hide Retained, Origins, KeptUpTo;
    var init, t := targets[..|targets| - 1], targets[|targets| - 1];
    assert targets == init + [t];
    OneMore(init, t);
    RetentionCounts(init, index);
    if index < |Origins(init)| {
      FilterIndexKeepsTarget(init, index);
    }
    KeptSoFar(init, t, index);
  }

  /** With the first of two targets removed, index 0 is still in range and names the other. */
  lemma FilterNamesAnother()
    ensures var targets := [TargetConfig(Some(7), true, []), TargetConfig(Some(9), false, [])];
            Retained(targets) == [targets[1]] && Origins(targets) == [1] && targets[1] != targets[0]
  {
    var first, second := TargetConfig(Some(7), true, []), TargetConfig(Some(9), false, []);
    assert [] + [first] == [first];
    OneMore([], first);
    assert [first] + [second] == [first, second];
    OneMore([first], second);
  }

  lemma KeptSoFar(init: seq<TargetConfig>, t: TargetConfig, index: nat)
    ensures index < |init| ==> KeptUpTo(init + [t], index + 1) == KeptUpTo(init, index + 1)
    ensures index == |init| ==> KeptUpTo(init + [t], index + 1) == (KeptUpTo(init, index) && !t.obsolete)
  {
    var all := init + [t];
    assert all[|init|] == t && forall i | 0 <= i < |init| :: init[i] == all[i];
  }

  /** How many targets are retained says whether a prefix was kept whole. */
  lemma RetentionCounts(targets: seq<TargetConfig>, index: nat)
    ensures |Origins(targets)| == |Retained(targets)| <= |targets|
    ensures |Retained(targets)| == |targets| <==> KeptUpTo(targets, |targets|)
    ensures KeptUpTo(targets, index + 1) ==> index < |Retained(targets)|
  {
    hide Retained, Origins;
    AllRetained(targets);
    RetainedInOrder(targets);
    if index < |targets| {
      AllRetained(targets[..index + 1]);
      RetainedPrefix(targets, index + 1);
    }
  }

  lemma {:induction false} RetainedPrefix(targets: seq<TargetConfig>, n: nat)
    requires n <= |targets|
    ensures |Retained(targets[..n])| <= |Retained(targets)|
    decreases |targets| - n
  {
    if n < |targets| {
      RetainedPrefix(targets, n + 1);
      assert targets[..n + 1][..n] == targets[..n];
    } else {
      assert targets[..n] == targets;
    }
  }

  lemma {:induction false} RetainedMembers(targets: seq<TargetConfig>)
    ensures forall t :: t in Retained(targets) <==> t in targets && !t.obsolete
    decreases |targets|
  {
    if targets != [] {
      var last := |targets| - 1;
      assert targets == targets[..last] + [targets[last]];
      RetainedMembers(targets[..last]);
    }
  }

  lemma RemovalKeepsContextRunnable(c: ContextConfig, page: nat)
    requires 0 < page && RunnableContext(c, true, page)
    ensures RunnableContext(DropObsoleteContext(c), false, page)
  {
    RetainedMembers(c.targets);
    var d := DropObsoleteContext(c);
    AllRetained(d.targets);
    AllRetained(c.targets);
  }

  lemma NothingToRemove(c: ContextConfig, page: nat)
    requires 0 < page && RunnableContext(c, true, page) && forall t | t in c.targets :: !t.obsolete
    ensures RunnableContext(c, false, page)
  {
  }

  /** An update accepted for running kdamonds, with every kdamond that drops a target
      selected, is a runnable configuration once those targets are gone; the filters that
      name targets stay within the list that remains. */
  lemma ObsoleteRemovalKeepsRunnable(config: DamonConfig, selected: seq<nat>, page: nat)
    requires 0 < page && Runnable(config, true, page)
    requires forall i | 0 <= i < |config.kdamonds| && HasObsolete(config.kdamonds[i]) :: i in selected
    ensures Runnable(WithoutObsolete(config, selected), false, page)
    ensures forall k, s, f | k in WithoutObsolete(config, selected).kdamonds && s in k.contexts[0].schemes && f in s.filters
              && f.filterType.TargetIndex? :: f.targetIndex.Some? && f.targetIndex.value < |k.contexts[0].targets|
  {
    var cleaned := WithoutObsolete(config, selected);
    forall k | k in cleaned.kdamonds
      ensures k.refreshInterval <= U32_MAX && |k.contexts| == 1 && RunnableContext(k.contexts[0], false, page)
    {
      var i :| 0 <= i < |config.kdamonds| && cleaned.kdamonds[i] == k;
      var original := config.kdamonds[i];
      assert original in config.kdamonds;
      if i in selected {
        RemovalKeepsContextRunnable(original.contexts[0], page);
      } else {
        assert original.contexts[0] in original.contexts;
        NothingToRemove(original.contexts[0], page);
      }
    }
    forall k, s, f | k in cleaned.kdamonds && s in k.contexts[0].schemes && f in s.filters && f.filterType.TargetIndex?
      ensures f.targetIndex.Some? && f.targetIndex.value < |k.contexts[0].targets|
    {
      assert ValidFilter(f, |k.contexts[0].targets|);
    }
  }
}
