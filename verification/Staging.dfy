/** Differential staging, bottom up: every operation may fail at any write, and always
    leaves its node such that the same attempt, made again, finishes the job. */
module Staging {
  import opened Outcomes
  import opened Config
  import opened KernelNodes
  import opened Support

  // ---------- single writes ----------

  /** Nothing but a write that failed of itself stood in the way. */
  ghost predicate Granted(kernel: Kernel, r: Result<()>) {
    r.Err? ==> r.error.IsAccessFailure() && !kernel.steady
  }

  /** One write to a staged leaf: accepted or not. */
  method Write(kernel: Kernel) returns (r: Result<()>)
    ensures Granted(kernel, r)
  {
    var outcome: int := *;
    r := if kernel.steady || outcome == 0 then Ok(()) else if outcome == 1 then Err(Busy) else Err(Io);
  }

  /** Rebuilds indexed children, with contents of the kernel's choosing, only when their number differs. */
  method EnsureCount<N(0)>(kernel: Kernel, nodes: seq<N>, count: nat) returns (r: Result<()>, after: seq<N>)
    ensures r.Err? || |nodes| == count ==> after == nodes
    ensures r.Ok? ==> |after| == count
    ensures count <= I32_MAX ==> Granted(kernel, r)
  {
    after := nodes;
    if count > I32_MAX { return Err(InvalidConfiguration), nodes; }
    r := Write(kernel);
    if r.Err? { return; }
    if |nodes| != count {
      r := Write(kernel);
      if r.Err? { return; }
      after := [];
      for i := 0 to count
        invariant |after| == i
      {
        var child: N := *;
        after := after + [child];
      }
    }
  }

  // ---------- what survives a failed attempt ----------

  /** A list whose elements are compared one by one: as long as the observation has the
      requested length, so do the nodes, and each element the observation lets staging skip
      already reads as requested. */
  ghost predicate ListReady<E>(requested: seq<E>, observed: Option<seq<E>>, present: bool, read: seq<E>) {
    observed.Some? ==>
      && (observed.value == requested ==> read == requested)
      && (present && |observed.value| == |requested| ==>
            && |read| == |requested|
            && forall i | 0 <= i < |requested| && observed.value[i] == requested[i] :: read[i] == requested[i])
  }

  /** The part of a list staged so far, and the rest as it must be to be skipped. */
  ghost predicate ListStaged<E>(requested: seq<E>, observed: Option<seq<E>>, read: seq<E>, n: nat)
    requires n <= |requested|
  {
    && |read| == |requested|
    && (forall i | 0 <= i < n :: read[i] == requested[i])
    && (observed.Some? && |observed.value| == |requested| ==>
          forall i | 0 <= i < |requested| && observed.value[i] == requested[i] :: read[i] == requested[i])
  }

  /** Whether element `i` may be left alone. */
  predicate Skips<E(==)>(requested: seq<E>, observed: Option<seq<E>>, i: nat)
    requires i < |requested|
  {
    observed.Some? && |observed.value| == |requested| && observed.value[i] == requested[i]
  }

  // ---------- regions and targets ----------

  method StageRegion(kernel: Kernel, node: Region, region: Region) returns (r: Result<()>, after: Region)
    ensures r.Ok? ==> after == region
    ensures Granted(kernel, r)
  {
    after := node;
    r := Write(kernel);
    if r.Err? { return; }
    after := after.(start := region.start);
    r := Write(kernel);
    if r.Err? { return; }
    after := after.(end := region.end);
  }

  ghost predicate TargetReady(kernel: Kernel, n: TargetNode, c: TargetConfig, observed: Option<TargetConfig>) {
    observed.Some? ==>
      var o, t := observed.value, ReadTarget(kernel, n);
      && (o.pid == c.pid ==> t.pid == c.pid)
      && (o.obsolete == c.obsolete ==> t.obsolete == c.obsolete)
      && ListReady(c.regions, Some(o.regions), kernel.regions, t.regions)
  }

  method StageTarget(kernel: Kernel, n: TargetNode, c: TargetConfig, observed: Option<TargetConfig>)
    returns (r: Result<()>, after: TargetNode)
    requires TargetFits(c) && TargetReady(kernel, n, c, observed)
    ensures TargetReady(kernel, after, c, observed)
    ensures r.Ok? ==> ReadTarget(kernel, after) == c
    ensures TargetSupported(kernel, c) ==> Granted(kernel, r)
  {
    after := n;
    if observed == Some(c) { return Ok(()), n; }
    if observed.None? || observed.value.pid != c.pid {
      r := Write(kernel);
      if r.Err? { return; }
      after := after.(pid := if c.pid.Some? then c.pid.value else 0);
    }
    if observed.None? || observed.value.obsolete != c.obsolete {
      if kernel.obsolete {
        r := Write(kernel);
        if r.Err? { return; }
        after := after.(obsolete := c.obsolete);
      } else if c.obsolete {
        return Err(UnsupportedFeature), after;
      }
    }
    if kernel.regions {
      var regions;
      r, regions := StageRegions(kernel, after.regions, c.regions, if observed.Some? then Some(observed.value.regions) else None);
      after := after.(regions := regions);
    } else {
      r := if c.regions == [] then Ok(()) else Err(UnsupportedFeature);
    }
  }

  method StageRegions(kernel: Kernel, nodes: seq<Region>, regions: seq<Region>, observed: Option<seq<Region>>)
    returns (r: Result<()>, after: seq<Region>)
    requires ListReady(regions, observed, true, nodes)
    ensures ListReady(regions, observed, true, after)
    ensures r.Ok? ==> after == regions
    ensures Countable(regions) ==> Granted(kernel, r)
  {
    r, after := EnsureCount(kernel, nodes, |regions|);
    if r.Err? { return; }
    for i := 0 to |regions|
      invariant ListStaged(regions, observed, after, i)
    {
      if !Skips(regions, observed, i) {
        var region;
        r, region := StageRegion(kernel, after[i], regions[i]);
        after := after[i := region];
        if r.Err? { return; }
      }
    }
    r := Ok(());
  }

  // ---------- probes ----------

  method StageProbeFilter(kernel: Kernel, n: ProbeFilterNode, c: ProbeFilterConfig) returns (r: Result<()>, after: ProbeFilterNode)
    requires ProbeFilterFits(c)
    ensures r.Ok? ==> ReadProbeFilter(after) == c
    ensures Granted(kernel, r)
  {
    after := n;
    r := Write(kernel);
    if r.Err? { return; }
    after := after.(filterType := c.filterType);
    r := Write(kernel);
    if r.Err? { return; }
    after := after.(matching := c.matching);
    r := Write(kernel);
    if r.Err? { return; }
    after := after.(allow := c.allow);
    if c.cgroupPath.Some? {
      r := Write(kernel);
      if r.Err? { return; }
      after := after.(path := c.cgroupPath.value);
    }
  }

  method StageProbeFilters(kernel: Kernel, nodes: seq<ProbeFilterNode>, filters: seq<ProbeFilterConfig>, observed: Option<seq<ProbeFilterConfig>>)
    returns (r: Result<()>, after: seq<ProbeFilterNode>)
    requires forall f | f in filters :: ProbeFilterFits(f)
    requires ListReady(filters, observed, true, Each(ReadProbeFilter, nodes))
    ensures ListReady(filters, observed, true, Each(ReadProbeFilter, after))
    ensures r.Ok? ==> Each(ReadProbeFilter, after) == filters
    ensures Countable(filters) ==> Granted(kernel, r)
  {
    r, after := EnsureCount(kernel, nodes, |filters|);
    if r.Err? { return; }
    for i := 0 to |filters|
      invariant |after| == |filters| && ListStaged(filters, observed, Each(ReadProbeFilter, after), i)
    {
      if !Skips(filters, observed, i) {
        var filter;
        r, filter := StageProbeFilter(kernel, after[i], filters[i]);
        after := after[i := filter];
        if r.Err? { return; }
      }
    }
    r := Ok(());
  }

  method StagePreparations(kernel: Kernel, nodes: seq<string>, preparations: seq<string>, observed: Option<seq<string>>)
    returns (r: Result<()>, after: seq<string>)
    requires ListReady(preparations, observed, true, nodes)
    ensures ListReady(preparations, observed, true, after)
    ensures r.Ok? ==> after == preparations
    ensures Countable(preparations) ==> Granted(kernel, r)
  {
    r, after := EnsureCount(kernel, nodes, |preparations|);
    if r.Err? { return; }
    for i := 0 to |preparations|
      invariant ListStaged(preparations, observed, after, i)
    {
      if !Skips(preparations, observed, i) {
        r := Write(kernel);
        if r.Err? { return; }
        after := after[i := preparations[i]];
      }
    }
    r := Ok(());
  }

  predicate ProbeFits(p: ProbeConfig) {
    forall f | f in p.filters :: ProbeFilterFits(f)
  }

  ghost predicate ProbeReady(kernel: Kernel, n: ProbeNode, c: ProbeConfig, observed: Option<ProbeConfig>) {
    observed.Some? ==>
      var o, p := observed.value, ReadProbe(kernel, n);
      && ListReady(c.filters, Some(o.filters), true, p.filters)
      && (o.weight == c.weight ==> p.weight == c.weight)
      && ListReady(c.preparations, Some(o.preparations), kernel.preparations, p.preparations)
  }

  method StageProbe(kernel: Kernel, n: ProbeNode, c: ProbeConfig, observed: Option<ProbeConfig>) returns (r: Result<()>, after: ProbeNode)
    requires ProbeFits(c) && ProbeReady(kernel, n, c, observed)
    ensures ProbeReady(kernel, after, c, observed)
    ensures r.Ok? ==> ReadProbe(kernel, after) == c
    ensures ProbeSupported(kernel, c) ==> Granted(kernel, r)
  {
    after := n;
    if observed == Some(c) { return Ok(()), n; }
    var filters;
    r, filters := StageProbeFilters(kernel, after.filters, c.filters, if observed.Some? then Some(observed.value.filters) else None);
    after := after.(filters := filters);
    if r.Err? { return; }
    if observed.None? || observed.value.weight != c.weight {
      if kernel.probeWeight {
        r := Write(kernel);
        if r.Err? { return; }
        after := after.(weight := c.weight);
      } else if c.weight != 0 {
        return Err(UnsupportedFeature), after;
      }
    }
    if kernel.preparations {
      var preparations;
      r, preparations := StagePreparations(kernel, after.preparations, c.preparations, if observed.Some? then Some(observed.value.preparations) else None);
      after := after.(preparations := preparations);
    } else {
      r := if c.preparations == [] then Ok(()) else Err(UnsupportedFeature);
    }
  }

  // ---------- sample controls ----------

  method StageSampleFilter(kernel: Kernel, n: SampleFilterNode, c: SampleFilterConfig) returns (r: Result<()>, after: SampleFilterNode)
    requires SampleFilterFits(kernel, c)
    ensures r.Ok? ==> ReadSampleFilter(kernel, after) == c
    ensures Granted(kernel, r)
  {
    after := n;
    r := Write(kernel);
    if r.Err? { return; }
    after := after.(filterType := c.filterType);
    r := Write(kernel);
    if r.Err? { return; }
    after := after.(matching := c.matching);
    r := Write(kernel);
    if r.Err? { return; }
    after := after.(allow := c.allow);
    if c.cpuMask.Some? {
      r := Write(kernel);
      if r.Err? { return; }
      after := after.(mask := c.cpuMask.value);
    }
    if c.threadIds.Some? {
      r := Write(kernel);
      if r.Err? { return; }
      after := after.(threads := c.threadIds.value);
    }
  }

  /** Sample controls are always staged as a whole. */
  method StageSample(kernel: Kernel, n: SampleNode, c: SampleControl) returns (r: Result<()>, after: SampleNode)
    requires kernel.sample && forall f | f in c.filters :: SampleFilterFits(kernel, f)
    ensures r.Ok? ==> ReadSample(kernel, after) == c
    ensures Countable(c.filters) ==> Granted(kernel, r)
  {
    after := n;
    r := Write(kernel);
    if r.Err? { return; }
    after := after.(pageTable := c.pageTable);
    r := Write(kernel);
    if r.Err? { return; }
    after := after.(pageFault := c.pageFault);
    var filters;
    r, filters := EnsureCount(kernel, after.filters, |c.filters|);
    after := after.(filters := filters);
    if r.Err? { return; }
    for i := 0 to |c.filters|
      invariant |after.filters| == |c.filters| && after.pageTable == c.pageTable && after.pageFault == c.pageFault
      invariant forall j | 0 <= j < i :: ReadSampleFilter(kernel, after.filters[j]) == c.filters[j]
    {
      var filter;
      r, filter := StageSampleFilter(kernel, after.filters[i], c.filters[i]);
      after := after.(filters := after.filters[i := filter]);
      if r.Err? { return; }
    }
    r := Ok(());
    assert Each(SampleFilterReader(kernel), after.filters) == c.filters;
  }

  // ---------- quotas ----------

  method StageGoal(kernel: Kernel, n: GoalNode, c: GoalConfig) returns (r: Result<()>, after: GoalNode)
    requires GoalFits(c)
    ensures r.Ok? ==> ReadGoal(kernel, after) == c
    ensures (c.metric != UserInput ==> kernel.goalMetric) ==> Granted(kernel, r)
  {
    after := n;
    if kernel.goalMetric {
      r := Write(kernel);
      if r.Err? { return; }
      after := after.(metric := c.metric);
    } else if c.metric != UserInput {
      return Err(UnsupportedFeature), after;
    }
    r := Write(kernel);
    if r.Err? { return; }
    after := after.(targetValue := c.targetValue);
    r := Write(kernel);
    if r.Err? { return; }
    after := after.(currentValue := c.currentValue);
    if c.nodeId.Some? {
      r := Write(kernel);
      if r.Err? { return; }
      after := after.(node := c.nodeId.value);
    }
    if c.cgroupPath.Some? {
      r := Write(kernel);
      if r.Err? { return; }
      after := after.(path := c.cgroupPath.value);
    }
  }

  /** `stage_goals_from`, on values. */
  method StageGoals(kernel: Kernel, nodes: seq<GoalNode>, goals: seq<GoalConfig>, observed: Option<seq<GoalConfig>>)
    returns (r: Result<()>, after: seq<GoalNode>)
    requires forall g | g in goals :: GoalFits(g)
    requires ListReady(goals, observed, kernel.goals, ReadGoals(kernel, nodes))
    ensures ListReady(goals, observed, kernel.goals, ReadGoals(kernel, after))
    ensures r.Ok? ==> ReadGoals(kernel, after) == goals
    ensures GoalsSupported(kernel, goals) ==> Granted(kernel, r)
  {
    after := nodes;
    if observed == Some(goals) { return Ok(()), nodes; }
    if !kernel.goals { return if goals == [] then Ok(()) else Err(UnsupportedFeature), nodes; }
    r, after := EnsureCount(kernel, nodes, |goals|);
    if r.Err? { return; }
    for i := 0 to |goals|
      invariant |after| == |goals| && ListStaged(goals, observed, ReadGoals(kernel, after), i)
    {
      if !Skips(goals, observed, i) {
        var goal;
        r, goal := StageGoal(kernel, after[i], goals[i]);
        after := after[i := goal];
        if r.Err? { return; }
      }
    }
    r := Ok(());
  }

  ghost predicate QuotaReady(kernel: Kernel, n: QuotaNode, c: QuotaConfig, observed: Option<QuotaConfig>) {
    observed.Some? ==>
      var o, q := observed.value, ReadQuota(kernel, n);
      && (o.time == c.time ==> q.time == c.time)
      && (o.sizeUnits == c.sizeUnits ==> q.sizeUnits == c.sizeUnits)
      && (o.resetInterval == c.resetInterval ==> q.resetInterval == c.resetInterval)
      && (o.weights == c.weights ==> q.weights == c.weights)
      && ListReady(c.goals, Some(o.goals), kernel.goals, q.goals)
      && (o.goalTuner == c.goalTuner ==> q.goalTuner == c.goalTuner)
      && (o.failureNumerator == c.failureNumerator ==> q.failureNumerator == c.failureNumerator)
      && (o.failureDenominator == c.failureDenominator ==> q.failureDenominator == c.failureDenominator)
  }

  method StageWeights(kernel: Kernel, n: QuotaNode, weights: Weights) returns (r: Result<()>, after: QuotaNode)
    ensures after == n.(weights := after.weights) && (r.Ok? ==> after.weights == weights)
    ensures Granted(kernel, r)
  {
    after := n;
    r := Write(kernel);
    if r.Err? { return; }
    after := after.(weights := after.weights.(size := weights.size));
    r := Write(kernel);
    if r.Err? { return; }
    after := after.(weights := after.weights.(accesses := weights.accesses));
    r := Write(kernel);
    if r.Err? { return; }
    after := after.(weights := after.weights.(age := weights.age));
  }

  method StageQuota(kernel: Kernel, n: QuotaNode, c: QuotaConfig, observed: Option<QuotaConfig>) returns (r: Result<()>, after: QuotaNode)
    requires (forall g | g in c.goals :: GoalFits(g)) && QuotaReady(kernel, n, c, observed)
    ensures QuotaReady(kernel, after, c, observed)
    ensures r.Ok? ==> ReadQuota(kernel, after) == c
    ensures QuotaSupported(kernel, c) ==> Granted(kernel, r)
  {
    hide ListReady, ReadGoals, GoalFits;
    after := n;
    if observed == Some(c) {
      QuotaSame(kernel, n, c);
      return Ok(()), n;
    }
    r, after := StageQuotaLimits(kernel, after, c, observed);
    if r.Err? { return; }
    if observed.None? || observed.value.goals != c.goals {
      var goals;
      NothingObserved(c.goals, kernel.goals, ReadGoals(kernel, after.goals));
      r, goals := StageGoals(kernel, after.goals, c.goals, if observed.Some? then Some(observed.value.goals) else None);
      after := after.(goals := goals);
      if r.Err? { return; }
    } else {
      ObservedSame(c.goals, kernel.goals, ReadGoals(kernel, after.goals));
    }
    r, after := StageQuotaOptions(kernel, after, c, observed);
  }

  /** The attributes every kernel has. */
  method StageQuotaLimits(kernel: Kernel, n: QuotaNode, c: QuotaConfig, observed: Option<QuotaConfig>)
    returns (r: Result<()>, after: QuotaNode)
    requires QuotaReady(kernel, n, c, observed)
    ensures QuotaReady(kernel, after, c, observed)
    ensures r.Ok? ==> after == n.(time := c.time, sizeUnits := c.sizeUnits, resetInterval := c.resetInterval, weights := c.weights)
    ensures Granted(kernel, r)
  {
    hide ListReady, ReadGoals;
    after := n;
    if observed.None? || observed.value.time != c.time {
      r := Write(kernel);
      if r.Err? { return; }
      after := after.(time := c.time);
    }
    if observed.None? || observed.value.sizeUnits != c.sizeUnits {
      r := Write(kernel);
      if r.Err? { return; }
      after := after.(sizeUnits := c.sizeUnits);
    }
    if observed.None? || observed.value.resetInterval != c.resetInterval {
      r := Write(kernel);
      if r.Err? { return; }
      after := after.(resetInterval := c.resetInterval);
    }
    if observed.None? || observed.value.weights != c.weights {
      r, after := StageWeights(kernel, after, c.weights);
      if r.Err? { return; }
    }
    r := Ok(());
  }

  lemma NothingObserved<E>(requested: seq<E>, present: bool, read: seq<E>)
    ensures ListReady(requested, None, present, read)
  {
  }

  lemma ObservedSame<E>(requested: seq<E>, present: bool, read: seq<E>)
    ensures ListReady(requested, Some(requested), present, read) ==> read == requested
  {
  }

  lemma QuotaSame(kernel: Kernel, n: QuotaNode, c: QuotaConfig)
    requires QuotaReady(kernel, n, c, Some(c))
    ensures ReadQuota(kernel, n) == c
  {
  }

  /** The optional quota attributes. */
  method StageQuotaOptions(kernel: Kernel, n: QuotaNode, c: QuotaConfig, observed: Option<QuotaConfig>)
    returns (r: Result<()>, after: QuotaNode)
    requires QuotaReady(kernel, n, c, observed)
    requires var q := ReadQuota(kernel, n);
             q == c.(goalTuner := q.goalTuner, failureNumerator := q.failureNumerator, failureDenominator := q.failureDenominator)
    ensures QuotaReady(kernel, after, c, observed)
    ensures r.Ok? ==> ReadQuota(kernel, after) == c
    ensures QuotaSupported(kernel, c) ==> Granted(kernel, r)
  {
    hide ListReady, ReadGoals;
    after := n;
    if observed.None? || observed.value.goalTuner != c.goalTuner {
      if kernel.goalTuner {
        r := Write(kernel);
        if r.Err? { return; }
        after := after.(goalTuner := c.goalTuner);
      } else if c.goalTuner != ConsistentTuner {
        return Err(UnsupportedFeature), after;
      }
    }
    if observed.None? || observed.value.failureNumerator != c.failureNumerator {
      if kernel.failureNumerator {
        r := Write(kernel);
        if r.Err? { return; }
        after := after.(failureNumerator := c.failureNumerator);
      } else if c.failureNumerator != 0 {
        return Err(UnsupportedFeature), after;
      }
    }
    if observed.None? || observed.value.failureDenominator != c.failureDenominator {
      if kernel.failureDenominator {
        r := Write(kernel);
        if r.Err? { return; }
        after := after.(failureDenominator := c.failureDenominator);
      } else if c.failureDenominator != 0 {
        return Err(UnsupportedFeature), after;
      }
    }
    r := Ok(());
  }

  // ---------- watermarks ----------

  ghost predicate WatermarksReady(n: WatermarksConfig, c: WatermarksConfig, observed: Option<WatermarksConfig>) {
    observed.Some? ==>
      var o := observed.value;
      && (o.metric == c.metric ==> n.metric == c.metric) && (o.interval == c.interval ==> n.interval == c.interval)
      && (o.high == c.high ==> n.high == c.high) && (o.middle == c.middle ==> n.middle == c.middle) && (o.low == c.low ==> n.low == c.low)
  }

  method StageWatermarks(kernel: Kernel, n: WatermarksConfig, c: WatermarksConfig, observed: Option<WatermarksConfig>)
    returns (r: Result<()>, after: WatermarksConfig)
    requires WatermarksReady(n, c, observed)
    ensures WatermarksReady(after, c, observed)
    ensures r.Ok? ==> after == c
    ensures Granted(kernel, r)
  {
    after := n;
    if observed == Some(c) { return Ok(()), n; }
    if observed.None? || observed.value.metric != c.metric {
      r := Write(kernel);
      if r.Err? { return; }
      after := after.(metric := c.metric);
    }
    if observed.None? || observed.value.interval != c.interval {
      r := Write(kernel);
      if r.Err? { return; }
      after := after.(interval := c.interval);
    }
    if observed.None? || observed.value.high != c.high {
      r := Write(kernel);
      if r.Err? { return; }
      after := after.(high := c.high);
    }
    if observed.None? || observed.value.middle != c.middle {
      r := Write(kernel);
      if r.Err? { return; }
      after := after.(middle := c.middle);
    }
    if observed.None? || observed.value.low != c.low {
      r := Write(kernel);
      if r.Err? { return; }
      after := after.(low := c.low);
    }
    r := Ok(());
  }
}
