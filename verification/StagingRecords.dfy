/** What the record says about stagings: how each ended, and what was read after it. */
module StagingRecords {
  import opened Outcomes
  import opened KernelTree
  import opened Config
  import opened SysfsModel

  /** What was read is what was to be staged; while kdamonds run, wherever intervals are not being tuned. */
  predicate Suits(request: DamonConfig, observed: Option<DamonConfig>, online: bool, read: DamonConfig) {
    EquivalentAfterKernelNormalization(request, if online then AdoptTuned(request, observed, read) else read)
  }

  /** Since `from` every staging was completed, and what was read between one and the next is what it was to stage. */
  ghost predicate StagedWell(trace: seq<Event>, from: nat, online: bool) {
    forall j | from <= j < |trace| && trace[j].StagingDone? :: trace[j].outcome.Ok? && ReadsWell(trace, j, online)
  }

  ghost predicate ReadsWell(trace: seq<Event>, j: nat, online: bool)
    requires j < |trace| && trace[j].StagingDone?
  {
    forall k | j < k < |trace| && trace[k].ConfigurationRead? && (forall m | j < m < k :: !trace[m].StagingDone?) ::
      trace[k].config.Ok? && Suits(trace[j].request, trace[j].observed, online, trace[k].config.value)
  }

  /** The last thing on record since `from` is the end of a staging. */
  ghost predicate StagingEnds(trace: seq<Event>, from: nat, request: DamonConfig, observed: Option<DamonConfig>, outcome: Result<()>) {
    from < |trace| && trace[|trace| - 1] == StagingDone(request, observed, outcome)
  }

  lemma StagingEndsEarlier(trace: seq<Event>, from: nat, from': nat, request: DamonConfig, observed: Option<DamonConfig>, outcome: Result<()>)
    requires StagingEnds(trace, from', request, observed, outcome) && from <= from'
    ensures StagingEnds(trace, from, request, observed, outcome)
  {
  }

  /** Something else was read since `earlier`. */
  ghost predicate Misread(earlier: seq<Event>, later: seq<Event>, request: DamonConfig, observed: Option<DamonConfig>, online: bool) {
    exists k | |earlier| <= k < |later| && later[k].ConfigurationRead? ::
      later[k].config.Ok? ==> !Suits(request, observed, online, later[k].config.value)
  }

  lemma MisreadNow(earlier: seq<Event>, middle: seq<Event>, later: seq<Event>, read: Result<DamonConfig>,
                   request: DamonConfig, observed: Option<DamonConfig>, online: bool)
    requires |earlier| < |middle| && middle[|middle| - 1] == ConfigurationRead(read) && middle <= later
    requires read.Ok? ==> !Suits(request, observed, online, read.value)
    ensures Misread(earlier, later, request, observed, online)
  {
    assert later[|middle| - 1] == ConfigurationRead(read);
  }

  lemma MisreadEarlier(earlier: seq<Event>, middle: seq<Event>, later: seq<Event>, last: seq<Event>, request: DamonConfig, observed: Option<DamonConfig>, online: bool)
    requires Misread(middle, later, request, observed, online) && earlier <= middle && later <= last
    ensures Misread(earlier, last, request, observed, online)
  {
    var k :| |middle| <= k < |later| && later[k].ConfigurationRead? && (later[k].config.Ok? ==> !Suits(request, observed, online, later[k].config.value));
    assert last[k] == later[k];
  }

  /** A staging that failed, or that was misread, is no good one. */
  lemma StagedBadly(from: nat, middle: seq<Event>, later: seq<Event>, request: DamonConfig, observed: Option<DamonConfig>, outcome: Result<()>, online: bool)
    requires StagingEnds(middle, from, request, observed, outcome) && Looked(middle, later)
    requires outcome.Err? || Misread(middle, later, request, observed, online)
    ensures !StagedWell(later, from, online)
  {
    hide Suits;
    var j := |middle| - 1;
    assert later[j] == StagingDone(request, observed, outcome);
    assert forall m | j < m < |later| :: later[m].Passive();
    if outcome.Ok? && ReadsWell(later, j, online) {
      var k :| |middle| <= k < |later| && later[k].ConfigurationRead?
        && (later[k].config.Ok? ==> !Suits(request, observed, online, later[k].config.value));
      assert false;
    }
  }

  lemma StagedWellEarlier(trace: seq<Event>, part: seq<Event>, from: nat, from': nat, online: bool)
    requires StagedWell(trace, from, online) && part <= trace && from <= from'
    ensures StagedWell(part, from', online)
  {
    hide Suits;
    forall j | from' <= j < |part| && part[j].StagingDone? ensures part[j].outcome.Ok? && ReadsWell(part, j, online) {
      assert trace[j] == part[j] && ReadsWell(trace, j, online);
      forall k | j < k < |part| && part[k].ConfigurationRead? && (forall m | j < m < k :: !part[m].StagingDone?)
        ensures part[k].config.Ok? && Suits(part[j].request, part[j].observed, online, part[k].config.value)
      {
        assert trace[k] == part[k];
        assert forall m | j < m < k :: trace[m] == part[m];
      }
    }
  }
}
