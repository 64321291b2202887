/**
 * The original stats route (`GET /api/stats`): all probes in one call, the
 * containers paired with their stats sample by exact id only, and the raw
 * sample attached as it came, or a snake_case default object.
 */
module StatsLegacy {
  import opened Wrappers
  import opened Text
  import opened Telemetry
  import StatsDetails

  datatype LegacyNetIO = LegacyNetIO(rx: real, tx: real)

  /** The `stats` of a container: the sample untouched, or the default literal. */
  datatype LegacyStats = Raw(sample: StatSample) | Default(cpu_percent: real, mem_usage: real, netIO: LegacyNetIO)

  datatype LegacyContainer = LegacyContainer(container: Container, stats: LegacyStats)

  /** `{ cpu_percent: 0, mem_usage: 0, netIO: { rx: 0, tx: 0 } }`: no memLimit, no blockIO. */
  const DefaultStats := Default(0.0, 0.0, LegacyNetIO(0.0, 0.0))

  predicate ExactAt(samples: seq<Option<StatSample>>, containerId: string, i: int) {
    0 <= i < |samples| && samples[i].Some? && samples[i].value.id == containerId
  }

  /** `dockerStats.find(s => s && s.id === container.id)`: the first exact match. */
  function FindExact(samples: seq<Option<StatSample>>, containerId: string): (r: Option<nat>)
    ensures r.Some? ==> ExactAt(samples, containerId, r.value)
    ensures r.Some? ==> forall j :: 0 <= j < r.value ==> !ExactAt(samples, containerId, j)
    ensures r.None? <==> forall j :: 0 <= j < |samples| ==> !ExactAt(samples, containerId, j)
    decreases |samples|
  {
    if samples == [] then None
    else if ExactAt(samples, containerId, 0) then Some(0)
    else
      var rest := FindExact(samples[1..], containerId);
      assert forall j :: 1 <= j < |samples| ==>
        (ExactAt(samples, containerId, j) <==> ExactAt(samples[1..], containerId, j - 1));
      match rest
      case None =>
        assert forall j :: 0 <= j < |samples| ==> !ExactAt(samples, containerId, j) by {
          forall j | 1 <= j < |samples| ensures !ExactAt(samples, containerId, j) {
            assert !ExactAt(samples[1..], containerId, j - 1);
          }
        }
        None
      case Some(k) =>
        assert ExactAt(samples, containerId, k + 1);
        Some(k + 1)
  }

  function LegacyStatsFor(containerId: string, samples: seq<Option<StatSample>>): LegacyStats {
    match FindExact(samples, containerId)
    case None => DefaultStats
    case Some(i) => Raw(samples[i].value)
  }

  /** `containers.map(container => ({ ...container, stats }))`. */
  function MergeExact(containers: seq<Container>, samples: seq<Option<StatSample>>): (r: seq<LegacyContainer>)
    ensures |r| == |containers|
    ensures forall i :: 0 <= i < |r| ==> r[i].container == containers[i]
    ensures forall i :: 0 <= i < |r| ==> r[i].stats == LegacyStatsFor(containers[i].id, samples)
    decreases |containers|
  {
    if containers == [] then []
    else
      [LegacyContainer(containers[0], LegacyStatsFor(containers[0].id, samples))]
        + MergeExact(containers[1..], samples)
  }

  /**
   * An attached sample is one of the inputs, unchanged, with the container's
   * exact id; the default is attached exactly when no sample has that id.
   */
  lemma MergeExactAttachesRawOrDefault(containers: seq<Container>, samples: seq<Option<StatSample>>, i: nat)
    requires i < |containers|
    ensures var s := MergeExact(containers, samples)[i].stats;
      && (s.Raw? ==> Some(s.sample) in samples && s.sample.id == containers[i].id)
      && (s == DefaultStats <==> forall j :: 0 <= j < |samples| ==> !ExactAt(samples, containers[i].id, j))
  {
    var id := containers[i].id;
    match FindExact(samples, id)
    case None =>
    case Some(k) =>
      assert samples[k] == Some(samples[k].value);
  }

  /** A sample whose id is a truncation of the container's id is not attached here. */
  lemma TruncatedIdGetsDefault()
    ensures LegacyStatsFor("ab12cd34ef", [Some(StatSample("ab12cd34", None, None, None, None, None, None, None, None))]) == DefaultStats
  {
    assert !ExactAt([Some(StatSample("ab12cd34", None, None, None, None, None, None, None, None))], "ab12cd34ef", 0) by {
      assert |"ab12cd34"| != |"ab12cd34ef"|;
    }
  }

  // ---------------------------------------------------------------------------
  // The two matching rules side by side.

  /**
   * Wherever the exact rule finds a sample, the prefix rule of the detail
   * route finds one too, at the same position or earlier.
   */
  lemma PrefixRuleFindsNoLater(samples: seq<Option<StatSample>>, containerId: string)
    requires FindExact(samples, containerId).Some?
    ensures StatsDetails.FindSample(samples, containerId).Some?
    ensures StatsDetails.FindSample(samples, containerId).value <= FindExact(samples, containerId).value
  {
    var i := FindExact(samples, containerId).value;
    assert StatsDetails.MatchesAt(samples, containerId, i);
  }

  /**
   * The two rules can disagree on a container both of them match: a sample
   * with a truncated id listed first wins under the prefix rule.
   */
  lemma RulesDisagree()
    ensures var samples := [Some(StatSample("ab", None, None, None, None, None, None, None, None)),
                            Some(StatSample("abc", None, None, None, None, None, None, None, None))];
      FindExact(samples, "abc") == Some(1) && StatsDetails.FindSample(samples, "abc") == Some(0)
  {
    var samples := [Some(StatSample("ab", None, None, None, None, None, None, None, None)),
                    Some(StatSample("abc", None, None, None, None, None, None, None, None))];
    assert !ExactAt(samples, "abc", 0) by {
      assert |"ab"| != |"abc"|;
    }
    assert StartsWith("abc", "ab");
  }

  // ---------------------------------------------------------------------------
  // The route.

  /** The ten probes of the route, in `Promise.all` order. */
  datatype LegacyProbes = LegacyProbes(
    cpu: Probe<Opaque>, mem: Probe<Opaque>, osInfo: Probe<Opaque>, currentLoad: Probe<Opaque>,
    time: Probe<nat>, fsSize: Probe<seq<FsEntry>>, networkStats: Probe<seq<Opaque>>, temp: Probe<Opaque>,
    dockerContainers: Probe<seq<Container>>, dockerStats: Probe<seq<Option<StatSample>>>)

  /** The JSON body of a successful reply; `time` contributes only its uptime. */
  datatype LegacySnapshot = LegacySnapshot(
    cpu: Opaque, mem: Opaque, osInfo: Opaque, load: Opaque, uptime: nat, fs: seq<FsEntry>,
    network: seq<Opaque>, temp: Opaque, docker: seq<LegacyContainer>)

  /** The eight probes without a `.catch`. */
  predicate RequiredResolved(p: LegacyProbes) {
    p.cpu.Resolved? && p.mem.Resolved? && p.osInfo.Resolved? && p.currentLoad.Resolved?
    && p.time.Resolved? && p.fsSize.Resolved? && p.networkStats.Resolved? && p.temp.Resolved?
  }

  const LegacyErrorPrefix := "Failed to fetch stats: "

  /** `GET /api/stats`. */
  function Get(p: LegacyProbes): (r: Response<LegacySnapshot>)
    ensures r.ServerError? <==> !RequiredResolved(p)
    ensures r.ServerError? ==> r.status == 500 && r.messagePrefix == LegacyErrorPrefix
    ensures r.Ok? ==> (r.body.cpu == p.cpu.value && r.body.mem == p.mem.value && r.body.osInfo == p.osInfo.value
      && r.body.load == p.currentLoad.value && r.body.uptime == p.time.value && r.body.fs == p.fsSize.value
      && r.body.network == p.networkStats.value && r.body.temp == p.temp.value)
    ensures r.Ok? ==> (|r.body.docker| == |p.dockerContainers.OrElse([])|
      && forall i :: 0 <= i < |r.body.docker| ==> r.body.docker[i].container == p.dockerContainers.value[i])
    ensures r.Ok? && p.dockerStats.Rejected? ==> forall i :: 0 <= i < |r.body.docker| ==> r.body.docker[i].stats == DefaultStats
    ensures r.Ok? ==> forall i :: 0 <= i < |r.body.docker| ==>
      r.body.docker[i].stats == LegacyStatsFor(p.dockerContainers.value[i].id, p.dockerStats.OrElse([]))
  {
    if !RequiredResolved(p) then ServerError(500, LegacyErrorPrefix)
    else
      Ok(LegacySnapshot(
        cpu := p.cpu.value,
        mem := p.mem.value,
        osInfo := p.osInfo.value,
        load := p.currentLoad.value,
        uptime := p.time.value,
        fs := p.fsSize.value,
        network := p.networkStats.value,
        temp := p.temp.value,
        docker := MergeExact(p.dockerContainers.OrElse([]), p.dockerStats.OrElse([]))))
  }
}
