/**
 * The detail tier (`GET /api/stats/details`): runs the heavy probes, merges
 * the container inventory with the container stats samples (prefix matching
 * in both directions, two naming conventions per metric), and derives the
 * top processes, the established-connection count and the physical disks.
 */
module StatsDetails {
  import opened Wrappers
  import opened Text
  import opened Telemetry
  import Seqs
  import Sorting

  datatype NetTotals = NetTotals(rx: real, tx: real)

  datatype BlockTotals = BlockTotals(r: real, w: real)

  /** The normalised stats object attached to every container. */
  datatype Stats = Stats(cpu: real, mem: real, memLimit: real, netIO: NetTotals, blockIO: BlockTotals)

  /** `{ ...container, stats }`. */
  datatype UnifiedContainer = UnifiedContainer(container: Container, stats: Stats)

  /** The stats of a container that no sample matched. */
  const ZeroStats := Stats(0.0, 0.0, 0.0, NetTotals(0.0, 0.0), BlockTotals(0.0, 0.0))

  // ---------------------------------------------------------------------------
  // Matching a container with its sample.

  /** A sample id matches a container id: equal, or either is a prefix of the other. */
  predicate IdsMatch(sampleId: string, containerId: string) {
    sampleId == containerId || StartsWith(containerId, sampleId) || StartsWith(sampleId, containerId)
  }

  /** Entry `i` is a non-null sample whose id matches. */
  predicate MatchesAt(samples: seq<Option<StatSample>>, containerId: string, i: int) {
    0 <= i < |samples| && samples[i].Some? && IdsMatch(samples[i].value.id, containerId)
  }

  /** `dockerStats.find(...)`: the position of the first matching sample, in list order. */
  function FindSample(samples: seq<Option<StatSample>>, containerId: string): (r: Option<nat>)
    ensures r.Some? ==> MatchesAt(samples, containerId, r.value)
    ensures r.Some? ==> forall j :: 0 <= j < r.value ==> !MatchesAt(samples, containerId, j)
    ensures r.None? <==> forall j :: 0 <= j < |samples| ==> !MatchesAt(samples, containerId, j)
    decreases |samples|
  {
    if samples == [] then None
    else if MatchesAt(samples, containerId, 0) then Some(0)
    else
      var rest := FindSample(samples[1..], containerId);
      assert forall j :: 1 <= j < |samples| ==>
        (MatchesAt(samples, containerId, j) <==> MatchesAt(samples[1..], containerId, j - 1));
      match rest
      case None =>
        assert forall j :: 0 <= j < |samples| ==> !MatchesAt(samples, containerId, j) by {
          forall j | 1 <= j < |samples| ensures !MatchesAt(samples, containerId, j) {
            assert !MatchesAt(samples[1..], containerId, j - 1);
          }
        }
        None
      case Some(k) =>
        assert MatchesAt(samples, containerId, k + 1);
        Some(k + 1)
  }

  /** The id rule is symmetric and holds whenever either id is a prefix of the other. */
  lemma IdsMatchIsPrefixRelation(sampleId: string, containerId: string)
    ensures IdsMatch(sampleId, containerId) <==> sampleId <= containerId || containerId <= sampleId
    ensures IdsMatch(sampleId, containerId) <==> IdsMatch(containerId, sampleId)
  {
  }

  // ---------------------------------------------------------------------------
  // Normalising a matched sample.

  /** `sample.netIO?.rx` and friends: a field of an optional nested object. */
  function RxOf(n: Option<NetIO>): Option<real> { if n.Some? then n.value.rx else None }
  function TxOf(n: Option<NetIO>): Option<real> { if n.Some? then n.value.tx else None }
  function WxOf(n: Option<NetIO>): Option<real> { if n.Some? then n.value.wx else None }
  function ReadOf(b: Option<BlockIO>): Option<real> { if b.Some? then b.value.r else None }
  function WriteOf(b: Option<BlockIO>): Option<real> { if b.Some? then b.value.w else None }

  /** The `a || b || 0` chains that build the stats object from a matched sample. */
  function Normalize(s: StatSample): Stats {
    Stats(
      cpu := Or(s.cpuPercent, Or(s.cpu_percent, 0.0)),
      mem := Or(s.memUsage, Or(s.mem_usage, 0.0)),
      memLimit := Or(s.memLimit, Or(s.mem_limit, 0.0)),
      netIO := NetTotals(rx := Or(RxOf(s.netIO), 0.0), tx := Or(TxOf(s.netIO), Or(WxOf(s.netIO), 0.0))),
      blockIO := BlockTotals(r := Or(ReadOf(s.blockIO), 0.0), w := Or(WriteOf(s.blockIO), 0.0)))
  }

  /**
   * The normalisation table read as a list of candidate fields: the value of
   * the first candidate that is present and non-zero, else 0.
   */
  function FirstTruthy(candidates: seq<Option<real>>): real
    decreases |candidates|
  {
    if candidates == [] then 0.0
    else if Truthy(candidates[0]) then candidates[0].value
    else FirstTruthy(candidates[1..])
  }

  /** The result is non-zero exactly when some candidate is truthy, and is then the first such one. */
  lemma {:induction false} FirstTruthySpec(candidates: seq<Option<real>>)
    ensures FirstTruthy(candidates) != 0.0 <==> exists i :: 0 <= i < |candidates| && Truthy(candidates[i])
    ensures forall i :: (0 <= i < |candidates| && Truthy(candidates[i])
      && forall j :: 0 <= j < i ==> !Truthy(candidates[j])) ==> FirstTruthy(candidates) == candidates[i].value
    decreases |candidates|
  {
    if candidates != [] && !Truthy(candidates[0]) {
      FirstTruthySpec(candidates[1..]);
      assert forall i :: 1 <= i < |candidates| ==> candidates[i] == candidates[1..][i - 1];
      forall i | 0 <= i < |candidates| && Truthy(candidates[i])
          && (forall j :: 0 <= j < i ==> !Truthy(candidates[j]))
        ensures FirstTruthy(candidates) == candidates[i].value
      {
        assert i >= 1;
        assert forall j :: 0 <= j < i - 1 ==> !Truthy(candidates[1..][j]) by {
          forall j | 0 <= j < i - 1 ensures !Truthy(candidates[1..][j]) {
            assert candidates[1..][j] == candidates[j + 1];
          }
        }
      }
      if exists i :: 0 <= i < |candidates[1..]| && Truthy(candidates[1..][i]) {
        var i :| 0 <= i < |candidates[1..]| && Truthy(candidates[1..][i]);
        assert Truthy(candidates[i + 1]);
      }
    }
  }

  lemma FirstTruthyPair(a: Option<real>, b: Option<real>)
    ensures FirstTruthy([a, b]) == Or(a, Or(b, 0.0))
    ensures FirstTruthy([a]) == Or(a, 0.0)
  {
    assert [a, b][1..] == [b];
    assert [b][1..] == [] && [a][1..] == [];
    assert FirstTruthy([b]) == Or(b, FirstTruthy([]));
    assert FirstTruthy([a]) == Or(a, FirstTruthy([]));
  }

  /**
   * Every normalised field is its candidate list, first truthy wins: cpu from
   * cpuPercent then cpu_percent, mem from memUsage then mem_usage, memLimit
   * from memLimit then mem_limit, tx from netIO.tx then netIO.wx.
   */
  lemma NormalizeIsFirstTruthy(s: StatSample)
    ensures Normalize(s).cpu == FirstTruthy([s.cpuPercent, s.cpu_percent])
    ensures Normalize(s).mem == FirstTruthy([s.memUsage, s.mem_usage])
    ensures Normalize(s).memLimit == FirstTruthy([s.memLimit, s.mem_limit])
    ensures Normalize(s).netIO == NetTotals(FirstTruthy([RxOf(s.netIO)]), FirstTruthy([TxOf(s.netIO), WxOf(s.netIO)]))
    ensures Normalize(s).blockIO == BlockTotals(FirstTruthy([ReadOf(s.blockIO)]), FirstTruthy([WriteOf(s.blockIO)]))
  {
    FirstTruthyPair(s.cpuPercent, s.cpu_percent);
    FirstTruthyPair(s.memUsage, s.mem_usage);
    FirstTruthyPair(s.memLimit, s.mem_limit);
    FirstTruthyPair(TxOf(s.netIO), WxOf(s.netIO));
    FirstTruthyPair(RxOf(s.netIO), None);
    FirstTruthyPair(ReadOf(s.blockIO), None);
    FirstTruthyPair(WriteOf(s.blockIO), None);
  }

  /** A present 0 counts as missing: it falls through to the other name. */
  lemma ZeroFallsThrough(s: StatSample)
    requires s.cpuPercent == Some(0.0) && s.cpu_percent == Some(7.0)
    ensures Normalize(s).cpu == 7.0
  {
  }

  // ---------------------------------------------------------------------------
  // The merge.

  /** The stats attached to the container with this id. */
  function StatsFor(containerId: string, samples: seq<Option<StatSample>>): Stats {
    match FindSample(samples, containerId)
    case None => ZeroStats
    case Some(i) => Normalize(samples[i].value)
  }

  /** `containers.map(container => ({ ...container, stats }))`. */
  function MergeContainers(containers: seq<Container>, samples: seq<Option<StatSample>>): (r: seq<UnifiedContainer>)
    ensures |r| == |containers|
    ensures forall i :: 0 <= i < |r| ==> r[i].container == containers[i]
    ensures forall i :: 0 <= i < |r| ==> r[i].stats == StatsFor(containers[i].id, samples)
    decreases |containers|
  {
    if containers == [] then []
    else
      [UnifiedContainer(containers[0], StatsFor(containers[0].id, samples))]
        + MergeContainers(containers[1..], samples)
  }

  /** A container that no sample matches is kept, with every stat 0. */
  lemma UnmatchedGetsZeroStats(containers: seq<Container>, samples: seq<Option<StatSample>>, i: nat)
    requires i < |containers|
    requires forall j :: 0 <= j < |samples| ==> !MatchesAt(samples, containers[i].id, j)
    ensures MergeContainers(containers, samples)[i] == UnifiedContainer(containers[i], ZeroStats)
  {
  }

  /** A truncated sample id still reaches its container. */
  lemma TruncatedIdMatches()
    ensures FindSample([Some(StatSample("ab12cd34", None, None, None, None, None, None, None, None))], "ab12cd34ef") == Some(0)
  {
    assert StartsWith("ab12cd34ef", "ab12cd34");
  }

  /** A sample with the empty id matches every container. */
  lemma EmptyIdMatchesAll(containerId: string)
    ensures IdsMatch("", containerId)
  {
  }

  // ---------------------------------------------------------------------------
  // Derived views.

  function CpuKey(p: Process): Sorting.SortKey {
    Sorting.Num(p.cpu)
  }

  /** `list.sort((a, b) => b.cpu - a.cpu).slice(0, 5)`. */
  function TopProcesses(list: seq<Process>): (r: seq<Process>)
    ensures |r| == Seqs.Min(5, |list|)
    ensures r <= Sorting.SortBy(list, CpuKey, Sorting.Desc)
  {
    Sorting.SortByPermutes(list, CpuKey, Sorting.Desc);
    Seqs.Take(Sorting.SortBy(list, CpuKey, Sorting.Desc), 5)
  }

  /**
   * The top processes are the busiest ones: in non-increasing cpu order,
   * taken from the list, and none left out is busier than one kept.
   */
  lemma TopProcessesAreTop(list: seq<Process>)
    ensures var r := TopProcesses(list);
      && (forall i, j :: 0 <= i < j < |r| ==> r[i].cpu >= r[j].cpu)
      && multiset(r) <= multiset(list)
      && (forall p, q :: p in r && q in multiset(list) - multiset(r) ==> p.cpu >= q.cpu)
  {
    var sorted := Sorting.SortBy(list, CpuKey, Sorting.Desc);
    var r := TopProcesses(list);
    Sorting.SortByPermutes(list, CpuKey, Sorting.Desc);
    Sorting.SortBySorted(list, CpuKey, Sorting.Desc);
    assert r == sorted[..|r|];
    forall i, j | 0 <= i < j < |r| ensures r[i].cpu >= r[j].cpu {
      assert Sorting.Le(CpuKey(sorted[i]), CpuKey(sorted[j]), Sorting.Desc);
      Sorting.NumOrder(sorted[i].cpu, sorted[j].cpu);
    }
    assert sorted == r + sorted[|r|..];
    assert multiset(sorted) == multiset(r) + multiset(sorted[|r|..]);
    Sorting.SortedPrefixDominates(sorted, CpuKey, Sorting.Desc, |r|);
    forall p, q | p in r && q in multiset(list) - multiset(r) ensures p.cpu >= q.cpu {
      assert Sorting.Le(CpuKey(p), CpuKey(q), Sorting.Desc);
      Sorting.NumOrder(p.cpu, q.cpu);
    }
  }

  predicate IsEstablished(c: Connection) {
    c.state == "ESTABLISHED"
  }

  /** The states of the connections, in order. */
  function States(connections: seq<Connection>): seq<string> {
    seq(|connections|, i requires 0 <= i < |connections| => connections[i].state)
  }

  /** The filter keeps as many connections as there are `ESTABLISHED` states. */
  lemma {:induction false} FilterCountsStates(connections: seq<Connection>)
    ensures |Seqs.Filter(connections, IsEstablished)| == multiset(States(connections))["ESTABLISHED"]
    decreases |connections|
  {
    if connections != [] {
      FilterCountsStates(connections[1..]);
      assert States(connections) == [connections[0].state] + States(connections[1..]);
    }
  }

  /** `connections.filter(c => c.state === 'ESTABLISHED').length`. */
  function EstablishedCount(connections: seq<Connection>): (n: nat)
    ensures n == multiset(States(connections))["ESTABLISHED"]
    ensures n <= |connections|
    ensures n == 0 <==> forall i :: 0 <= i < |connections| ==> connections[i].state != "ESTABLISHED"
    ensures n == |connections| <==> forall i :: 0 <= i < |connections| ==> connections[i].state == "ESTABLISHED"
  {
    Seqs.FilterLength(connections, IsEstablished);
    FilterCountsStates(connections);
    |Seqs.Filter(connections, IsEstablished)|
  }

  /** Only the exact upper-case state counts. */
  lemma EstablishedCountExample()
    ensures EstablishedCount([
      Connection("tcp", "a", "b", "ESTABLISHED"), Connection("tcp", "a", "c", "ESTABLISHED"),
      Connection("tcp", "a", "", "LISTEN"), Connection("tcp", "a", "d", "established")]) == 2
  {
  }

  predicate IsPhysicalDisk(d: Disk) {
    d.size > 0 && d.kind != "Virtual"
  }

  /** `disks.filter(d => d.size > 0 && d.type !== 'Virtual')`. */
  function PhysicalDisks(disks: seq<Disk>): (r: seq<Disk>)
    ensures forall d :: d in r <==> d in disks && d.size > 0 && d.kind != "Virtual"
    ensures forall d :: multiset(r)[d] == if IsPhysicalDisk(d) then multiset(disks)[d] else 0
    ensures Seqs.IsSubsequence(r, disks)
  {
    Seqs.FilterMultiset(disks, IsPhysicalDisk);
    Seqs.FilterKeepsOrder(disks, IsPhysicalDisk);
    Seqs.Filter(disks, IsPhysicalDisk)
  }

  // ---------------------------------------------------------------------------
  // The route.

  /** The eleven probes of the route, in `Promise.all` order. */
  datatype DetailProbes = DetailProbes(
    cpu: Probe<Opaque>, osInfo: Probe<Opaque>, fsSize: Probe<seq<FsEntry>>, temp: Probe<Opaque>,
    dockerContainers: Probe<seq<Container>>, dockerStats: Probe<seq<Option<StatSample>>>,
    services: Probe<seq<Opaque>>, processes: Probe<Processes>, users: Probe<seq<Opaque>>,
    diskLayout: Probe<seq<Disk>>, netConnections: Probe<seq<Connection>>)

  /** The JSON body of a successful reply. */
  datatype DetailSnapshot = DetailSnapshot(
    cpu: Opaque, osInfo: Opaque, fs: seq<FsEntry>, temp: Opaque, docker: seq<UnifiedContainer>,
    services: seq<Opaque>, topProcesses: seq<Process>, users: seq<Opaque>, diskLayout: seq<Disk>,
    connections: nat)

  /** The probes without a `.catch`: any of them rejecting rejects `Promise.all`. */
  predicate UncaughtResolved(p: DetailProbes) {
    p.cpu.Resolved? && p.osInfo.Resolved? && p.fsSize.Resolved? && p.temp.Resolved?
    && p.users.Resolved? && p.diskLayout.Resolved?
  }

  const DetailErrorPrefix := "Failed to fetch details: "

  /** `GET /api/stats/details`. */
  function Get(p: DetailProbes): (r: Response<DetailSnapshot>)
    ensures r.ServerError? <==> !UncaughtResolved(p)
    ensures r.ServerError? ==> r.status == 500 && r.messagePrefix == DetailErrorPrefix
    ensures r.Ok? ==> (r.body.cpu == p.cpu.value && r.body.osInfo == p.osInfo.value
      && r.body.fs == p.fsSize.value && r.body.temp == p.temp.value && r.body.users == p.users.value)
    ensures r.Ok? ==> r.body.services == (if p.services.Resolved? then p.services.value else [])
    ensures r.Ok? ==> (|r.body.docker| == |p.dockerContainers.OrElse([])|
      && forall i :: 0 <= i < |r.body.docker| ==> r.body.docker[i].container == p.dockerContainers.value[i])
    ensures r.Ok? && p.dockerStats.Rejected? ==> forall i :: 0 <= i < |r.body.docker| ==> r.body.docker[i].stats == ZeroStats
    ensures r.Ok? ==> forall i :: 0 <= i < |r.body.docker| ==>
      r.body.docker[i].stats == StatsFor(p.dockerContainers.value[i].id, p.dockerStats.OrElse([]))
    ensures r.Ok? && p.processes.Rejected? ==> r.body.topProcesses == []
    ensures r.Ok? ==> |r.body.topProcesses| <= 5
    ensures r.Ok? && p.processes.Resolved? ==> r.body.topProcesses == TopProcesses(p.processes.value.list)
    ensures r.Ok? ==> r.body.connections == EstablishedCount(p.netConnections.OrElse([]))
    ensures r.Ok? ==> r.body.connections <= |p.netConnections.OrElse([])|
    ensures r.Ok? ==> forall d :: d in r.body.diskLayout <==> d in p.diskLayout.value && IsPhysicalDisk(d)
    ensures r.Ok? ==> r.body.diskLayout == PhysicalDisks(p.diskLayout.value)
  {
    if !UncaughtResolved(p) then ServerError(500, DetailErrorPrefix)
    else
      Ok(DetailSnapshot(
        cpu := p.cpu.value,
        osInfo := p.osInfo.value,
        fs := p.fsSize.value,
        temp := p.temp.value,
        docker := MergeContainers(p.dockerContainers.OrElse([]), p.dockerStats.OrElse([])),
        services := p.services.OrElse([]),
        topProcesses := if p.processes.Resolved? then TopProcesses(p.processes.value.list) else [],
        users := p.users.value,
        diskLayout := PhysicalDisks(p.diskLayout.value),
        connections := EstablishedCount(p.netConnections.OrElse([]))))
  }
}
