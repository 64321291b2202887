/**
 * The dashboard page: the fast poll that feeds a trend buffer of the last 40
 * (time, cpu, memory) points, the slow poll that stores the detail snapshot,
 * the uptime formatter and the two mount lists of the storage card.
 */
module Dashboard {
  import opened Wrappers
  import opened Text
  import opened Telemetry
  import Seqs
  import StatsDetails

  // ---------------------------------------------------------------------------
  // The memory percentage.

  /** A JavaScript number, as far as the division in the memory percentage can go. */
  datatype JsNumber = Finite(x: real) | PosInfinity | NegInfinity | NaN

  /** JavaScript `a / b`. */
  function JsDivide(a: real, b: real): JsNumber {
    if b != 0.0 then Finite(a / b)
    else if a > 0.0 then PosInfinity
    else if a < 0.0 then NegInfinity
    else NaN
  }

  /** JavaScript `n * 100`. */
  function JsTimes100(n: JsNumber): JsNumber {
    match n
    case Finite(x) => Finite(x * 100.0)
    case _ => n
  }

  /** `si.mem()`, the two fields the history uses. */
  datatype MemInfo = MemInfo(active: real, total: real)

  /** `json.mem ? (json.mem.active / json.mem.total) * 100 : 0`. */
  function MemPercent(mem: Option<MemInfo>): JsNumber {
    if mem.None? then Finite(0.0) else JsTimes100(JsDivide(mem.value.active, mem.value.total))
  }

  /**
   * Only the presence of `mem` is guarded: a missing record gives 0, a sane
   * record a percentage in [0, 100], and a zero total is divided by anyway.
   */
  lemma MemPercentCases(mem: Option<MemInfo>)
    ensures mem.None? ==> MemPercent(mem) == Finite(0.0)
    ensures mem.Some? && 0.0 <= mem.value.active <= mem.value.total && mem.value.total > 0.0 ==>
      MemPercent(mem).Finite? && 0.0 <= MemPercent(mem).x <= 100.0
    ensures mem.Some? && mem.value.total == 0.0 && mem.value.active > 0.0 ==> MemPercent(mem) == PosInfinity
    ensures mem.Some? && mem.value.total == 0.0 && mem.value.active == 0.0 ==> MemPercent(mem) == NaN
  {
    if mem.Some? && 0.0 <= mem.value.active <= mem.value.total && mem.value.total > 0.0 {
      var a, t := mem.value.active, mem.value.total;
      assert a / t <= 1.0 by {
        assert a / t * t == a;
      }
    }
  }

  // ---------------------------------------------------------------------------
  // The trend buffer.

  datatype HistoryPoint = HistoryPoint(time: string, cpu: real, mem: JsNumber)

  const HistoryCapacity: nat := 40

  /** `[...prev, p].slice(-40)`. */
  function Appended(prev: seq<HistoryPoint>, p: HistoryPoint): (r: seq<HistoryPoint>)
    ensures |r| == Seqs.Min(|prev| + 1, HistoryCapacity)
    ensures r[|r| - 1] == p
    ensures exists k :: 0 <= k <= |prev| + 1 && r == (prev + [p])[k..]
    ensures |prev| < HistoryCapacity ==> r == prev + [p]
    ensures |prev| == HistoryCapacity ==> r == prev[1..] + [p]
  {
    var all := prev + [p];
    var r := Seqs.LastN(all, HistoryCapacity);
    assert r == all[|all| - |r|..];
    r
  }

  /** The window after appending `ps` one by one to an empty history. */
  function Replay(ps: seq<HistoryPoint>): seq<HistoryPoint>
    decreases |ps|
  {
    if ps == [] then [] else Appended(Replay(ps[..|ps| - 1]), ps[|ps| - 1])
  }

  /** Trimming before an append and trimming after it keep the same window. */
  lemma LastNAppend(s: seq<HistoryPoint>, p: HistoryPoint, n: nat)
    requires n > 0
    ensures Seqs.LastN(Seqs.LastN(s, n) + [p], n) == Seqs.LastN(s + [p], n)
  {
    if |s| >= n {
      var w := Seqs.LastN(s, n);
      assert w == s[|s| - n..];
      assert Seqs.LastN(w + [p], n) == (w + [p])[1..] == s[|s| - n + 1..] + [p];
      assert Seqs.LastN(s + [p], n) == (s + [p])[|s| + 1 - n..] == s[|s| + 1 - n..] + [p];
    }
  }

  lemma ReplayStep(init: seq<HistoryPoint>, p: HistoryPoint)
    ensures Replay(init + [p]) == Seqs.LastN(Replay(init) + [p], HistoryCapacity)
  {
    assert (init + [p])[..|init|] == init;
  }

  /** However many polls have run, the window holds the 40 most recent points in order. */
  lemma {:induction false} ReplayKeepsLatest(ps: seq<HistoryPoint>)
    ensures Replay(ps) == Seqs.LastN(ps, HistoryCapacity)
    decreases |ps|
  {
    if ps != [] {
      var init, p := ps[..|ps| - 1], ps[|ps| - 1];
      assert ps == init + [p];
      ReplayKeepsLatest(init);
      ReplayStep(init, p);
      LastNAppend(init, p, HistoryCapacity);
    }
  }

  /** `GET /api/stats/fast`, the fields the history reads; the others are passed through. */
  datatype FastSnapshot = FastSnapshot(currentLoad: real, mem: Option<MemInfo>, network: seq<Opaque>, uptime: Option<nat>)

  /** The page's state: the two snapshots, the trend buffer and the loading flag. */
  class DashboardPage {
    var fastData: Option<FastSnapshot>
    var detailData: Option<StatsDetails.DetailSnapshot>
    var cpuHistory: seq<HistoryPoint>
    var loading: bool

    ghost predicate Valid()
      reads this
    {
      |cpuHistory| <= HistoryCapacity
    }

    constructor ()
      ensures Valid()
      ensures fastData == None && detailData == None && cpuHistory == [] && loading
    {
      fastData := None;
      detailData := None;
      cpuHistory := [];
      loading := true;
    }

    /**
     * `fetchFast`: `response` is the parsed body of a successful reply, or
     * `None` when the request failed or the status was not ok (the error is
     * only logged); `now` is the formatted local time.
     */
    method FetchFast(response: Option<FastSnapshot>, now: string)
      requires Valid()
      modifies this
      ensures Valid()
      ensures response.None? ==>
        fastData == old(fastData) && cpuHistory == old(cpuHistory) && loading == old(loading)
      ensures response.Some? ==> (fastData == response && !loading
        && cpuHistory == Appended(old(cpuHistory),
             HistoryPoint(now, response.value.currentLoad, MemPercent(response.value.mem))))
      ensures detailData == old(detailData)
    {
      if response.Some? {
        var json := response.value;
        fastData := response;
        var point := HistoryPoint(now, json.currentLoad, MemPercent(json.mem));
        cpuHistory := Appended(cpuHistory, point);
        loading := false;
      }
    }

    /** `fetchDetails`: a successful reply replaces the detail snapshot; a failure changes nothing. */
    method FetchDetails(response: Option<StatsDetails.DetailSnapshot>)
      requires Valid()
      modifies this
      ensures Valid()
      ensures detailData == (if response.Some? then response else old(detailData))
      ensures fastData == old(fastData) && cpuHistory == old(cpuHistory) && loading == old(loading)
    {
      if response.Some? {
        detailData := response;
      }
    }
  }

  // ---------------------------------------------------------------------------
  // The uptime formatter.

  datatype UptimeSplit = UptimeSplit(d: nat, h: nat, m: nat)

  /** The day, hour and minute counts of `formatUptime`. */
  function SplitUptime(s: nat): UptimeSplit {
    UptimeSplit(s / 86400, (s % 86400) / 3600, (s % 3600) / 60)
  }

  lemma MulAtLeast(k: nat, a: int)
    requires a >= 1
    ensures k * a >= k
  {
    assert k * a == k * (a - 1) + k;
  }

  /** Quotient and remainder are the only such pair. */
  lemma DivModUnique(s: nat, k: nat, q: nat, r: nat)
    requires k > 0 && s == k * q + r && r < k
    ensures s / k == q && s % k == r
  {
    var q0, r0 := s / k, s % k;
    assert s == k * q0 + r0;
    assert k * (q - q0) == r0 - r;
    if q > q0 {
      MulAtLeast(k, q - q0);
    } else if q < q0 {
      MulAtLeast(k, q0 - q);
    }
  }

  /** Hours and minutes are in range and the split accounts for every whole minute. */
  lemma SplitUptimeBounds(s: nat)
    ensures SplitUptime(s).h < 24 && SplitUptime(s).m < 60
    ensures var u := SplitUptime(s);
      u.d * 86400 + u.h * 3600 + u.m * 60 <= s < u.d * 86400 + u.h * 3600 + u.m * 60 + 60
  {
    var u := SplitUptime(s);
    var r1 := s % 86400;
    var r2 := r1 % 3600;
    assert s == 86400 * u.d + r1;
    assert r1 == 3600 * u.h + r2;
    assert s == 3600 * (24 * u.d + u.h) + r2;
    DivModUnique(s, 3600, 24 * u.d + u.h, r2);
    assert s % 3600 == r2;
    assert r2 == 60 * u.m + r2 % 60;
  }

  /** The rendering of a split: `${d > 0 ? d + 'd ' : ''}${h}h ${m}m`. */
  function Render(u: UptimeSplit): string {
    (if u.d > 0 then NatToString(u.d) + "d " else "") + HoursMinutes(u.h, u.m)
  }

  /** `formatUptime(seconds)`; `None` is an absent value. */
  function FormatUptime(seconds: Option<nat>): (r: string)
    ensures r == "-" <==> seconds.None? || seconds.value == 0
  {
    if seconds.None? || seconds.value == 0 then "-" else Render(SplitUptime(seconds.value))
  }

  /** `${h}h ${m}m`. */
  function HoursMinutes(h: nat, m: nat): string {
    NatToString(h) + "h " + NatToString(m) + "m"
  }

  lemma HoursMinutesInjective(h: nat, m: nat, h': nat, m': nat)
    requires HoursMinutes(h, m) == HoursMinutes(h', m')
    ensures h == h' && m == m'
  {
    var mu, mv := NatToString(m), NatToString(m');
    assert HoursMinutes(h, m) == NatToString(h) + ['h'] + (" " + mu + "m");
    assert HoursMinutes(h', m') == NatToString(h') + ['h'] + (" " + mv + "m");
    DigitsThenMarker(NatToString(h), 'h', " " + mu + "m", NatToString(h'), 'h', " " + mv + "m");
    NatToStringInjective(h, h');
    assert mu + "m" == (" " + mu + "m")[1..] == (" " + mv + "m")[1..] == mv + "m";
    assert mu == (mu + "m")[..|mu|];
    assert mv == (mv + "m")[..|mv|];
    NatToStringInjective(m, m');
  }

  lemma RenderShape(u: UptimeSplit)
    ensures u.d > 0 ==> Render(u) == NatToString(u.d) + ['d'] + (" " + HoursMinutes(u.h, u.m))
    ensures u.d == 0 ==> Render(u) == HoursMinutes(u.h, u.m)
  {
  }

  /** With a day count the text has a `d` where the hour count would end its digits. */
  lemma RenderDayMismatch(u: UptimeSplit, v: UptimeSplit)
    requires u.d > 0 && v.d == 0
    ensures Render(u) != Render(v)
  {
    RenderShape(u);
    RenderShape(v);
    var hv := NatToString(v.h);
    var rest := " " + NatToString(v.m) + "m";
    assert HoursMinutes(v.h, v.m) == hv + ['h'] + rest;
    if Render(u) == Render(v) {
      DigitsThenMarker(NatToString(u.d), 'd', " " + HoursMinutes(u.h, u.m), hv, 'h', rest);
    }
  }

  /** Different splits render differently, so the rendered text determines the split. */
  lemma RenderInjective(u: UptimeSplit, v: UptimeSplit)
    requires Render(u) == Render(v)
    ensures u == v
  {
    if u.d > 0 && v.d == 0 {
      RenderDayMismatch(u, v);
    } else if u.d == 0 && v.d > 0 {
      RenderDayMismatch(v, u);
    } else {
      RenderShape(u);
      RenderShape(v);
      var tu, tv := HoursMinutes(u.h, u.m), HoursMinutes(v.h, v.m);
      if u.d > 0 {
        DigitsThenMarker(NatToString(u.d), 'd', " " + tu, NatToString(v.d), 'd', " " + tv);
        NatToStringInjective(u.d, v.d);
        assert tu == (" " + tu)[1..] == (" " + tv)[1..] == tv;
      }
      HoursMinutesInjective(u.h, u.m, v.h, v.m);
    }
  }

  /**
   * Two positive uptimes print the same text exactly when they have the same
   * days, hours and minutes; the seconds are dropped.
   */
  lemma FormatUptimeSameMinute(s: nat, t: nat)
    requires s > 0 && t > 0
    ensures FormatUptime(Some(s)) == FormatUptime(Some(t)) <==> SplitUptime(s) == SplitUptime(t)
  {
    if FormatUptime(Some(s)) == FormatUptime(Some(t)) {
      RenderInjective(SplitUptime(s), SplitUptime(t));
    }
  }

  /** One day, one hour, one minute and one second: the day prefix is printed. */
  lemma FormatUptimeWithDays()
    ensures FormatUptime(Some(90061)) == "1d 1h 1m"
  {
    assert SplitUptime(90061) == UptimeSplit(1, 1, 1);
    assert NatToString(1) == "1";
  }

  /** Under a day there is no day prefix, and leftover seconds are dropped. */
  lemma FormatUptimeUnderADay()
    ensures FormatUptime(Some(3599)) == "0h 59m"
  {
    assert SplitUptime(3599) == UptimeSplit(0, 0, 59);
    assert NatToString(0) == "0";
    assert NatToString(59) == NatToString(5) + [DigitChar(9)] == "59";
  }

  // ---------------------------------------------------------------------------
  // The mount lists of the storage card.

  const OverlayPrefix := "/var/lib/docker/overlay2"

  predicate IsPhysicalMount(e: FsEntry) {
    e.size > 0 && !StartsWith(e.mount, OverlayPrefix)
  }

  /** `fs.filter(d => d.size > 0 && !d.mount.startsWith('/var/lib/docker/overlay2'))`. */
  function PhysicalMounts(fs: seq<FsEntry>): (r: seq<FsEntry>)
    ensures forall e :: e in r <==> e in fs && e.size > 0 && !StartsWith(e.mount, OverlayPrefix)
    ensures forall e :: multiset(r)[e] == if IsPhysicalMount(e) then multiset(fs)[e] else 0
    ensures Seqs.IsSubsequence(r, fs)
  {
    Seqs.FilterMultiset(fs, IsPhysicalMount);
    Seqs.FilterKeepsOrder(fs, IsPhysicalMount);
    Seqs.Filter(fs, IsPhysicalMount)
  }

  const VirtualRoots: seq<string> := ["/mnt/ramdisk", "/var/log", "/tmp", "/run"]

  /** `roots.some(p => mount === p || mount.startsWith(p + '/'))`. */
  predicate UnderRoot(mount: string, root: string) {
    mount == root || StartsWith(mount, root + "/")
  }

  predicate IsVirtualMount(e: FsEntry) {
    exists i :: 0 <= i < |VirtualRoots| && UnderRoot(e.mount, VirtualRoots[i])
  }

  /** The virtual / RAM mount list: no size check. */
  function VirtualMounts(fs: seq<FsEntry>): (r: seq<FsEntry>)
    ensures forall e :: e in r <==> e in fs && IsVirtualMount(e)
    ensures forall e :: multiset(r)[e] == if IsVirtualMount(e) then multiset(fs)[e] else 0
    ensures Seqs.IsSubsequence(r, fs)
  {
    Seqs.FilterMultiset(fs, IsVirtualMount);
    Seqs.FilterKeepsOrder(fs, IsVirtualMount);
    Seqs.Filter(fs, IsVirtualMount)
  }

  /** The section header shows exactly when some entry is under a virtual root. */
  function ShowVirtualHeader(fs: seq<FsEntry>): (b: bool)
    ensures b <==> exists i :: 0 <= i < |fs| && IsVirtualMount(fs[i])
  {
    Seqs.FilterLength(fs, IsVirtualMount);
    |VirtualMounts(fs)| > 0
  }

  /** A root matches itself and what lies below it, but not a longer sibling name. */
  lemma VirtualRootBoundary(size: int)
    ensures IsVirtualMount(FsEntry("tmpfs", "tmpfs", size, 0, 0.0, "/tmp"))
    ensures IsVirtualMount(FsEntry("tmpfs", "tmpfs", size, 0, 0.0, "/tmp/cache"))
    ensures !IsVirtualMount(FsEntry("tmpfs", "tmpfs", size, 0, 0.0, "/tmpx"))
  {
    assert UnderRoot("/tmp", VirtualRoots[2]);
    assert StartsWith("/tmp/cache", "/tmp/");
    assert UnderRoot("/tmp/cache", VirtualRoots[2]);
    var m := "/tmpx";
    assert !UnderRoot(m, VirtualRoots[0]) by { assert m[1] != VirtualRoots[0][1]; }
    assert !UnderRoot(m, VirtualRoots[1]) by { assert m[1] != VirtualRoots[1][1]; }
    assert !UnderRoot(m, VirtualRoots[2]) by { assert m[4] != (VirtualRoots[2] + "/")[4]; }
    assert !UnderRoot(m, VirtualRoots[3]) by { assert m[1] != VirtualRoots[3][1]; }
  }

  /** With no size check on the virtual list, a sized `/run` shows in both lists. */
  lemma MountInBothLists()
    ensures var e := FsEntry("tmpfs", "tmpfs", 1024, 0, 0.0, "/run");
      e in PhysicalMounts([e]) && e in VirtualMounts([e])
  {
    var e := FsEntry("tmpfs", "tmpfs", 1024, 0, 0.0, "/run");
    assert UnderRoot(e.mount, VirtualRoots[3]);
    assert !StartsWith(e.mount, OverlayPrefix) by { assert |e.mount| < |OverlayPrefix|; }
  }
}
