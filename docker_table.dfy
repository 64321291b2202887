/**
 * The container table: the de-duplicated port labels of a row, the sort
 * state toggled by the column headers, and the filtered, sorted row list.
 */
module DockerTable {
  import opened Wrappers
  import opened Text
  import opened Telemetry
  import Seqs
  import Sorting
  import StatsDetails

  // ---------------------------------------------------------------------------
  // Port labels of one row.

  /** `p.PublicPort ? `${PublicPort} -> ${PrivatePort}` : `${PrivatePort}``. */
  function PortLabel(p: Port): string {
    if p.publicPort.Some? && p.publicPort.value != 0 then
      NatToString(p.publicPort.value) + " -> " + NatToString(p.privatePort)
    else NatToString(p.privatePort)
  }

  /** The public port as the label sees it: absent and 0 both mean unpublished. */
  function PublishedAs(p: Port): nat {
    if p.publicPort.Some? then p.publicPort.value else 0
  }

  lemma ArrowLabelShape(p: Port)
    requires PublishedAs(p) != 0
    ensures PortLabel(p) == NatToString(PublishedAs(p)) + [' '] + ("-> " + NatToString(p.privatePort))
  {
  }

  /** A published label has a space right after the public port's digits; a plain label is all digits. */
  lemma ArrowLabelNotPlain(p: Port, q: Port)
    requires PublishedAs(p) != 0 && PublishedAs(q) == 0
    ensures PortLabel(p) != PortLabel(q)
  {
    ArrowLabelShape(p);
    var a := NatToString(PublishedAs(p));
    assert PortLabel(p)[|a|] == ' ';
    assert forall i :: 0 <= i < |PortLabel(q)| ==> IsDigit(PortLabel(q)[i]);
  }

  /** Two ports get the same label exactly when they publish the same port to the same private port. */
  lemma PortLabelInjective(p: Port, q: Port)
    ensures PortLabel(p) == PortLabel(q) <==>
      PublishedAs(p) == PublishedAs(q) && p.privatePort == q.privatePort
  {
    if PublishedAs(p) != 0 && PublishedAs(q) == 0 {
      ArrowLabelNotPlain(p, q);
    } else if PublishedAs(p) == 0 && PublishedAs(q) != 0 {
      ArrowLabelNotPlain(q, p);
    } else if PortLabel(p) == PortLabel(q) {
      if PublishedAs(p) != 0 {
        ArrowLabelShape(p);
        ArrowLabelShape(q);
        var bp, bq := NatToString(p.privatePort), NatToString(q.privatePort);
        DigitsThenMarker(NatToString(PublishedAs(p)), ' ', "-> " + bp, NatToString(PublishedAs(q)), ' ', "-> " + bq);
        NatToStringInjective(PublishedAs(p), PublishedAs(q));
        assert bp == ("-> " + bp)[3..] == ("-> " + bq)[3..] == bq;
      }
      NatToStringInjective(p.privatePort, q.privatePort);
    }
  }

  function Labels(ports: seq<Port>): (r: seq<string>)
    ensures |r| == |ports| && forall i :: 0 <= i < |ports| ==> r[i] == PortLabel(ports[i])
  {
    seq(|ports|, i requires 0 <= i < |ports| => PortLabel(ports[i]))
  }

  /** `Array.from(new Set(container.ports.map(label)))`. */
  function UniquePorts(ports: seq<Port>): seq<string> {
    Seqs.Distinct(Labels(ports))
  }

  /**
   * Every port's label is shown exactly once, nothing else is shown, and the
   * labels keep the order in which they first occur.
   */
  lemma UniquePortsSpec(ports: seq<Port>)
    ensures forall i, j :: 0 <= i < j < |UniquePorts(ports)| ==> UniquePorts(ports)[i] != UniquePorts(ports)[j]
    ensures forall l :: l in UniquePorts(ports) <==> exists i :: 0 <= i < |ports| && PortLabel(ports[i]) == l
    ensures forall i, j :: 0 <= i < j < |UniquePorts(ports)| ==>
      Seqs.FirstIndex(Labels(ports), UniquePorts(ports)[i]) < Seqs.FirstIndex(Labels(ports), UniquePorts(ports)[j])
  {
    Seqs.DistinctFirstOccurrenceOrder(Labels(ports));
    forall l | l in Labels(ports) ensures exists i :: 0 <= i < |ports| && PortLabel(ports[i]) == l {
      var i :| 0 <= i < |Labels(ports)| && Labels(ports)[i] == l;
    }
  }

  /** A port mapping listed twice (IPv4 and IPv6 bindings, say) is shown once. */
  lemma DuplicateMappingShownOnce()
    ensures UniquePorts([Port(Some(8080), 80), Port(Some(8080), 80)]) == ["8080 -> 80"]
  {
    var ports := [Port(Some(8080), 80), Port(Some(8080), 80)];
    assert NatToString(80) == NatToString(8) + [DigitChar(0)] == "80";
    assert NatToString(808) == NatToString(80) + [DigitChar(8)] == "808";
    assert NatToString(8080) == NatToString(808) + [DigitChar(0)] == "8080";
    var l := PortLabel(ports[0]);
    assert l == "8080 -> 80";
    assert Labels(ports) == [l, l];
    assert [l, l][..1] == [l] && [l][..0] == [];
    assert Seqs.Distinct([l]) == [l];
  }

  // ---------------------------------------------------------------------------
  // The sort state.

  datatype OrderBy = ByName | ByCpu | ByMem

  datatype SortState = SortState(order: Sorting.Order, orderBy: OrderBy)

  /** `handleRequestSort(property)` on the state `s`. */
  function NextSort(s: SortState, property: OrderBy): (r: SortState)
    ensures r.orderBy == property
    ensures r.order == Sorting.Desc <==> s.orderBy == property && s.order == Sorting.Asc
  {
    var isAsc := s.orderBy == property && s.order == Sorting.Asc;
    SortState(if isAsc then Sorting.Desc else Sorting.Asc, property)
  }

  /** On the current column, a second click undoes the first. */
  lemma NextSortToggles(s: SortState)
    ensures NextSort(NextSort(s, s.orderBy), s.orderBy) == s
  {
  }

  /** Switching columns always starts ascending, whatever the current order. */
  lemma NextSortNewColumn(s: SortState, property: OrderBy)
    requires property != s.orderBy
    ensures NextSort(s, property) == SortState(Sorting.Asc, property)
  {
  }

  // ---------------------------------------------------------------------------
  // The filtered, sorted row list.

  /** A table row: the table takes any records, so `stats` may be missing. */
  datatype Item = Item(container: Container, stats: Option<StatsDetails.Stats>)

  /** The rows the dashboard hands over: every container of the detail route has stats. */
  function FromDetails(u: StatsDetails.UnifiedContainer): Item {
    Item(u.container, Some(u.stats))
  }

  /** `a.stats?.cpu || 0`. */
  function CpuValue(c: Item): real {
    if c.stats.Some? then Or(Some(c.stats.value.cpu), 0.0) else 0.0
  }

  /** `a.stats?.mem || 0`. */
  function MemValue(c: Item): real {
    if c.stats.Some? then Or(Some(c.stats.value.mem), 0.0) else 0.0
  }

  /** The key of the sorted column. */
  function KeyOf(orderBy: OrderBy): Item -> Sorting.SortKey {
    match orderBy
    case ByCpu => (c: Item) => Sorting.Num(CpuValue(c))
    case ByMem => (c: Item) => Sorting.Num(MemValue(c))
    case ByName => (c: Item) => Sorting.Str(c.container.name)
  }

  /** `name.toLowerCase().includes(filter.toLowerCase())`. */
  predicate NameMatches(filter: string, c: Item) {
    Contains(Lower(c.container.name), Lower(filter))
  }

  function NameFilter(items: seq<Item>, filter: string): seq<Item> {
    Seqs.Filter(items, c => NameMatches(filter, c))
  }

  /** The `filtered` memo as a value: filter when the filter text is non-empty, then sort. */
  function View(items: seq<Item>, filter: string, s: SortState): seq<Item> {
    Sorting.SortBy(if filter != "" then NameFilter(items, filter) else items, KeyOf(s.orderBy), s.order)
  }

  /**
   * The rows shown are the rows whose lower-cased name contains the
   * lower-cased filter, each as often as in the input, ordered by the column.
   */
  lemma ViewSpec(items: seq<Item>, filter: string, s: SortState)
    ensures forall c ::
      multiset(View(items, filter, s))[c] == (if filter == "" || NameMatches(filter, c) then multiset(items)[c] else 0)
    ensures Sorting.Sorted(View(items, filter, s), KeyOf(s.orderBy), s.order)
  {
    var base := if filter != "" then NameFilter(items, filter) else items;
    Sorting.SortByPermutes(base, KeyOf(s.orderBy), s.order);
    Sorting.SortBySorted(base, KeyOf(s.orderBy), s.order);
    Seqs.FilterMultiset(items, c => NameMatches(filter, c));
  }

  /** The empty filter matches every name, so skipping the filter for it changes nothing. */
  lemma EmptyFilterMatchesAll(items: seq<Item>)
    ensures NameFilter(items, "") == items
  {
    forall i | 0 <= i < |items| ensures NameMatches("", items[i]) {
      assert StartsWith(Lower(items[i].container.name), Lower(""));
    }
    Seqs.FilterKeepsAll(items, c => NameMatches("", c));
  }

  /** On a numeric column, ascending means non-decreasing values and descending non-increasing. */
  lemma ViewCpuOrder(items: seq<Item>, filter: string, s: SortState)
    requires s.orderBy == ByCpu
    ensures var r := View(items, filter, s);
      forall i, j :: 0 <= i < j < |r| ==>
        if s.order == Sorting.Asc then CpuValue(r[i]) <= CpuValue(r[j]) else CpuValue(r[i]) >= CpuValue(r[j])
  {
    ViewSpec(items, filter, s);
    var r := View(items, filter, s);
    forall i, j | 0 <= i < j < |r|
      ensures if s.order == Sorting.Asc then CpuValue(r[i]) <= CpuValue(r[j]) else CpuValue(r[i]) >= CpuValue(r[j])
    {
      assert Sorting.Le(KeyOf(ByCpu)(r[i]), KeyOf(ByCpu)(r[j]), s.order);
      Sorting.NumOrder(CpuValue(r[i]), CpuValue(r[j]));
    }
  }

  /** Rows with equal keys keep their input order (the comparator returns 0 on ties). */
  lemma ViewStable(items: seq<Item>, filter: string, s: SortState, k: Sorting.SortKey)
    ensures Sorting.SameKey(View(items, filter, s), KeyOf(s.orderBy), k)
      == Sorting.SameKey(if filter != "" then NameFilter(items, filter) else items, KeyOf(s.orderBy), k)
  {
    Sorting.SortByStable(if filter != "" then NameFilter(items, filter) else items, KeyOf(s.orderBy), s.order, k);
  }

  /** A row without stats sorts as if its cpu and memory were 0. */
  lemma MissingStatsAreZero(c: Container)
    ensures KeyOf(ByCpu)(Item(c, None)) == Sorting.Num(0.0)
    ensures KeyOf(ByMem)(Item(c, None)) == Sorting.Num(0.0)
  {
  }

  /** The table component's state: the filter text and the sort state. */
  class TableState {
    var filter: string
    var order: Sorting.Order
    var orderBy: OrderBy

    /** Initially no filter, sorted by cpu, descending. */
    constructor ()
      ensures filter == "" && order == Sorting.Desc && orderBy == ByCpu
    {
      filter := "";
      order := Sorting.Desc;
      orderBy := ByCpu;
    }

    function Sort(): SortState
      reads this
    {
      SortState(order, orderBy)
    }

    method SetFilter(text: string)
      modifies this
      ensures filter == text && order == old(order) && orderBy == old(orderBy)
    {
      filter := text;
    }

    /** `handleRequestSort`: a header click. */
    method HandleRequestSort(property: OrderBy)
      modifies this
      ensures Sort() == NextSort(old(Sort()), property)
      ensures filter == old(filter)
    {
      var isAsc := orderBy == property && order == Sorting.Asc;
      order := if isAsc then Sorting.Desc else Sorting.Asc;
      orderBy := property;
    }

    /**
     * The `filtered` memo. With a filter, the fresh array returned by
     * `filter` is sorted; without one, `result` is the `containers` prop
     * itself and `sort` reorders it in place.
     */
    method Filtered(containers: array<Item>) returns (result: seq<Item>)
      modifies containers
      ensures result == View(old(containers[..]), filter, Sort())
      ensures filter == "" ==> containers[..] == result
      ensures filter != "" ==> containers[..] == old(containers[..])
    {
      var key := KeyOf(orderBy);
      if filter != "" {
        var kept := NameFilter(containers[..], filter);
        var copy := new Item[|kept|](i requires 0 <= i < |kept| => kept[i]);
        assert copy[..] == kept;
        Sorting.SortInPlace(copy, key, order);
        result := copy[..];
      } else {
        Sorting.SortInPlace(containers, key, order);
        result := containers[..];
      }
    }
  }
}
