/**
 * The process manager page: the counters and the busiest matching
 * processes, at most 50 of them.
 */
module ProcessesPage {
  import opened Wrappers
  import opened Text
  import opened Telemetry
  import Seqs
  import Sorting

  const ListCap: nat := 50

  /** The comparator `(a, b) => b.cpu - a.cpu`. */
  function CpuDescending(a: Process, b: Process): real {
    b.cpu - a.cpu
  }

  function CpuKey(p: Process): Sorting.SortKey {
    Sorting.Num(p.cpu)
  }

  /**
   * The difference comparator has the sign of the descending key comparator,
   * so both induce the same stable sort.
   */
  lemma CpuDescendingSign(a: Process, b: Process)
    ensures CpuDescending(a, b) < 0.0 <==> Sorting.Compare(CpuKey(a), CpuKey(b), Sorting.Desc) < 0
    ensures CpuDescending(a, b) == 0.0 <==> Sorting.Compare(CpuKey(a), CpuKey(b), Sorting.Desc) == 0
    ensures CpuDescending(a, b) > 0.0 <==> Sorting.Compare(CpuKey(a), CpuKey(b), Sorting.Desc) > 0
  {
  }

  predicate NameMatches(filter: string, p: Process) {
    Contains(Lower(p.name), Lower(filter))
  }

  /** `filteredList`; `None` is a missing snapshot or one without a `list`. */
  function FilteredList(processes: Option<Processes>, filter: string): (r: seq<Process>)
    ensures |r| <= ListCap
    ensures processes.None? ==> r == []
  {
    if processes.None? then []
    else
      var kept := Seqs.Filter(processes.value.list, p => NameMatches(filter, p));
      Seqs.Take(Sorting.SortBy(kept, CpuKey, Sorting.Desc), ListCap)
  }

  /**
   * The list shows the busiest matching processes: each one matches the
   * filter and is taken from the snapshot, the cpu values never increase,
   * and no matching process left out is busier than one shown.
   */
  lemma FilteredListSpec(processes: Processes, filter: string)
    ensures var r := FilteredList(Some(processes), filter);
      && (forall p :: p in r ==> p in processes.list && NameMatches(filter, p))
      && (forall i, j :: 0 <= i < j < |r| ==> r[i].cpu >= r[j].cpu)
      && multiset(r) <= multiset(processes.list)
      && |r| == Seqs.Min(ListCap, |Seqs.Filter(processes.list, p => NameMatches(filter, p))|)
  {
    var kept := Seqs.Filter(processes.list, p => NameMatches(filter, p));
    var sorted := Sorting.SortBy(kept, CpuKey, Sorting.Desc);
    var r := FilteredList(Some(processes), filter);
    Sorting.SortByPermutes(kept, CpuKey, Sorting.Desc);
    Sorting.SortBySorted(kept, CpuKey, Sorting.Desc);
    Seqs.FilterMultiset(processes.list, p => NameMatches(filter, p));
    assert r == sorted[..|r|];
    assert sorted == r + sorted[|r|..];
    assert multiset(sorted) == multiset(r) + multiset(sorted[|r|..]);
    assert multiset(kept) <= multiset(processes.list);
    forall p | p in r ensures p in processes.list && NameMatches(filter, p) {
      assert p in multiset(kept);
    }
    forall i, j | 0 <= i < j < |r| ensures r[i].cpu >= r[j].cpu {
      assert Sorting.Le(CpuKey(sorted[i]), CpuKey(sorted[j]), Sorting.Desc);
      Sorting.NumOrder(sorted[i].cpu, sorted[j].cpu);
    }
  }

  /** Nothing busier than a shown process is hidden, unless it fails the filter. */
  lemma FilteredListIsTop(processes: Processes, filter: string)
    ensures var r := FilteredList(Some(processes), filter);
      var kept := Seqs.Filter(processes.list, p => NameMatches(filter, p));
      forall p, q :: p in r && q in multiset(kept) - multiset(r) ==> p.cpu >= q.cpu
  {
    var kept := Seqs.Filter(processes.list, p => NameMatches(filter, p));
    var sorted := Sorting.SortBy(kept, CpuKey, Sorting.Desc);
    var r := FilteredList(Some(processes), filter);
    Sorting.SortByPermutes(kept, CpuKey, Sorting.Desc);
    Sorting.SortBySorted(kept, CpuKey, Sorting.Desc);
    assert r == sorted[..|r|];
    Sorting.SortedPrefixDominates(sorted, CpuKey, Sorting.Desc, |r|);
    forall p, q | p in r && q in multiset(kept) - multiset(r) ensures p.cpu >= q.cpu {
      assert Sorting.Le(CpuKey(p), CpuKey(q), Sorting.Desc);
      Sorting.NumOrder(p.cpu, q.cpu);
    }
  }

  /** The empty filter shows the 50 busiest processes of the whole list. */
  lemma EmptyFilterShowsAll(processes: Processes)
    ensures FilteredList(Some(processes), "") == Seqs.Take(Sorting.SortBy(processes.list, CpuKey, Sorting.Desc), ListCap)
  {
    forall i | 0 <= i < |processes.list| ensures NameMatches("", processes.list[i]) {
      assert StartsWith(Lower(processes.list[i].name), Lower(""));
    }
    Seqs.FilterKeepsAll(processes.list, p => NameMatches("", p));
  }

  /** `processes?.all || 0` and the other two counters. */
  function CountOrZero(processes: Option<Processes>, count: Processes -> Option<real>): (n: real)
    ensures processes.None? ==> n == 0.0
    ensures processes.Some? && Truthy(count(processes.value)) ==> n == count(processes.value).value
    ensures processes.Some? && !Truthy(count(processes.value)) ==> n == 0.0
  {
    if processes.None? then 0.0 else Or(count(processes.value), 0.0)
  }
}
