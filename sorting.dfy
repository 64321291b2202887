/**
 * JavaScript's `Array.prototype.sort` with a comparator, which is a stable
 * sort. Every sort in the dashboard orders records by one key (a number or a
 * string), ascending or descending, and ties compare as 0; `Compare` is that
 * comparator, and `SortBy` is the stable sort it induces, defined as an
 * insertion sort and proved sorted, a permutation of its input and stable.
 */
module Sorting {
  import Text

  /** A sort key: a number (CPU, memory) or a string (a container name). */
  datatype SortKey = Num(x: real) | Str(s: string)

  datatype Order = Asc | Desc

  /**
   * JavaScript `<` on keys of one kind. A column's keys are all numbers or all
   * strings; numbers are put before strings only so that the order is total.
   */
  predicate KeyLess(a: SortKey, b: SortKey) {
    match a
    case Num(x) => (match b case Num(y) => x < y case Str(_) => true)
    case Str(s) => (match b case Num(_) => false case Str(t) => Text.LexLess(s, t))
  }

  /**
   * The comparator of DockerTable.tsx:166-168: positive when `a` must come
   * after `b`, negative when before, 0 on a tie.
   */
  function Compare(a: SortKey, b: SortKey, order: Order): int {
    if KeyLess(b, a) then (if order == Asc then 1 else -1)
    else if KeyLess(a, b) then (if order == Asc then -1 else 1)
    else 0
  }

  /** `a` may stand before `b` in the sorted output. */
  predicate Le(a: SortKey, b: SortKey, order: Order) {
    Compare(a, b, order) <= 0
  }

  lemma KeyLessStrictTotal(a: SortKey, b: SortKey)
    ensures !KeyLess(a, a)
    ensures KeyLess(a, b) ==> !KeyLess(b, a)
    ensures a == b || KeyLess(a, b) || KeyLess(b, a)
  {
    if a.Str? {
      Text.LexLessIrreflexive(a.s);
      if b.Str? {
        if KeyLess(a, b) {
          Text.LexLessAsymmetric(a.s, b.s);
        }
        Text.LexLessTrichotomy(a.s, b.s);
      }
    }
  }

  lemma KeyLessTransitive(a: SortKey, b: SortKey, c: SortKey)
    requires KeyLess(a, b) && KeyLess(b, c)
    ensures KeyLess(a, c)
  {
    if a.Str? {
      Text.LexLessTransitive(a.s, b.s, c.s);
    }
  }

  /** The comparator is 0 exactly on equal keys and is antisymmetric. */
  lemma CompareProperties(a: SortKey, b: SortKey, order: Order)
    ensures Compare(a, b, order) == 0 <==> a == b
    ensures Compare(a, b, order) == -Compare(b, a, order)
    ensures Le(a, b, order) || Le(b, a, order)
  {
    KeyLessStrictTotal(a, b);
  }

  /** "may stand before" is transitive, so a sorted sequence is sorted pairwise. */
  lemma LeTransitive(a: SortKey, b: SortKey, c: SortKey, order: Order)
    requires Le(a, b, order) && Le(b, c, order)
    ensures Le(a, c, order)
  {
    KeyLessStrictTotal(a, b);
    KeyLessStrictTotal(b, c);
    KeyLessStrictTotal(a, c);
    if KeyLess(a, b) && KeyLess(b, c) { KeyLessTransitive(a, b, c); }
    if KeyLess(c, b) && KeyLess(b, a) { KeyLessTransitive(c, b, a); }
  }

  /** For numbers: ascending is `<=`, descending is `>=`. */
  lemma NumOrder(x: real, y: real)
    ensures Le(Num(x), Num(y), Asc) <==> x <= y
    ensures Le(Num(x), Num(y), Desc) <==> x >= y
  {
  }

  predicate Sorted<T>(s: seq<T>, key: T -> SortKey, order: Order) {
    forall i, j :: 0 <= i < j < |s| ==> Le(key(s[i]), key(s[j]), order)
  }

  // ---------------------------------------------------------------------------
  // The stable sort.

  /**
   * Inserts `x`, which comes later in the input than every element of `s`,
   * after every element that need not follow it.
   */
  function Insert<T>(x: T, s: seq<T>, key: T -> SortKey, order: Order): seq<T>
    decreases |s|
  {
    if s == [] then [x]
    else if Le(key(s[|s| - 1]), key(x), order) then s + [x]
    else Insert(x, s[..|s| - 1], key, order) + [s[|s| - 1]]
  }

  /** The stable sort of `s` under `Compare`: insertion sort, left to right. */
  function SortBy<T>(s: seq<T>, key: T -> SortKey, order: Order): seq<T>
    decreases |s|
  {
    if s == [] then []
    else Insert(s[|s| - 1], SortBy(s[..|s| - 1], key, order), key, order)
  }

  lemma {:induction false} InsertPermutes<T>(x: T, s: seq<T>, key: T -> SortKey, order: Order)
    ensures multiset(Insert(x, s, key, order)) == multiset(s) + multiset{x}
    ensures |Insert(x, s, key, order)| == |s| + 1
    decreases |s|
  {
    if s != [] && !Le(key(s[|s| - 1]), key(x), order) {
      InsertPermutes(x, s[..|s| - 1], key, order);
      assert s == s[..|s| - 1] + [s[|s| - 1]];
    }
  }

  lemma SortedAppend<T>(s: seq<T>, y: T, key: T -> SortKey, order: Order)
    requires Sorted(s, key, order)
    requires forall i :: 0 <= i < |s| ==> Le(key(s[i]), key(y), order)
    ensures Sorted(s + [y], key, order)
  {
  }

  lemma {:induction false} InsertSorted<T>(x: T, s: seq<T>, key: T -> SortKey, order: Order)
    requires Sorted(s, key, order)
    ensures Sorted(Insert(x, s, key, order), key, order)
    decreases |s|
  {
    if s != [] {
      var init, last := s[..|s| - 1], s[|s| - 1];
      if Le(key(last), key(x), order) {
        forall i | 0 <= i < |s|
          ensures Le(key(s[i]), key(x), order)
        {
          if i < |s| - 1 { LeTransitive(key(s[i]), key(last), key(x), order); }
        }
        SortedAppend(s, x, key, order);
      } else {
        CompareProperties(key(last), key(x), order);
        InsertSorted(x, init, key, order);
        var t := Insert(x, init, key, order);
        InsertPermutes(x, init, key, order);
        forall i | 0 <= i < |t|
          ensures Le(key(t[i]), key(last), order)
        {
          assert t[i] in multiset(t);
          if t[i] != x {
            assert t[i] in multiset(init);
            var k :| 0 <= k < |init| && init[k] == t[i];
            assert s[k] == init[k];
          }
        }
        SortedAppend(t, last, key, order);
      }
    }
  }

  /** The output is a permutation of the input. */
  lemma {:induction false} SortByPermutes<T>(s: seq<T>, key: T -> SortKey, order: Order)
    ensures multiset(SortBy(s, key, order)) == multiset(s)
    ensures |SortBy(s, key, order)| == |s|
    decreases |s|
  {
    if s != [] {
      SortByPermutes(s[..|s| - 1], key, order);
      InsertPermutes(s[|s| - 1], SortBy(s[..|s| - 1], key, order), key, order);
      assert s == s[..|s| - 1] + [s[|s| - 1]];
    }
  }

  /** The output is ordered by the comparator. */
  lemma {:induction false} SortBySorted<T>(s: seq<T>, key: T -> SortKey, order: Order)
    ensures Sorted(SortBy(s, key, order), key, order)
    decreases |s|
  {
    if s != [] {
      SortBySorted(s[..|s| - 1], key, order);
      InsertSorted(s[|s| - 1], SortBy(s[..|s| - 1], key, order), key, order);
    }
  }

  /** The elements of `s` whose key is `k`, in the order of `s`. */
  function SameKey<T>(s: seq<T>, key: T -> SortKey, k: SortKey): seq<T>
    decreases |s|
  {
    if s == [] then []
    else SameKey(s[..|s| - 1], key, k) + (if key(s[|s| - 1]) == k then [s[|s| - 1]] else [])
  }

  lemma {:induction false} InsertSameKey<T>(x: T, s: seq<T>, key: T -> SortKey, order: Order, k: SortKey)
    ensures SameKey(Insert(x, s, key, order), key, k)
         == SameKey(s, key, k) + (if key(x) == k then [x] else [])
    decreases |s|
  {
    if s == [] {
      assert SameKey([x], key, k) == SameKey([], key, k) + (if key(x) == k then [x] else []) by {
        assert [x][..0] == [];
      }
    } else {
      var init, last := s[..|s| - 1], s[|s| - 1];
      if Le(key(last), key(x), order) {
        assert (s + [x])[..|s|] == s;
      } else {
        CompareProperties(key(last), key(x), order);
        InsertSameKey(x, init, key, order, k);
        var t := Insert(x, init, key, order);
        assert (t + [last])[..|t|] == t;
      }
    }
  }

  /**
   * Stability: for every key, the elements carrying it appear in the output
   * in the same order as in the input.
   */
  lemma {:induction false} SortByStable<T>(s: seq<T>, key: T -> SortKey, order: Order, k: SortKey)
    ensures SameKey(SortBy(s, key, order), key, k) == SameKey(s, key, k)
    decreases |s|
  {
    if s != [] {
      SortByStable(s[..|s| - 1], key, order, k);
      InsertSameKey(s[|s| - 1], SortBy(s[..|s| - 1], key, order), key, order, k);
    }
  }

  /**
   * After sorting, everything in the first `n` positions may stand before
   * everything after them: a prefix of the sorted output is a "top n".
   */
  lemma SortedPrefixDominates<T>(s: seq<T>, key: T -> SortKey, order: Order, n: nat)
    requires n <= |s|
    requires Sorted(s, key, order)
    ensures forall x, y :: x in s[..n] && y in multiset(s) - multiset(s[..n]) ==> Le(key(x), key(y), order)
  {
    assert s == s[..n] + s[n..];
    forall x, y | x in s[..n] && y in multiset(s) - multiset(s[..n])
      ensures Le(key(x), key(y), order)
    {
      assert multiset(s) == multiset(s[..n]) + multiset(s[n..]);
      assert y in multiset(s[n..]);
      var i :| 0 <= i < n && s[..n][i] == x;
      var j :| 0 <= j < |s[n..]| && s[n..][j] == y;
      assert s[i] == x && s[n + j] == y;
    }
  }

  // ---------------------------------------------------------------------------
  // The same sort performed in place on an array.

  /**
   * `Insert` puts `x` right after the last element that may stand before it,
   * when every element after that one must follow `x`.
   */
  lemma {:induction false} InsertSplit<T>(x: T, s: seq<T>, j: nat, key: T -> SortKey, order: Order)
    requires j <= |s| && (j == 0 || Le(key(s[j - 1]), key(x), order))
    requires forall k :: j <= k < |s| ==> !Le(key(s[k]), key(x), order)
    ensures Insert(x, s, key, order) == s[..j] + [x] + s[j..]
    decreases |s|
  {
    if j < |s| {
      var init := s[..|s| - 1];
      InsertSplit(x, init, j, key, order);
      assert init[..j] == s[..j];
      assert s[j..] == init[j..] + [s[|s| - 1]];
    } else {
      assert s[..j] == s;
    }
  }

  lemma ShiftedContents<T>(b: seq<T>, s: seq<T>, x: T, j: nat)
    requires j <= |s| && |b| == |s| + 1
    requires forall k :: 0 <= k < j ==> b[k] == s[k]
    requires b[j] == x
    requires forall k :: j < k < |b| ==> b[k] == s[k - 1]
    ensures b == s[..j] + [x] + s[j..]
  {
  }

  /**
   * One step of the in-place sort: `a[..i]` is sorted; shifts the elements
   * that must follow `a[i]` one place right and drops `a[i]` into the gap.
   */
  method InsertInPlace<T>(a: array<T>, i: nat, key: T -> SortKey, order: Order)
    requires i < a.Length
    modifies a
    ensures a[..i + 1] == Insert(old(a[i]), old(a[..i]), key, order)
    ensures a[i + 1..] == old(a[i + 1..])
  {
    ghost var sorted := a[..i];
    var x := a[i];
    var j := i;
    while j > 0 && !Le(key(a[j - 1]), key(x), order)
      invariant 0 <= j <= i
      invariant forall k :: 0 <= k < j ==> a[k] == sorted[k]
      invariant forall k :: j < k <= i ==> a[k] == sorted[k - 1]
      invariant forall k :: i < k < a.Length ==> a[k] == old(a[k])
      invariant forall k :: j <= k < i ==> !Le(key(sorted[k]), key(x), order)
    {
      a[j] := a[j - 1];
      j := j - 1;
    }
    InsertSplit(x, sorted, j, key, order);
    a[j] := x;
    ShiftedContents(a[..i + 1], sorted, x, j);
  }

  /** Sorts `a` in place; afterwards it holds `SortBy` of its old contents. */
  method SortInPlace<T>(a: array<T>, key: T -> SortKey, order: Order)
    modifies a
    ensures a[..] == SortBy(old(a[..]), key, order)
  {
    ghost var input := a[..];
    var i := 0;
    while i < a.Length
      invariant 0 <= i <= a.Length
      invariant a[..i] == SortBy(input[..i], key, order)
      invariant a[i..] == input[i..]
    {
      assert input[..i + 1][..i] == input[..i];
      assert a[i] == input[i];
      InsertInPlace(a, i, key, order);
      i := i + 1;
    }
    assert a[..] == a[..a.Length];
    assert input[..a.Length] == input;
  }
}
