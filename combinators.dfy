/**
 * The functions exercise: generic Map, Filter and Reduce over slices.  A nil
 * slice is None and a non-nil slice, empty or not, is Some; Map and Filter
 * keep nil as nil, while Reduce treats nil like an empty slice.
 */
module Combinators {
  import opened Wrappers

  /** Every element with the action applied, in order. */
  function Mapped<T>(s: seq<T>, action: T -> T): (r: seq<T>)
    ensures |r| == |s| && forall i :: 0 <= i < |s| ==> r[i] == action(s[i])
  {
    seq(|s|, i requires 0 <= i < |s| => action(s[i]))
  }

  /** The elements the predicate accepts, in their original order. */
  function Filtered<T>(s: seq<T>, keep: T -> bool): seq<T>
  {
    if s == [] then []
    else Filtered(s[..|s| - 1], keep) + (if keep(s[|s| - 1]) then [s[|s| - 1]] else [])
  }

  /** The accumulator after feeding every element, first to last, into the action. */
  function FoldLeft<T>(s: seq<T>, initial: T, action: (T, T) -> T): T
  {
    if s == [] then initial else action(FoldLeft(s[..|s| - 1], initial, action), s[|s| - 1])
  }

  /** Map: nil stays nil; otherwise a new slice of the same length holding action(v) for each v. */
  method Map<T>(data: Option<seq<T>>, action: T -> T) returns (r: Option<seq<T>>)
    ensures r.None? <==> data.None?
    ensures r.Some? ==> |r.value| == |data.value|
    ensures r.Some? ==> forall i :: 0 <= i < |data.value| ==> r.value[i] == action(data.value[i])
  {
    if data.None? {
      return None;
    }
    var s := data.value;
    var out := [];
    var i := 0;
    while i < |s|
      invariant 0 <= i <= |s|
      invariant out == Mapped(s[..i], action)
    {
      assert s[..i + 1] == s[..i] + [s[i]];
      out := out + [action(s[i])];
      i := i + 1;
    }
    assert s[..i] == s;
    return Some(out);
  }

  /** Filter: nil stays nil; otherwise the elements the predicate accepts, in order. */
  method Filter<T>(data: Option<seq<T>>, keep: T -> bool) returns (r: Option<seq<T>>)
    ensures r.None? <==> data.None?
    ensures r.Some? ==> r.value == Filtered(data.value, keep)
  {
    if data.None? {
      return None;
    }
    var s := data.value;
    var out := [];
    var i := 0;
    while i < |s|
      invariant 0 <= i <= |s|
      invariant out == Filtered(s[..i], keep)
    {
      assert s[..i + 1][..i] == s[..i];
      if keep(s[i]) {
        out := out + [s[i]];
      }
      i := i + 1;
    }
    assert s[..i] == s;
    return Some(out);
  }

  /** Reduce: the left fold of the action from initial; a nil slice folds nothing. */
  method Reduce<T>(data: Option<seq<T>>, initial: T, action: (T, T) -> T) returns (r: T)
    ensures data.None? ==> r == initial
    ensures data.Some? ==> r == FoldLeft(data.value, initial, action)
  {
    var s := if data.None? then [] else data.value;
    var ac := initial;
    var i := 0;
    while i < |s|
      invariant 0 <= i <= |s|
      invariant ac == FoldLeft(s[..i], initial, action)
    {
      assert s[..i + 1][..i] == s[..i];
      ac := action(ac, s[i]);
      i := i + 1;
    }
    assert s[..i] == s;
    return ac;
  }

  /** Mapping a concatenation maps each part. */
  lemma MappedConcat<T>(a: seq<T>, b: seq<T>, action: T -> T)
    ensures Mapped(a + b, action) == Mapped(a, action) + Mapped(b, action)
  {
  }

  /** Filtering a concatenation filters each part and keeps them in that order. */
  lemma {:induction false} FilteredConcat<T>(a: seq<T>, b: seq<T>, keep: T -> bool)
    ensures Filtered(a + b, keep) == Filtered(a, keep) + Filtered(b, keep)
    decreases |b|
  {
    if b == [] {
      assert a + b == a;
    } else {
      var b' := b[..|b| - 1];
      assert (a + b)[..|a + b| - 1] == a + b';
      assert (a + b)[|a + b| - 1] == b[|b| - 1];
      FilteredConcat(a, b', keep);
    }
  }

  /** Every kept element is accepted by the predicate and comes from the input. */
  lemma {:induction false} FilteredSound<T>(s: seq<T>, keep: T -> bool)
    ensures forall x :: x in Filtered(s, keep) ==> keep(x) && x in s
    decreases |s|
  {
    if s != [] {
      FilteredSound(s[..|s| - 1], keep);
      forall x | x in s[..|s| - 1]
        ensures x in s
      {
        var k :| 0 <= k < |s| - 1 && s[..|s| - 1][k] == x;
        assert s[k] == x;
      }
    }
  }

  /** Every accepted element of the input is kept. */
  lemma {:induction false} FilteredComplete<T>(s: seq<T>, keep: T -> bool)
    ensures forall i :: 0 <= i < |s| && keep(s[i]) ==> s[i] in Filtered(s, keep)
    decreases |s|
  {
    if s != [] {
      var s' := s[..|s| - 1];
      FilteredComplete(s', keep);
      forall i | 0 <= i < |s| - 1 && keep(s[i])
        ensures s[i] in Filtered(s, keep)
      {
        assert s'[i] == s[i];
      }
    }
  }

  /** What one predicate keeps and its negation keeps together make up the input, counting repeats. */
  lemma {:induction false} FilteredPartition<T>(s: seq<T>, keep: T -> bool, drop: T -> bool)
    requires forall x :: drop(x) == !keep(x)
    ensures multiset(Filtered(s, keep)) + multiset(Filtered(s, drop)) == multiset(s)
    decreases |s|
  {
    if s != [] {
      var s', x := s[..|s| - 1], s[|s| - 1];
      assert s == s' + [x];
      FilteredPartition(s', keep, drop);
      FilteredSnoc(s', x, keep);
      FilteredSnoc(s', x, drop);
      assert multiset(s) == multiset(s') + multiset{x};
    }
  }

  /** Folding a concatenation folds the second part starting from the first part's result. */
  lemma {:induction false} FoldLeftConcat<T>(a: seq<T>, b: seq<T>, initial: T, action: (T, T) -> T)
    ensures FoldLeft(a + b, initial, action) == FoldLeft(b, FoldLeft(a, initial, action), action)
    decreases |b|
  {
    if b == [] {
      assert a + b == a;
    } else {
      var b' := b[..|b| - 1];
      assert (a + b)[..|a + b| - 1] == a + b';
      assert (a + b)[|a + b| - 1] == b[|b| - 1];
      FoldLeftConcat(a, b', initial, action);
    }
  }

  function Negate(n: int): int { -n }
  function Increment(n: int): int { n + 1 }
  function Square(n: int): int { n * n }
  function IsZero(n: int): bool { n == 0 }
  function IsOne(n: int): bool { n == 1 }
  function IsEven(n: int): bool { n % 2 == 0 }
  function IsPositive(n: int): bool { n > 0 }
  function Zero(l: int, r: int): int { 0 }
  function Plus(l: int, r: int): int { l + r }

  /** One element more at the end is kept exactly when the predicate accepts it. */
  lemma FilteredSnoc<T>(s: seq<T>, x: T, keep: T -> bool)
    ensures Filtered(s + [x], keep) == Filtered(s, keep) + if keep(x) then [x] else []
  {
    assert (s + [x])[..|s|] == s;
  }

  /** One element more at the end is fed to the action last. */
  lemma FoldLeftSnoc<T>(s: seq<T>, x: T, initial: T, action: (T, T) -> T)
    ensures FoldLeft(s + [x], initial, action) == action(FoldLeft(s, initial, action), x)
  {
    assert (s + [x])[..|s|] == s;
  }

  lemma EvenNumbers()
    ensures Filtered([1, 2, 3, 4, 5], IsEven) == [2, 4]
  {
    FilteredSnoc([], 1, IsEven);
    assert [] + [1] == [1];
    FilteredSnoc([1], 2, IsEven);
    assert [1] + [2] == [1, 2];
    FilteredSnoc([1, 2], 3, IsEven);
    assert [1, 2] + [3] == [1, 2, 3];
    FilteredSnoc([1, 2, 3], 4, IsEven);
    assert [1, 2, 3] + [4] == [1, 2, 3, 4];
    FilteredSnoc([1, 2, 3, 4], 5, IsEven);
    assert [1, 2, 3, 4] + [5] == [1, 2, 3, 4, 5];
  }

  lemma PositiveNumbers()
    ensures Filtered([-1, -2, 1, 2], IsPositive) == [1, 2]
  {
    FilteredSnoc([], -1, IsPositive);
    assert [] + [-1] == [-1];
    FilteredSnoc([-1], -2, IsPositive);
    assert [-1] + [-2] == [-1, -2];
    FilteredSnoc([-1, -2], 1, IsPositive);
    assert [-1, -2] + [1] == [-1, -2, 1];
    FilteredSnoc([-1, -2, 1], 2, IsPositive);
    assert [-1, -2, 1] + [2] == [-1, -2, 1, 2];
  }

  lemma SumOfNumbers(initial: int)
    ensures FoldLeft([1, 2, 3, 4, 5], initial, Plus) == initial + 15
  {
    FoldLeftSnoc([], 1, initial, Plus);
    assert [] + [1] == [1];
    FoldLeftSnoc([1], 2, initial, Plus);
    assert [1] + [2] == [1, 2];
    FoldLeftSnoc([1, 2], 3, initial, Plus);
    assert [1, 2] + [3] == [1, 2, 3];
    FoldLeftSnoc([1, 2, 3], 4, initial, Plus);
    assert [1, 2, 3] + [4] == [1, 2, 3, 4];
    FoldLeftSnoc([1, 2, 3, 4], 5, initial, Plus);
    assert [1, 2, 3, 4] + [5] == [1, 2, 3, 4, 5];
  }

  /** TestMap: nil maps to nil, empty to empty, and the two non-empty cases elementwise. */
  method ScenarioMap() returns (nilCase: Option<seq<int>>, empty: Option<seq<int>>, inc: Option<seq<int>>, squares: Option<seq<int>>)
    ensures nilCase == None && empty == Some([])
    ensures inc == Some([2, 3, 4, 5, 6]) && squares == Some([1, 4, 9, 16, 25])
  {
    nilCase := Map(None, Negate);
    empty := Map(Some([]), Negate);
    inc := Map(Some([1, 2, 3, 4, 5]), Increment);
    assert inc.value == [2, 3, 4, 5, 6];
    squares := Map(Some([1, 2, 3, 4, 5]), Square);
    assert squares.value == [1, 4, 9, 16, 25];
  }

  /** TestFilter: nil to nil, empty to empty, the even numbers and the positive numbers. */
  method ScenarioFilter() returns (nilCase: Option<seq<int>>, empty: Option<seq<int>>, even: Option<seq<int>>, positive: Option<seq<int>>)
    ensures nilCase == None && empty == Some([])
    ensures even == Some([2, 4]) && positive == Some([1, 2])
  {
    nilCase := Filter(None, IsZero);
    empty := Filter(Some([]), IsOne);
    even := Filter(Some([1, 2, 3, 4, 5]), IsEven);
    EvenNumbers();
    positive := Filter(Some([-1, -2, 1, 2]), IsPositive);
    PositiveNumbers();
  }

  /** TestReduce: nil and empty give the initial value; the sums are 15 and, from 10, 25. */
  method ScenarioReduce() returns (nilCase: int, empty: int, sum: int, sumFromTen: int)
    ensures nilCase == 0 && empty == 0 && sum == 15 && sumFromTen == 25
  {
    nilCase := Reduce(None, 0, Zero);
    empty := Reduce(Some([]), 0, Zero);
    sum := Reduce(Some([1, 2, 3, 4, 5]), 0, Plus);
    SumOfNumbers(0);
    sumFromTen := Reduce(Some([1, 2, 3, 4, 5]), 10, Plus);
    SumOfNumbers(10);
  }
}
