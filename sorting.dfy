/** The two sorts of Go's `sort` package that the calendar code uses, over a
    comparator `less`:
    - `sort.SliceStable` reorders a slice in place so that it is non-decreasing
      under `less` and elements that `less` does not separate keep their order;
    - `sort.Slice` promises only that the result is non-decreasing and a
      permutation of the input.
    The specification of a stable sort is `SortBy`, a functional insertion sort;
    the in-place method `InsertionSort` is proved to produce exactly it. */
module Sorting {

  /** `x` and `y` are not separated by `less`. */
  predicate Equiv<T>(less: (T, T) -> bool, x: T, y: T) {
    !less(x, y) && !less(y, x)
  }

  ghost predicate Irreflexive<T(!new)>(less: (T, T) -> bool) {
    forall x :: !less(x, x)
  }

  ghost predicate Transitive<T(!new)>(less: (T, T) -> bool) {
    forall x, y, z :: less(x, y) && less(y, z) ==> less(x, z)
  }

  /** Incomparability is transitive, so `Equiv` is an equivalence relation. */
  ghost predicate EquivTransitive<T(!new)>(less: (T, T) -> bool) {
    forall x, y, z :: Equiv(less, x, y) && Equiv(less, y, z) ==> Equiv(less, x, z)
  }

  /** What `sort.SliceStable` and `sort.Slice` require of their comparator. */
  ghost predicate StrictWeakOrder<T(!new)>(less: (T, T) -> bool) {
    Irreflexive(less) && Transitive(less) && EquivTransitive(less)
  }

  /** Non-decreasing: no element is `less` than the one before it. */
  predicate Sorted<T>(less: (T, T) -> bool, s: seq<T>) {
    forall i :: 0 < i < |s| ==> !less(s[i], s[i - 1])
  }

  /** Non-decreasing, stated for every pair of positions. */
  ghost predicate SortedPairwise<T>(less: (T, T) -> bool, s: seq<T>) {
    forall i, j :: 0 <= i < j < |s| ==> !less(s[j], s[i])
  }

  /** Inserts `x` into `t` after every element that `x` is not `less` than,
      scanning from the back, as one pass of insertion sort does. */
  function InsertBy<T>(less: (T, T) -> bool, x: T, t: seq<T>): (r: seq<T>)
    ensures |r| == |t| + 1
  {
    if t == [] || !less(x, t[|t| - 1]) then t + [x]
    else
      var init := t[..|t| - 1];
      assert t == init + [t[|t| - 1]];
      InsertBy(less, x, init) + [t[|t| - 1]]
  }

  /** The stable sort of `s`: each element in turn is inserted into the sorted
      prefix before it. */
  function SortBy<T>(less: (T, T) -> bool, s: seq<T>): (r: seq<T>)
    ensures |r| == |s|
  {
    if s == [] then []
    else
      var init := s[..|s| - 1];
      assert s == init + [s[|s| - 1]];
      InsertBy(less, s[|s| - 1], SortBy(less, init))
  }

  lemma {:induction false} InsertByPermutes<T>(less: (T, T) -> bool, x: T, t: seq<T>)
    ensures multiset(InsertBy(less, x, t)) == multiset(t) + multiset{x}
    decreases |t|
  {
    if t != [] && less(x, t[|t| - 1]) {
      var init := t[..|t| - 1];
      assert t == init + [t[|t| - 1]];
      InsertByPermutes(less, x, init);
    }
  }

  /** `SortBy` returns a permutation of its input. */
  lemma {:induction false} SortByPermutes<T>(less: (T, T) -> bool, s: seq<T>)
    ensures multiset(SortBy(less, s)) == multiset(s)
    decreases |s|
  {
    if s != [] {
      var init := s[..|s| - 1];
      assert s == init + [s[|s| - 1]];
      SortByPermutes(less, init);
      InsertByPermutes(less, s[|s| - 1], SortBy(less, init));
    }
  }

  /** The elements of `s` that `less` does not separate from `y`, in order. */
  function EquivTo<T>(less: (T, T) -> bool, y: T, s: seq<T>): (r: seq<T>)
    ensures |r| <= |s|
  {
    if s == [] then []
    else EquivTo(less, y, s[..|s| - 1]) + (if Equiv(less, s[|s| - 1], y) then [s[|s| - 1]] else [])
  }

  lemma {:induction false} EquivToAppend<T>(less: (T, T) -> bool, y: T, s: seq<T>, u: seq<T>)
    ensures EquivTo(less, y, s + u) == EquivTo(less, y, s) + EquivTo(less, y, u)
    decreases |u|
  {
    if u == [] {
      assert s + u == s;
    } else {
      var u' := u[..|u| - 1];
      assert (s + u)[..|s + u| - 1] == s + u';
      EquivToAppend(less, y, s, u');
    }
  }

  lemma {:induction false} InsertBySorted<T(!new)>(less: (T, T) -> bool, x: T, t: seq<T>)
    requires Irreflexive(less) && Transitive(less)
    requires Sorted(less, t)
    ensures Sorted(less, InsertBy(less, x, t))
    decreases |t|
  {
    if t == [] || !less(x, t[|t| - 1]) {
    } else {
      var init, last := t[..|t| - 1], t[|t| - 1];
      InsertBySorted(less, x, init);
      var r' := InsertBy(less, x, init);
      // the element now before `last` is either `x` or the old predecessor of `last`
      assert r'[|r'| - 1] == x || (init != [] && r'[|r'| - 1] == init[|init| - 1]) by {
        if init != [] && less(x, init[|init| - 1]) {
          assert r' == InsertBy(less, x, init[..|init| - 1]) + [init[|init| - 1]];
        }
      }
      assert !less(last, x);
    }
  }

  /** `SortBy` returns a non-decreasing sequence. */
  lemma {:induction false} SortBySorted<T(!new)>(less: (T, T) -> bool, s: seq<T>)
    requires Irreflexive(less) && Transitive(less)
    ensures Sorted(less, SortBy(less, s))
    decreases |s|
  {
    if s != [] {
      SortBySorted(less, s[..|s| - 1]);
      InsertBySorted(less, s[|s| - 1], SortBy(less, s[..|s| - 1]));
    }
  }

  /** For a strict weak order, sorted adjacent pairs give sorted pairs everywhere. */
  lemma {:induction false} SortedIsPairwise<T(!new)>(less: (T, T) -> bool, s: seq<T>)
    requires StrictWeakOrder(less)
    requires Sorted(less, s)
    ensures SortedPairwise(less, s)
    decreases |s|
  {
    if |s| > 1 {
      var init := s[..|s| - 1];
      SortedIsPairwise(less, init);
      forall i | 0 <= i < |s| - 1
        ensures !less(s[|s| - 1], s[i])
      {
        NotLessChain(less, s, i, |s| - 1);
      }
    }
  }

  lemma {:induction false} NotLessChain<T(!new)>(less: (T, T) -> bool, s: seq<T>, i: int, j: int)
    requires StrictWeakOrder(less)
    requires Sorted(less, s)
    requires 0 <= i < j < |s|
    ensures !less(s[j], s[i])
    decreases j - i
  {
    if i + 1 < j {
      NotLessChain(less, s, i, j - 1);
      var a, b, c := s[i], s[j - 1], s[j];
      assert !less(b, a) && !less(c, b);
      if !less(a, b) {
        assert Equiv(less, a, b);
        if !less(b, c) {
          assert Equiv(less, b, c);
        }
      }
    }
  }

  lemma {:induction false} InsertByStable<T(!new)>(less: (T, T) -> bool, y: T, x: T, t: seq<T>)
    requires EquivTransitive(less)
    ensures EquivTo(less, y, InsertBy(less, x, t))
         == EquivTo(less, y, t) + EquivTo(less, y, [x])
    decreases |t|
  {
    if t == [] || !less(x, t[|t| - 1]) {
      EquivToAppend(less, y, t, [x]);
    } else {
      var init, last := t[..|t| - 1], t[|t| - 1];
      assert t == init + [last];
      InsertByStable(less, y, x, init);
      EquivToAppend(less, y, InsertBy(less, x, init), [last]);
      EquivToAppend(less, y, init, [last]);
      // `x` and `last` cannot both be equivalent to `y`, since `x` is less than `last`
      EquivTrans(less, x, y, last);
      assert !(Equiv(less, x, y) && Equiv(less, last, y));
      assert EquivTo(less, y, [x]) == [] || EquivTo(less, y, [last]) == [];
    }
  }

  lemma EquivTrans<T(!new)>(less: (T, T) -> bool, x: T, y: T, z: T)
    requires EquivTransitive(less)
    ensures Equiv(less, x, y) && Equiv(less, y, z) ==> Equiv(less, x, z)
  {
  }

  /** `SortBy` is stable: the elements equivalent to any `y` appear in the
      output in the order they had in the input. */
  lemma {:induction false} SortByStable<T(!new)>(less: (T, T) -> bool, y: T, s: seq<T>)
    requires EquivTransitive(less)
    ensures EquivTo(less, y, SortBy(less, s)) == EquivTo(less, y, s)
    decreases |s|
  {
    if s != [] {
      var init := s[..|s| - 1];
      SortByStable(less, y, init);
      InsertByStable(less, y, s[|s| - 1], SortBy(less, init));
      assert s == init + [s[|s| - 1]];
      EquivToAppend(less, y, init, [s[|s| - 1]]);
    }
  }

  /** A sequence that is already sorted is left as it is. */
  lemma {:induction false} SortBySortedIsIdentity<T>(less: (T, T) -> bool, s: seq<T>)
    requires Sorted(less, s)
    ensures SortBy(less, s) == s
    decreases |s|
  {
    if s != [] {
      var init := s[..|s| - 1];
      assert Sorted(less, init);
      SortBySortedIsIdentity(less, init);
      assert s == init + [s[|s| - 1]];
    }
  }

  /** Sorting twice is sorting once. */
  lemma SortByIdempotent<T(!new)>(less: (T, T) -> bool, s: seq<T>)
    requires Irreflexive(less) && Transitive(less)
    ensures SortBy(less, SortBy(less, s)) == SortBy(less, s)
  {
    SortBySorted(less, s);
    SortBySortedIsIdentity(less, SortBy(less, s));
  }

  /** One pass of insertion sort: moves `a[i]` back past the elements of the
      prefix `a[..i]` that it is `less` than. */
  method InsertAt<T>(a: array<T>, i: int, less: (T, T) -> bool)
    requires 0 <= i < a.Length
    modifies a
    ensures a[..i + 1] == InsertBy(less, old(a[i]), old(a[..i]))
    ensures a[i + 1..] == old(a[i + 1..])
  {
    ghost var t := a[..i];
    var x := a[i];
    var j := i;
    while j > 0 && less(x, a[j - 1])
      invariant 0 <= j <= i
      invariant a[..j] == t[..j]
      invariant a[j + 1..i + 1] == t[j..]
      invariant a[i + 1..] == old(a[i + 1..])
      invariant InsertBy(less, x, t) == InsertBy(less, x, t[..j]) + t[j..]
    {
      InsertByStep(less, x, t, j);
      ghost var before := a[..];
      a[j] := a[j - 1];
      assert a[..] == before[j := before[j - 1]];
      Shifted(before, a[..], j, i, t);
      j := j - 1;
    }
    ghost var before := a[..];
    a[j] := x;
    assert a[..] == before[j := x];
    Placed(before, a[..], j, i, x);
  }

  /** Copying the element before `j` onto `j` moves the gap one place
      towards the front. */
  lemma Shifted<T>(before: seq<T>, after: seq<T>, j: int, i: int, t: seq<T>)
    requires 0 < j <= i < |before| && |t| == i
    requires after == before[j := before[j - 1]]
    requires before[..j] == t[..j] && before[j + 1..i + 1] == t[j..]
    ensures after[..j - 1] == t[..j - 1] && after[j..i + 1] == t[j - 1..]
    ensures after[i + 1..] == before[i + 1..]
  {
    assert after[j..i + 1] == [before[j - 1]] + before[j + 1..i + 1];
    assert before[j - 1] == t[j - 1];
    assert t[j - 1..] == [t[j - 1]] + t[j..];
  }

  /** Writing `x` at `j` into `before` gives, up to `i`, the part before
      `j`, then `x`, then the part after `j`. */
  lemma Placed<T>(before: seq<T>, after: seq<T>, j: int, i: int, x: T)
    requires 0 <= j <= i < |before| && after == before[j := x]
    ensures after[..i + 1] == before[..j] + [x] + before[j + 1..i + 1]
    ensures after[i + 1..] == before[i + 1..]
  {
    assert |after[..i + 1]| == |before[..j] + [x] + before[j + 1..i + 1]|;
    forall k | 0 <= k <= i
      ensures after[k] == (before[..j] + [x] + before[j + 1..i + 1])[k]
    {
    }
  }

  lemma InsertByStep<T>(less: (T, T) -> bool, x: T, t: seq<T>, j: int)
    requires 0 < j <= |t| && less(x, t[j - 1])
    ensures InsertBy(less, x, t[..j]) + t[j..] == InsertBy(less, x, t[..j - 1]) + t[j - 1..]
  {
    assert t[..j][..j - 1] == t[..j - 1];
    assert t[j - 1..] == [t[j - 1]] + t[j..];
  }

  /** The last elements of two sorted permutations of each other are
      equivalent: neither is `less` than anything in the sequence. */
  lemma LastEquiv<T(!new)>(less: (T, T) -> bool, r: seq<T>, s: seq<T>)
    requires StrictWeakOrder(less)
    requires Sorted(less, r) && Sorted(less, s)
    requires multiset(r) == multiset(s) && r != []
    ensures |s| == |r| && Equiv(less, r[|r| - 1], s[|s| - 1])
  {
    assert |r| == |multiset(r)| == |multiset(s)| == |s|;
    SortedIsPairwise(less, r);
    SortedIsPairwise(less, s);
    assert s[|s| - 1] in multiset(r);
    assert r[|r| - 1] in multiset(s);
  }

  lemma EquivToSnoc<T>(less: (T, T) -> bool, y: T, t: seq<T>, x: T)
    ensures EquivTo(less, y, t + [x]) == EquivTo(less, y, t) + (if Equiv(less, x, y) then [x] else [])
  {
    assert (t + [x])[..|t|] == t;
  }

  lemma MultisetSnoc<T>(t: seq<T>, u: seq<T>, x: T)
    requires multiset(t + [x]) == multiset(u + [x])
    ensures multiset(t) == multiset(u)
  {
    assert multiset(t) == multiset(t + [x]) - multiset{x};
    assert multiset(u) == multiset(u + [x]) - multiset{x};
  }

  /** Two sequences that end in elements equivalent to each other and list
      the elements equivalent to the last one in the same order end in the
      same element. */
  lemma LastEqual<T>(less: (T, T) -> bool, r: seq<T>, s: seq<T>, x: T, x': T)
    requires Equiv(less, x, x') && Equiv(less, x, x)
    requires EquivTo(less, x, r + [x]) == EquivTo(less, x, s + [x'])
    ensures x == x'
  {
    EquivToSnoc(less, x, r, x);
    EquivToSnoc(less, x, s, x');
    var e := EquivTo(less, x, r + [x]);
    assert e[|e| - 1] == x && e[|e| - 1] == x';
  }

  /** Dropping the same last element keeps the classes in the same order. */
  lemma EquivToPrefix<T>(less: (T, T) -> bool, r: seq<T>, s: seq<T>, x: T)
    requires forall y :: EquivTo(less, y, r + [x]) == EquivTo(less, y, s + [x])
    ensures forall y :: EquivTo(less, y, r) == EquivTo(less, y, s)
  {
    forall y
      ensures EquivTo(less, y, r) == EquivTo(less, y, s)
    {
      assert EquivTo(less, y, r + [x]) == EquivTo(less, y, s + [x]);
      EquivToSnoc(less, y, r, x);
      EquivToSnoc(less, y, s, x);
      var a, b := EquivTo(less, y, r), EquivTo(less, y, s);
      var c := if Equiv(less, x, y) then [x] else [];
      assert a + c == b + c;
      assert a == (a + c)[..|a|] && b == (b + c)[..|b|];
    }
  }

  /** Two sorted permutations of each other that list every class of
      `less`-equivalent elements in the same order are equal: a stable
      sort has exactly one possible result. */
  lemma {:induction false} StableSortUnique<T(!new)>(less: (T, T) -> bool, r: seq<T>, s: seq<T>)
    requires StrictWeakOrder(less)
    requires Sorted(less, r) && Sorted(less, s)
    requires multiset(r) == multiset(s)
    requires forall y :: EquivTo(less, y, r) == EquivTo(less, y, s)
    ensures r == s
    decreases |r|
  {
    if r == [] {
      assert |s| == |multiset(s)| == 0;
    } else {
      assert |s| == |r| && Equiv(less, r[|r| - 1], s[|s| - 1]) by {
        LastEquiv(less, r, s);
      }
      var n := |r|;
      var r', s', x, x' := r[..n - 1], s[..n - 1], r[n - 1], s[n - 1];
      assert r == r' + [x] && s == s' + [x'];
      assert x == x' by {
        assert !less(x, x);
        LastEqual(less, r', s', x, x');
      }
      assert multiset(r') == multiset(s') by {
        MultisetSnoc(r', s', x);
      }
      assert forall y :: EquivTo(less, y, r') == EquivTo(less, y, s') by {
        EquivToPrefix(less, r', s', x);
      }
      assert Sorted(less, r') && Sorted(less, s') by {
        assert forall i :: 0 <= i < n - 1 ==> r'[i] == r[i] && s'[i] == s[i];
      }
      StableSortUnique(less, r', s');
    }
  }

  /** Whatever stable sort produced `r`, it is `SortBy`'s result: sorted,
      a permutation and order-preserving within each class is enough. */
  lemma SortByIsTheStableSort<T(!new)>(less: (T, T) -> bool, s: seq<T>, r: seq<T>)
    requires StrictWeakOrder(less)
    requires Sorted(less, r) && multiset(r) == multiset(s)
    requires forall y :: EquivTo(less, y, r) == EquivTo(less, y, s)
    ensures r == SortBy(less, s)
  {
    SortBySorted(less, s);
    SortByPermutes(less, s);
    forall y
      ensures EquivTo(less, y, SortBy(less, s)) == EquivTo(less, y, s)
    {
      SortByStable(less, y, s);
    }
    StableSortUnique(less, r, SortBy(less, s));
  }

  /** In-place insertion sort: stable, as `sort.SliceStable` is, and the model
      of both library sorts. */
  method InsertionSort<T>(a: array<T>, less: (T, T) -> bool)
    modifies a
    ensures a[..] == SortBy(less, old(a[..]))
  {
    ghost var s := a[..];
    var i := 0;
    while i < a.Length
      invariant 0 <= i <= a.Length
      invariant a[..i] == SortBy(less, s[..i])
      invariant a[i..] == s[i..]
    {
      assert s[..i + 1][..i] == s[..i];
      InsertAt(a, i, less);
      i := i + 1;
    }
    assert s[..a.Length] == s;
  }
}
