/** Order-related facts about sequences used by the list utilities. */
module Seqs {

  /** `a` is obtained from `b` by deleting elements, keeping the order. */
  predicate IsSubsequence<T(==)>(a: seq<T>, b: seq<T>)
    decreases |b|
  {
    if a == [] then true
    else if b == [] then false
    else if a[|a| - 1] == b[|b| - 1] then IsSubsequence(a[..|a| - 1], b[..|b| - 1])
    else IsSubsequence(a, b[..|b| - 1])
  }

  lemma {:induction false} SubsequenceDropLast<T>(a: seq<T>, b: seq<T>)
    requires a != [] && IsSubsequence(a, b)
    ensures IsSubsequence(a[..|a| - 1], b)
    decreases |b|, 0
  {
    var b' := b[..|b| - 1];
    if a[|a| - 1] == b[|b| - 1] {
      SubsequenceExtend(a[..|a| - 1], b', b[|b| - 1]);
      assert b' + [b[|b| - 1]] == b;
    } else {
      SubsequenceDropLast(a, b');
      SubsequenceExtend(a[..|a| - 1], b', b[|b| - 1]);
      assert b' + [b[|b| - 1]] == b;
    }
  }

  /** A subsequence stays one when the longer sequence grows. */
  lemma {:induction false} SubsequenceExtend<T>(a: seq<T>, b: seq<T>, x: T)
    requires IsSubsequence(a, b)
    ensures IsSubsequence(a, b + [x])
    decreases |b|, 1
  {
    var bx := b + [x];
    assert bx[..|bx| - 1] == b;
    if a != [] && a[|a| - 1] == x {
      SubsequenceDropLast(a, b);
    }
  }

  /** Growing both sides by the same element keeps the relation. */
  lemma SubsequenceAppendBoth<T>(a: seq<T>, b: seq<T>, x: T)
    requires IsSubsequence(a, b)
    ensures IsSubsequence(a + [x], b + [x])
  {
    assert (a + [x])[..|a|] == a && (b + [x])[..|b|] == b;
  }

  /** Every sequence is a subsequence of itself. */
  lemma {:induction false} SubsequenceReflexive<T>(a: seq<T>)
    ensures IsSubsequence(a, a)
    decreases |a|
  {
    if a != [] {
      SubsequenceReflexive(a[..|a| - 1]);
    }
  }

  /** `a` occurs in `xs` before any occurrence of `b`. */
  predicate OccursBefore<T(==)>(xs: seq<T>, a: T, b: T) {
    exists p :: 0 <= p < |xs| && xs[p] == a && b !in xs[..p]
  }

  /**
   * `r` lists its elements in the order of their first occurrences in `xs`:
   * each element occurs in `xs` before any occurrence of every later one.
   */
  predicate FirstOccurrenceOrder<T(==)>(r: seq<T>, xs: seq<T>) {
    forall i, j :: 0 <= i < j < |r| ==> OccursBefore(xs, r[i], r[j])
  }

  /** Occurrences in `xs` stay where they are when `xs` grows at its end. */
  lemma OccursBeforeExtend<T>(xs: seq<T>, a: T, b: T, x: T)
    requires OccursBefore(xs, a, b)
    ensures OccursBefore(xs + [x], a, b)
  {
    var p :| 0 <= p < |xs| && xs[p] == a && b !in xs[..p];
    assert (xs + [x])[..p] == xs[..p];
    assert (xs + [x])[p] == a;
  }

  lemma FirstOccurrenceOrderExtend<T>(r: seq<T>, xs: seq<T>, x: T)
    requires FirstOccurrenceOrder(r, xs)
    ensures FirstOccurrenceOrder(r, xs + [x])
  {
    forall i, j | 0 <= i < j < |r| ensures OccursBefore(xs + [x], r[i], r[j]) {
      OccursBeforeExtend(xs, r[i], r[j], x);
    }
  }

  /** An element new to `xs`, appended to both, comes after every element already listed. */
  lemma FirstOccurrenceOrderAppend<T>(r: seq<T>, xs: seq<T>, x: T)
    requires FirstOccurrenceOrder(r, xs)
    requires forall y :: y in r ==> y in xs
    requires x !in xs
    ensures FirstOccurrenceOrder(r + [x], xs + [x])
  {
    var r', xs' := r + [x], xs + [x];
    forall i, j | 0 <= i < j < |r'| ensures OccursBefore(xs', r'[i], r'[j]) {
      assert r'[i] == r[i];
      if j == |r| {
        assert r[i] in xs;
        var p :| 0 <= p < |xs| && xs[p] == r[i];
        assert xs'[..p] == xs[..p] && xs'[p] == r[i];
      } else {
        assert r'[j] == r[j];
        OccursBeforeExtend(xs, r[i], r[j], x);
      }
    }
  }

  /** Appending one element then the rest is appending both at once. */
  lemma AppendOneThenRest<T>(a: seq<T>, x: T, rest: seq<T>)
    ensures a + ([x] + rest) == (a + [x]) + rest
  {
  }

  /** A prefix one longer is the prefix followed by the next element. */
  lemma PrefixSnoc<T>(s: seq<T>, i: nat)
    requires i < |s|
    ensures s[..i + 1] == s[..i] + [s[i]]
  {
  }

  /** The first occurrence of each element, in order: `[...new Set(xs)]`. */
  function Distinct<T(==,!new)>(xs: seq<T>): (r: seq<T>)
    ensures forall i, j :: 0 <= i < j < |r| ==> r[i] != r[j]
    ensures forall x :: x in xs <==> x in r
    ensures IsSubsequence(r, xs)
    ensures FirstOccurrenceOrder(r, xs)
    decreases |xs|
  {
    if xs == [] then []
    else
      var d := Distinct(xs[..|xs| - 1]);
      var x := xs[|xs| - 1];
      assert xs == xs[..|xs| - 1] + [x];
      if x in d then
        SubsequenceExtend(d, xs[..|xs| - 1], x);
        FirstOccurrenceOrderExtend(d, xs[..|xs| - 1], x);
        d
      else
        SubsequenceAppendBoth(d, xs[..|xs| - 1], x);
        FirstOccurrenceOrderAppend(d, xs[..|xs| - 1], x);
        d + [x]
  }

  /**
   * The order is fixed by the contract alone: `[2, 1]` holds the right
   * elements of `[1, 2, 1]` once each, but not in first-occurrence order.
   */
  lemma FirstOccurrenceOrderExcludesSwap()
    ensures !FirstOccurrenceOrder([2, 1], [1, 2, 1])
  {
    var r, xs := [2, 1], [1, 2, 1];
    forall p | 0 <= p < |xs| && xs[p] == r[0] ensures r[1] in xs[..p] {
      assert p == 1 && xs[..p] == [1];
    }
    assert !OccursBefore(xs, r[0], r[1]);
  }

  /** A subsequence with the same elements, counted with multiplicity, is the whole sequence. */
  lemma {:induction false} SubsequenceSameMultiset<T>(a: seq<T>, b: seq<T>)
    requires IsSubsequence(a, b) && multiset(a) == multiset(b)
    ensures a == b
    decreases |b|
  {
    if a == [] {
      assert |multiset(b)| == |b|;
    } else {
      var a', b' := a[..|a| - 1], b[..|b| - 1];
      assert a == a' + [a[|a| - 1]] && b == b' + [b[|b| - 1]];
      assert |a| == |multiset(a)| == |multiset(b)| == |b|;
      if a[|a| - 1] == b[|b| - 1] {
        assert multiset(a) == multiset(a') + multiset{a[|a| - 1]};
        assert multiset(b) == multiset(b') + multiset{b[|b| - 1]};
        assert multiset(a') == multiset(a) - multiset{a[|a| - 1]};
        assert multiset(b') == multiset(b) - multiset{b[|b| - 1]};
        assert IsSubsequence(a', b');
        SubsequenceSameMultiset(a', b');
      } else {
        SubsequenceLength(a, b');
        assert false;
      }
    }
  }

  lemma {:induction false} SubsequenceLength<T>(a: seq<T>, b: seq<T>)
    requires IsSubsequence(a, b)
    ensures |a| <= |b|
    decreases |b|
  {
    if a != [] {
      if a[|a| - 1] == b[|b| - 1] {
        SubsequenceLength(a[..|a| - 1], b[..|b| - 1]);
      } else {
        SubsequenceLength(a, b[..|b| - 1]);
      }
    }
  }

  /** The elements `keep` accepts, in order and with their multiplicities: `xs.filter(keep)`. */
  function Filter<T(==,!new)>(xs: seq<T>, keep: T -> bool): (r: seq<T>)
    ensures IsSubsequence(r, xs)
    ensures forall x :: multiset(r)[x] == if keep(x) then multiset(xs)[x] else 0
    decreases |xs|
  {
    if xs == [] then []
    else
      var init, x := xs[..|xs| - 1], xs[|xs| - 1];
      var f := Filter(init, keep);
      assert xs == init + [x];
      assert multiset(xs) == multiset(init) + multiset{x};
      if keep(x) then
        SubsequenceAppendBoth(f, init, x);
        f + [x]
      else
        SubsequenceExtend(f, init, x);
        f
  }

  /** Filtering a sequence with a last element filters the rest before it. */
  lemma FilterSnoc<T(!new)>(xs: seq<T>, y: T, keep: T -> bool)
    ensures Filter(xs + [y], keep) == Filter(xs, keep) + (if keep(y) then [y] else [])
  {
    assert (xs + [y])[..|xs|] == xs;
  }

  /** Filtering a sequence with a first element filters the rest after it. */
  lemma {:induction false} FilterCons<T(!new)>(x: T, xs: seq<T>, keep: T -> bool)
    ensures Filter([x] + xs, keep) == (if keep(x) then [x] else []) + Filter(xs, keep)
    decreases |xs|
  {
    if xs == [] {
      FilterSnoc([], x, keep);
      assert [] + [x] == [x] + xs;
    } else {
      var init, y := xs[..|xs| - 1], xs[|xs| - 1];
      var fx, fy := (if keep(x) then [x] else []), (if keep(y) then [y] else []);
      assert xs == init + [y];
      calc {
        Filter([x] + xs, keep);
      == { assert [x] + xs == ([x] + init) + [y]; }
        Filter(([x] + init) + [y], keep);
      == { FilterSnoc([x] + init, y, keep); }
        Filter([x] + init, keep) + fy;
      == { FilterCons(x, init, keep); }
        (fx + Filter(init, keep)) + fy;
      == { assert (fx + Filter(init, keep)) + fy == fx + (Filter(init, keep) + fy); }
        fx + (Filter(init, keep) + fy);
      == { FilterSnoc(init, y, keep); }
        fx + Filter(xs, keep);
      }
    }
  }

  /** `xs.some(y => same(x, y))` */
  predicate SameAsSome<T>(x: T, xs: seq<T>, same: (T, T) -> bool) {
    exists j :: 0 <= j < |xs| && same(x, xs[j])
  }

  /** No later element is related by `same` to an earlier one. */
  predicate NoneSame<T>(xs: seq<T>, same: (T, T) -> bool) {
    forall i, j :: 0 <= i < j < |xs| ==> !same(xs[j], xs[i])
  }

  /**
   * Scan left to right and keep an element unless `same` relates it to an
   * element already kept.
   */
  function DedupeBy<T(==)>(xs: seq<T>, same: (T, T) -> bool): (r: seq<T>)
    ensures IsSubsequence(r, xs)
    decreases |xs|
  {
    if xs == [] then []
    else
      var init, x := xs[..|xs| - 1], xs[|xs| - 1];
      var d := DedupeBy(init, same);
      assert xs == init + [x];
      if SameAsSome(x, d, same) then
        SubsequenceExtend(d, init, x);
        d
      else
        SubsequenceAppendBoth(d, init, x);
        d + [x]
  }

  /** The scan keeps what it kept of a prefix: its result on `init` is a prefix of its result on `init + [x]`. */
  lemma DedupeByExtends<T>(xs: seq<T>, same: (T, T) -> bool)
    requires xs != []
    ensures var d, r := DedupeBy(xs[..|xs| - 1], same), DedupeBy(xs, same);
      |d| <= |r| <= |d| + 1 && r[..|d|] == d
      && (|r| == |d| + 1 <==> !SameAsSome(xs[|xs| - 1], d, same))
      && (|r| == |d| + 1 ==> r[|d|] == xs[|xs| - 1])
  {
  }

  /**
   * For a reflexive relation the scan keeps the first element, keeps no element
   * related to an earlier kept one, and relates every input element to a kept one.
   */
  lemma DedupeByProperties<T>(xs: seq<T>, same: (T, T) -> bool)
    requires forall x :: same(x, x)
    ensures xs != [] ==> |DedupeBy(xs, same)| > 0 && DedupeBy(xs, same)[0] == xs[0]
    ensures NoneSame(DedupeBy(xs, same), same)
    ensures forall i :: 0 <= i < |xs| ==> SameAsSome(xs[i], DedupeBy(xs, same), same)
  {
    DedupeByKeepsFirst(xs, same);
    DedupeByKeepsNoneSame(xs, same);
    DedupeByCovers(xs, same);
  }

  lemma {:induction false} DedupeByKeepsFirst<T>(xs: seq<T>, same: (T, T) -> bool)
    requires forall x :: same(x, x)
    ensures xs != [] ==> |DedupeBy(xs, same)| > 0 && DedupeBy(xs, same)[0] == xs[0]
    decreases |xs|
  {
    if xs != [] {
      var init := xs[..|xs| - 1];
      DedupeByExtends(xs, same);
      if init == [] {
        assert !SameAsSome(xs[0], [], same);
      } else {
        DedupeByKeepsFirst(init, same);
        assert init[0] == xs[0];
      }
    }
  }

  lemma {:induction false} DedupeByKeepsNoneSame<T>(xs: seq<T>, same: (T, T) -> bool)
    ensures NoneSame(DedupeBy(xs, same), same)
    decreases |xs|
  {
    if xs != [] {
      var init, x := xs[..|xs| - 1], xs[|xs| - 1];
      DedupeByKeepsNoneSame(init, same);
      DedupeByExtends(xs, same);
      var d, r := DedupeBy(init, same), DedupeBy(xs, same);
      forall i, j | 0 <= i < j < |r| ensures !same(r[j], r[i]) {
        assert r[i] == d[i];
        if j < |d| {
          assert r[j] == d[j];
        }
      }
    }
  }

  lemma {:induction false} DedupeByCovers<T>(xs: seq<T>, same: (T, T) -> bool)
    requires forall x :: same(x, x)
    ensures forall i :: 0 <= i < |xs| ==> SameAsSome(xs[i], DedupeBy(xs, same), same)
    decreases |xs|
  {
    if xs != [] {
      var init, x := xs[..|xs| - 1], xs[|xs| - 1];
      DedupeByCovers(init, same);
      DedupeByExtends(xs, same);
      var d, r := DedupeBy(init, same), DedupeBy(xs, same);
      forall i | 0 <= i < |xs| ensures SameAsSome(xs[i], r, same) {
        if i < |init| {
          assert xs[i] == init[i];
          var j :| 0 <= j < |d| && same(init[i], d[j]);
          assert r[j] == d[j];
        } else if !SameAsSome(x, d, same) {
          assert same(x, r[|d|]);
        }
      }
    }
  }

  /** A sequence with no element related to an earlier one is left as it is. */
  lemma {:induction false} DedupeByOfNoneSame<T>(xs: seq<T>, same: (T, T) -> bool)
    requires NoneSame(xs, same)
    ensures DedupeBy(xs, same) == xs
    decreases |xs|
  {
    if xs != [] {
      var init, x := xs[..|xs| - 1], xs[|xs| - 1];
      assert NoneSame(init, same) by {
        forall i, j | 0 <= i < j < |init| ensures !same(init[j], init[i]) {
          assert init[j] == xs[j] && init[i] == xs[i];
        }
      }
      DedupeByOfNoneSame(init, same);
      forall j | 0 <= j < |init| ensures !same(x, init[j]) {
        assert init[j] == xs[j];
      }
      assert xs == init + [x];
    }
  }

  /** The scan is idempotent for a reflexive relation. */
  lemma DedupeByIdempotent<T>(xs: seq<T>, same: (T, T) -> bool)
    requires forall x :: same(x, x)
    ensures DedupeBy(DedupeBy(xs, same), same) == DedupeBy(xs, same)
  {
    DedupeByProperties(xs, same);
    DedupeByOfNoneSame(DedupeBy(xs, same), same);
  }

  /** Without repeats, every element occurs at most once. */
  lemma {:induction false} NoRepeatsCount<T>(xs: seq<T>)
    requires forall i, j :: 0 <= i < j < |xs| ==> xs[i] != xs[j]
    ensures forall x :: multiset(xs)[x] <= 1
    decreases |xs|
  {
    if xs != [] {
      var init, last := xs[..|xs| - 1], xs[|xs| - 1];
      assert xs == init + [last];
      NoRepeatsCount(init);
      assert last !in init by {
        forall j | 0 <= j < |init| ensures init[j] != last {
          assert init[j] == xs[j];
        }
      }
    }
  }

  /** A repeated element occurs at least twice. */
  lemma RepeatCount<T>(xs: seq<T>, i: nat, j: nat)
    requires i < j < |xs| && xs[i] == xs[j]
    ensures multiset(xs)[xs[i]] >= 2
  {
    assert xs == xs[..i] + [xs[i]] + xs[i + 1..j] + [xs[j]] + xs[j + 1..];
  }

  /** Filtering a sequence without repeats leaves one without repeats. */
  lemma FilterNoRepeats<T(!new)>(xs: seq<T>, keep: T -> bool)
    requires forall i, j :: 0 <= i < j < |xs| ==> xs[i] != xs[j]
    ensures var r := Filter(xs, keep); forall i, j :: 0 <= i < j < |r| ==> r[i] != r[j]
  {
    var r := Filter(xs, keep);
    NoRepeatsCount(xs);
    forall i, j | 0 <= i < j < |r| ensures r[i] != r[j] {
      assert multiset(r)[r[i]] <= 1;
      if r[i] == r[j] {
        RepeatCount(r, i, j);
        assert false;
      }
    }
  }

  /** The filtered sequence holds exactly the kept elements of the input. */
  lemma FilterMembers<T(!new)>(xs: seq<T>, keep: T -> bool)
    ensures forall x :: x in Filter(xs, keep) <==> x in xs && keep(x)
  {
    var r := Filter(xs, keep);
    forall x ensures x in r <==> x in xs && keep(x) {
      assert x in r <==> multiset(r)[x] > 0;
      assert x in xs <==> multiset(xs)[x] > 0;
    }
  }

  /** `xs.map(f)` */
  function Map<T, E>(f: T -> E, xs: seq<T>): (r: seq<E>)
    ensures |r| == |xs|
  {
    if xs == [] then [] else [f(xs[0])] + Map(f, xs[1..])
  }

  /** The mapped sequence has `f` of each item, in the items' order. */
  lemma {:induction false} MapAt<T, E>(f: T -> E, xs: seq<T>)
    ensures forall k :: 0 <= k < |xs| ==> Map(f, xs)[k] == f(xs[k])
  {
    if xs != [] {
      MapAt(f, xs[1..]);
    }
  }
}
