/**
 * A stable insertion sort over a total preorder, standing for
 * `Array.prototype.sort` with a consistent comparator (which ECMAScript 2019
 * and later require to be stable), and for a database `orderBy`.
 * `le(a, b)` means that `a` may be placed before `b`.
 */
module Sorting {

  ghost predicate TotalPreorder<T(!new)>(le: (T, T) -> bool) {
    && (forall a, b :: le(a, b) || le(b, a))
    && (forall a, b, c :: le(a, b) && le(b, c) ==> le(a, c))
  }

  predicate SortedBy<T>(xs: seq<T>, le: (T, T) -> bool) {
    forall i, j | 0 <= i < j < |xs| :: le(xs[i], xs[j])
  }

  /** Places `x` before the first element it may precede. */
  function Insert<T(!new)>(x: T, ys: seq<T>, le: (T, T) -> bool): (r: seq<T>)
    requires TotalPreorder(le)
    requires SortedBy(ys, le)
    ensures SortedBy(r, le)
    ensures multiset(r) == multiset(ys) + multiset{x}
    ensures |r| == |ys| + 1
  {
    if |ys| == 0 || le(x, ys[0]) then
      [x] + ys
    else
      var rest := Insert(x, ys[1..], le);
      assert ys == [ys[0]] + ys[1..];
      forall k | 0 <= k < |rest|
        ensures le(ys[0], rest[k])
      {
        assert rest[k] in multiset(rest);
        if rest[k] != x {
          assert rest[k] in multiset(ys[1..]);
          var j :| 0 <= j < |ys[1..]| && ys[1..][j] == rest[k];
          assert ys[j + 1] == rest[k];
        }
      }
      [ys[0]] + rest
  }

  /** Sorts `xs`; elements that compare equal keep their relative order
      (`SortStable`). */
  function Sort<T(!new)>(xs: seq<T>, le: (T, T) -> bool): (r: seq<T>)
    requires TotalPreorder(le)
    ensures SortedBy(r, le)
    ensures multiset(r) == multiset(xs)
    ensures |r| == |xs|
  {
    if xs == [] then []
    else
      assert xs == [xs[0]] + xs[1..];
      Insert(xs[0], Sort(xs[1..], le), le)
  }

  /** `xs` occurs in `ys` in order, possibly with gaps. */
  predicate Subsequence<T(==)>(xs: seq<T>, ys: seq<T>)
    decreases |ys|
  {
    || xs == []
    || (&& ys != []
        && ((xs[0] == ys[0] && Subsequence(xs[1..], ys[1..])) || Subsequence(xs, ys[1..])))
  }

  /** `xs.filter(keep)`: the kept elements, each as often as in `xs`, in
      their original order. */
  function Filter<T(==,!new)>(xs: seq<T>, keep: T -> bool): (r: seq<T>)
    ensures forall x :: multiset(r)[x] == if keep(x) then multiset(xs)[x] else 0
    ensures forall x :: x in r <==> x in xs && keep(x)
    ensures Subsequence(r, xs)
    ensures multiset(r) <= multiset(xs) && |r| <= |xs|
  {
    if xs == [] then []
    else
      assert xs == [xs[0]] + xs[1..];
      var rest := Filter(xs[1..], keep);
      assert forall x :: x in rest <==> x in multiset(rest);
      assert forall x :: x in xs <==> x in multiset(xs);
      if keep(xs[0]) then
        assert ([xs[0]] + rest)[1..] == rest;
        [xs[0]] + rest
      else
        rest
  }

  /** The elements `le` ranks level with `c`. */
  function LevelWith<T>(le: (T, T) -> bool, c: T): T -> bool {
    y => le(c, y) && le(y, c)
  }

  lemma FilterCons<T(!new)>(x: T, xs: seq<T>, keep: T -> bool)
    ensures Filter([x] + xs, keep) == (if keep(x) then [x] else []) + Filter(xs, keep)
  {
    assert ([x] + xs)[1..] == xs;
  }

  /** The step of `InsertStable` where `x` goes past the head of `ys`. */
  lemma InsertPastHead<T(!new)>(x: T, ys: seq<T>, le: (T, T) -> bool, c: T)
    requires TotalPreorder(le)
    requires SortedBy(ys, le)
    requires ys != [] && !le(x, ys[0])
    requires Filter(Insert(x, ys[1..], le), LevelWith(le, c))
          == (if LevelWith(le, c)(x) then [x] else []) + Filter(ys[1..], LevelWith(le, c))
    ensures Filter(Insert(x, ys, le), LevelWith(le, c))
         == (if LevelWith(le, c)(x) then [x] else []) + Filter(ys, LevelWith(le, c))
  {
    var level := LevelWith(le, c);
    var rest := Insert(x, ys[1..], le);
    assert Insert(x, ys, le) == [ys[0]] + rest;
    FilterCons(ys[0], rest, level);
    FilterHead(ys, level);
    LevelExclusive(x, ys[0], le, c);
    ConcatSwap(if level(ys[0]) then [ys[0]] else [], if level(x) then [x] else [], Filter(ys[1..], level));
  }

  /** Two elements `le` separates cannot both be level with `c`. */
  lemma LevelExclusive<T(!new)>(x: T, y: T, le: (T, T) -> bool, c: T)
    requires TotalPreorder(le)
    requires !le(x, y)
    ensures !(LevelWith(le, c)(x) && LevelWith(le, c)(y))
  {
  }

  lemma ConcatSwap<T>(a: seq<T>, b: seq<T>, rest: seq<T>)
    requires a == [] || b == []
    ensures a + (b + rest) == b + (a + rest)
  {
  }

  lemma FilterHead<T(!new)>(xs: seq<T>, keep: T -> bool)
    requires xs != []
    ensures Filter(xs, keep) == (if keep(xs[0]) then [xs[0]] else []) + Filter(xs[1..], keep)
  {
  }

  lemma {:induction false} InsertStable<T(!new)>(x: T, ys: seq<T>, le: (T, T) -> bool, c: T)
    requires TotalPreorder(le)
    requires SortedBy(ys, le)
    ensures Filter(Insert(x, ys, le), LevelWith(le, c))
         == (if LevelWith(le, c)(x) then [x] else []) + Filter(ys, LevelWith(le, c))
  {
    if |ys| == 0 || le(x, ys[0]) {
      FilterCons(x, ys, LevelWith(le, c));
    } else {
      InsertStable(x, ys[1..], le, c);
      InsertPastHead(x, ys, le, c);
    }
  }

  /** The sort is stable: the elements level with any `c` appear in the
      same order before and after sorting. */
  lemma {:induction false} SortStable<T(!new)>(xs: seq<T>, le: (T, T) -> bool, c: T)
    requires TotalPreorder(le)
    ensures Filter(Sort(xs, le), LevelWith(le, c)) == Filter(xs, LevelWith(le, c))
  {
    if xs != [] {
      SortStable(xs[1..], le, c);
      InsertStable(xs[0], Sort(xs[1..], le), le, c);
    }
  }

  /** The sum of `w` over `xs`. */
  function Sum<T>(xs: seq<T>, w: T -> int): int {
    if xs == [] then 0 else w(xs[0]) + Sum(xs[1..], w)
  }

  lemma {:induction false} SumInsert<T(!new)>(x: T, ys: seq<T>, le: (T, T) -> bool, w: T -> int)
    requires TotalPreorder(le)
    requires SortedBy(ys, le)
    ensures Sum(Insert(x, ys, le), w) == w(x) + Sum(ys, w)
  {
    if |ys| == 0 || le(x, ys[0]) {
      assert ([x] + ys)[1..] == ys;
    } else {
      var rest := Insert(x, ys[1..], le);
      assert ([ys[0]] + rest)[1..] == rest;
      SumInsert(x, ys[1..], le, w);
    }
  }

  /** Sorting does not change a sum over the elements. */
  lemma {:induction false} SumSort<T(!new)>(xs: seq<T>, le: (T, T) -> bool, w: T -> int)
    requires TotalPreorder(le)
    ensures Sum(Sort(xs, le), w) == Sum(xs, w)
  {
    if xs != [] {
      SumSort(xs[1..], le, w);
      SumInsert(xs[0], Sort(xs[1..], le), le, w);
    }
  }

  lemma {:induction false} SumAppend<T>(xs: seq<T>, ys: seq<T>, w: T -> int)
    ensures Sum(xs + ys, w) == Sum(xs, w) + Sum(ys, w)
  {
    if xs == [] {
      assert xs + ys == ys;
    } else {
      assert (xs + ys)[1..] == xs[1..] + ys;
      SumAppend(xs[1..], ys, w);
    }
  }

  /** Replacing one element changes the sum by the difference of its weights. */
  lemma {:induction false} SumUpdate<T>(xs: seq<T>, i: nat, y: T, w: T -> int)
    requires i < |xs|
    ensures Sum(xs[i := y], w) == Sum(xs, w) - w(xs[i]) + w(y)
  {
    if i == 0 {
      assert xs[i := y][1..] == xs[1..];
    } else {
      assert xs[i := y][1..] == xs[1..][i - 1 := y];
      SumUpdate(xs[1..], i - 1, y, w);
    }
  }

  predicate Distinct<T(==)>(xs: seq<T>) {
    forall i, j | 0 <= i < j < |xs| :: xs[i] != xs[j]
  }

  lemma {:induction false} DistinctMultiplicity<T>(xs: seq<T>, e: T)
    requires Distinct(xs)
    ensures multiset(xs)[e] <= 1
  {
    if xs != [] {
      assert xs == [xs[0]] + xs[1..];
      assert Distinct(xs[1..]) by {
        forall i, j | 0 <= i < j < |xs[1..]|
          ensures xs[1..][i] != xs[1..][j]
        {
          assert xs[1..][i] == xs[i + 1] && xs[1..][j] == xs[j + 1];
        }
      }
      DistinctMultiplicity(xs[1..], e);
      if e == xs[0] {
        assert e !in xs[1..];
      }
    }
  }

  /** Rearranging a sequence without duplicates gives one without duplicates. */
  lemma DistinctPermutation<T>(xs: seq<T>, ys: seq<T>)
    requires multiset(xs) == multiset(ys)
    requires Distinct(xs)
    ensures Distinct(ys)
  {
    forall i, j | 0 <= i < j < |ys|
      ensures ys[i] != ys[j]
    {
      if ys[i] == ys[j] {
        assert ys == ys[..j] + ys[j..];
        assert ys[i] in ys[..j];
        assert ys[j] in ys[j..];
        assert multiset(ys)[ys[i]] == multiset(ys[..j])[ys[i]] + multiset(ys[j..])[ys[i]];
        DistinctMultiplicity(xs, ys[i]);
        assert false;
      }
    }
  }
}
