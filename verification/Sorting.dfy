/**
  `Array.prototype.sort`: the stable sort by a total preorder. `le(a, b)` stands for a
  comparator result of at most zero.
 */
module Sorting {
  ghost predicate TotalPreorder<T(!new)>(le: (T, T) -> bool) {
    && (forall a, b :: le(a, b) || le(b, a))
    && (forall a, b, c :: le(a, b) && le(b, c) ==> le(a, c))
  }

  predicate Sorted<T>(xs: seq<T>, le: (T, T) -> bool) {
    forall i, j | 0 <= i < j < |xs| :: le(xs[i], xs[j])
  }

  /** Puts x before the sorted elements that are not smaller. */
  function Insert<T>(x: T, xs: seq<T>, le: (T, T) -> bool): (r: seq<T>)
    ensures multiset(r) == multiset([x]) + multiset(xs)
  {
    if xs == [] || le(x, xs[0]) then [x] + xs
    else
      assert xs == [xs[0]] + xs[1..];
      [xs[0]] + Insert(x, xs[1..], le)
  }

  function SortBy<T>(xs: seq<T>, le: (T, T) -> bool): (r: seq<T>)
    ensures multiset(r) == multiset(xs)
  {
    if xs == [] then []
    else
      assert xs == [xs[0]] + xs[1..];
      Insert(xs[0], SortBy(xs[1..], le), le)
  }

  lemma SameElements<T>(xs: seq<T>, ys: seq<T>)
    requires multiset(xs) == multiset(ys)
    ensures |xs| == |ys|
    ensures forall x :: x in xs <==> x in ys
  {
    assert |multiset(xs)| == |xs| && |multiset(ys)| == |ys|;
    forall x ensures x in xs <==> x in ys {
      assert x in xs <==> x in multiset(xs);
      assert x in ys <==> x in multiset(ys);
    }
  }

  lemma {:induction false} InsertIsSorted<T(!new)>(x: T, xs: seq<T>, le: (T, T) -> bool)
    requires TotalPreorder(le) && Sorted(xs, le)
    ensures Sorted(Insert(x, xs, le), le)
  {
    if xs != [] && !le(x, xs[0]) {
      InsertIsSorted(x, xs[1..], le);
      var rest := Insert(x, xs[1..], le);
      forall j | 0 <= j < |rest| ensures le(xs[0], rest[j]) {
        SameElements(rest, [x] + xs[1..]);
        assert rest[j] in [x] + xs[1..];
      }
    }
  }

  lemma {:induction false} SortIsSorted<T(!new)>(xs: seq<T>, le: (T, T) -> bool)
    requires TotalPreorder(le)
    ensures Sorted(SortBy(xs, le), le)
  {
    if xs != [] {
      SortIsSorted(xs[1..], le);
      InsertIsSorted(xs[0], SortBy(xs[1..], le), le);
    }
  }

  lemma HeadIsLeast<T(!new)>(xs: seq<T>, x: T, le: (T, T) -> bool)
    requires TotalPreorder(le) && Sorted(xs, le) && x in xs
    ensures le(xs[0], x)
  {
    assert le(xs[0], xs[0]);
  }

  lemma WithoutIndex<T>(xs: seq<T>, i: nat)
    requires i < |xs|
    ensures multiset(xs[..i] + xs[i + 1..]) == multiset(xs) - multiset{xs[i]}
  {
    assert xs == xs[..i] + [xs[i]] + xs[i + 1..];
  }

  lemma TailElements<T>(xs: seq<T>)
    requires xs != []
    ensures multiset(xs[1..]) == multiset(xs) - multiset{xs[0]}
  {
    assert xs == [xs[0]] + xs[1..];
  }

  /** When equivalent elements are equal, sorting forgets the order it started from. */
  lemma {:induction false} SortedIsUnique<T(!new)>(xs: seq<T>, ys: seq<T>, le: (T, T) -> bool)
    requires TotalPreorder(le) && Sorted(xs, le) && Sorted(ys, le)
    requires multiset(xs) == multiset(ys)
    requires forall a, b | a in xs && b in xs && le(a, b) && le(b, a) :: a == b
    ensures xs == ys
  {
    SameElements(xs, ys);
    if xs != [] {
      HeadIsLeast(xs, ys[0], le);
      HeadIsLeast(ys, xs[0], le);
      TailElements(xs);
      TailElements(ys);
      SortedIsUnique(xs[1..], ys[1..], le);
    }
  }

  lemma SortForgetsOrder<T(!new)>(xs: seq<T>, ys: seq<T>, le: (T, T) -> bool)
    requires TotalPreorder(le) && multiset(xs) == multiset(ys)
    requires forall a, b | a in xs && b in xs && le(a, b) && le(b, a) :: a == b
    ensures SortBy(xs, le) == SortBy(ys, le)
  {
    SortIsSorted(xs, le);
    SortIsSorted(ys, le);
    SameElements(SortBy(xs, le), xs);
    SortedIsUnique(SortBy(xs, le), SortBy(ys, le), le);
  }
}
