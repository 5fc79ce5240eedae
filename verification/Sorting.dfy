/** Sorting by a total order, as `Vec::sort_by` does: the specification the canonicaliser relies on. */
module Sorting {

  /** `leq` is a total order on the elements of `xs`. */
  ghost predicate TotalOn<T(!new)>(leq: (T, T) -> bool, xs: multiset<T>) {
    && (forall x, y :: x in xs && y in xs ==> leq(x, y) || leq(y, x))
    && (forall x, y :: x in xs && y in xs && leq(x, y) && leq(y, x) ==> x == y)
    && (forall x, y, z :: x in xs && y in xs && z in xs && leq(x, y) && leq(y, z) ==> leq(x, z))
  }

  function Insert<T>(leq: (T, T) -> bool, x: T, xs: seq<T>): (r: seq<T>)
    ensures multiset(r) == multiset(xs) + multiset{x}
  {
    if xs == [] then [x]
    else if leq(x, xs[0]) then [x] + xs
    else
      var rest := Insert(leq, x, xs[1..]);
      assert xs == [xs[0]] + xs[1..];
      [xs[0]] + rest
  }

  function Sort<T>(leq: (T, T) -> bool, xs: seq<T>): (r: seq<T>)
    ensures multiset(r) == multiset(xs)
  {
    if xs == [] then []
    else
      assert xs == [xs[0]] + xs[1..];
      Insert(leq, xs[0], Sort(leq, xs[1..]))
  }

  ghost predicate Sorted<T(!new)>(leq: (T, T) -> bool, xs: seq<T>) {
    xs == [] || ((forall x :: x in xs ==> leq(xs[0], x)) && Sorted(leq, xs[1..]))
  }

  lemma {:induction false} SortedAt<T(!new)>(leq: (T, T) -> bool, xs: seq<T>, i: nat, j: nat)
    requires Sorted(leq, xs) && i < j < |xs|
    ensures leq(xs[i], xs[j])
  {
    if i > 0 {
      assert xs[i] == xs[1..][i - 1] && xs[j] == xs[1..][j - 1];
      SortedAt(leq, xs[1..], i - 1, j - 1);
    } else {
      assert xs[j] in xs;
    }
  }

  lemma SamePart<T>(xs: seq<T>)
    requires xs != []
    ensures multiset(xs) == multiset{xs[0]} + multiset(xs[1..])
  {
    assert xs == [xs[0]] + xs[1..];
  }

  lemma TotalOnPart<T(!new)>(leq: (T, T) -> bool, part: multiset<T>, whole: multiset<T>)
    requires TotalOn(leq, whole) && part <= whole
    ensures TotalOn(leq, part)
  {
    assert forall x :: x in part ==> x in whole;
  }

  lemma SortedCons<T(!new)>(leq: (T, T) -> bool, x: T, xs: seq<T>)
    requires Sorted(leq, xs) && leq(x, x) && forall y :: y in multiset(xs) ==> leq(x, y)
    ensures Sorted(leq, [x] + xs)
  {
    assert ([x] + xs)[1..] == xs;
    assert forall y :: y in xs ==> y in multiset(xs);
  }

  lemma Transitive<T(!new)>(leq: (T, T) -> bool, xs: multiset<T>, x: T, y: T, z: T)
    requires TotalOn(leq, xs) && x in xs && y in xs && z in xs && leq(x, y) && leq(y, z)
    ensures leq(x, z)
  {
  }

  lemma {:induction false} InsertSorts<T(!new)>(leq: (T, T) -> bool, x: T, xs: seq<T>)
    requires TotalOn(leq, multiset(xs) + multiset{x}) && Sorted(leq, xs)
    ensures Sorted(leq, Insert(leq, x, xs))
  {
    var all := multiset(xs) + multiset{x};
    assert x in all && leq(x, x);
    if xs == [] {
      SortedCons(leq, x, xs);
      assert [x] + xs == [x];
    } else if leq(x, xs[0]) {
      forall y | y in multiset(xs) ensures leq(x, y) {
        if y != xs[0] {
          assert y in xs[1..] by { SamePart(xs); }
          Transitive(leq, all, x, xs[0], y);
        }
      }
      SortedCons(leq, x, xs);
    } else {
      SamePart(xs);
      var rest := Insert(leq, x, xs[1..]);
      TotalOnPart(leq, multiset(xs[1..]) + multiset{x}, all);
      InsertSorts(leq, x, xs[1..]);
      assert xs[0] in all && x in all;
      forall y | y in multiset(rest) ensures leq(xs[0], y) {
        assert y in multiset(xs[1..]) || y == x;
      }
      SortedCons(leq, xs[0], rest);
    }
  }

  lemma {:induction false} SortSorts<T(!new)>(leq: (T, T) -> bool, xs: seq<T>)
    requires TotalOn(leq, multiset(xs))
    ensures Sorted(leq, Sort(leq, xs))
  {
    if xs != [] {
      SamePart(xs);
      TotalOnPart(leq, multiset(xs[1..]), multiset(xs));
      SortSorts(leq, xs[1..]);
      assert multiset(Sort(leq, xs[1..])) + multiset{xs[0]} == multiset(xs);
      InsertSorts(leq, xs[0], Sort(leq, xs[1..]));
    }
  }

  /** Two sorted lists with the same elements are the same list. */
  lemma {:induction false} SortedIsUnique<T(!new)>(leq: (T, T) -> bool, xs: seq<T>, ys: seq<T>)
    requires multiset(xs) == multiset(ys) && TotalOn(leq, multiset(xs))
    requires Sorted(leq, xs) && Sorted(leq, ys)
    ensures xs == ys
  {
    if xs == [] {
      assert |multiset(ys)| == 0;
    } else {
      assert xs[0] in multiset(ys) && |multiset(xs)| == |xs|;
      SamePart(xs);
      SamePart(ys);
      assert ys[0] in multiset(xs);
      assert xs[0] in ys && ys[0] in xs;
      assert xs[0] == ys[0];
      TotalOnPart(leq, multiset(xs[1..]), multiset(xs));
      assert multiset(xs[1..]) == multiset(ys[1..]);
      SortedIsUnique(leq, xs[1..], ys[1..]);
      assert xs == [xs[0]] + xs[1..] && ys == [ys[0]] + ys[1..];
    }
  }

  /** Sorting forgets the order, and only the order. */
  lemma SortForgetsOrder<T(!new)>(leq: (T, T) -> bool, xs: seq<T>, ys: seq<T>)
    requires TotalOn(leq, multiset(xs)) && TotalOn(leq, multiset(ys))
    ensures Sort(leq, xs) == Sort(leq, ys) <==> multiset(xs) == multiset(ys)
  {
    if multiset(xs) == multiset(ys) {
      SortSorts(leq, xs);
      SortSorts(leq, ys);
      SortedIsUnique(leq, Sort(leq, xs), Sort(leq, ys));
    }
  }

  lemma SortTwice<T(!new)>(leq: (T, T) -> bool, xs: seq<T>)
    requires TotalOn(leq, multiset(xs))
    ensures Sort(leq, Sort(leq, xs)) == Sort(leq, xs)
  {
    SortForgetsOrder(leq, Sort(leq, xs), xs);
  }
}
