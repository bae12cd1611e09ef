/** Stable sorting by an order that is given. */
module Sorting {

  /** `x` goes behind everything it may follow. */
  function Insert<T>(xs: seq<T>, x: T, before: (T, T) -> bool): seq<T> {
    if xs == [] then [x]
    else if before(xs[|xs| - 1], x) then xs + [x]
    else Insert(xs[..|xs| - 1], x, before) + [xs[|xs| - 1]]
  }

  function Sorted<T>(xs: seq<T>, before: (T, T) -> bool): seq<T> {
    if xs == [] then [] else Insert(Sorted(xs[..|xs| - 1], before), xs[|xs| - 1], before)
  }

  ghost predicate Rising<T>(xs: seq<T>, before: (T, T) -> bool) {
    forall i, j :: 0 <= i < j < |xs| ==> before(xs[i], xs[j])
  }

  /** Any two are in order one way or the other, and the order carries on. */
  ghost predicate Orders<T(!new)>(before: (T, T) -> bool) {
    && (forall a: T, b: T :: before(a, b) || before(b, a))
    && forall a: T, b: T, c: T :: before(a, b) && before(b, c) ==> before(a, c)
  }

  lemma {:induction false} InsertAdds<T>(xs: seq<T>, x: T, before: (T, T) -> bool)
    ensures multiset(Insert(xs, x, before)) == multiset(xs) + multiset{x}
  {
    if xs != [] {
      InsertAdds(xs[..|xs| - 1], x, before);
      assert xs == xs[..|xs| - 1] + [xs[|xs| - 1]];
    }
  }

  lemma {:induction false} InsertRises<T(!new)>(xs: seq<T>, x: T, before: (T, T) -> bool)
    requires Orders(before) && Rising(xs, before)
    ensures Rising(Insert(xs, x, before), before)
  {
    if xs != [] {
      var front, last := xs[..|xs| - 1], xs[|xs| - 1];
      if before(last, x) {
        assert forall i :: 0 <= i < |xs| ==> before(xs[i], x);
      } else {
        InsertRises(front, x, before);
        InsertAdds(front, x, before);
        var more := Insert(front, x, before);
        forall i | 0 <= i < |more| ensures before(more[i], last) {
          assert more[i] in multiset(more);
          if more[i] != x {
            var j :| 0 <= j < |front| && front[j] == more[i];
            assert before(xs[j], xs[|xs| - 1]);
          }
        }
      }
    }
  }

  lemma {:induction false} SortedIsPermutation<T>(xs: seq<T>, before: (T, T) -> bool)
    ensures multiset(Sorted(xs, before)) == multiset(xs)
    ensures forall x :: x in Sorted(xs, before) <==> x in xs
  {
    if xs != [] {
      hide Insert;
      var front, last := xs[..|xs| - 1], xs[|xs| - 1];
      SortedIsPermutation(front, before);
      InsertAdds(Sorted(front, before), last, before);
      assert xs == front + [last];
    }
    SameMembers(Sorted(xs, before), xs);
  }

  lemma {:induction false} SameMembers<T>(xs: seq<T>, ys: seq<T>)
    requires multiset(xs) == multiset(ys)
    ensures forall x :: x in xs <==> x in ys
  {
    forall x ensures x in xs <==> x in ys {
      assert x in multiset(xs) <==> x in multiset(ys);
    }
  }

  /** Sorting puts in order what it is given, and nothing else. */
  lemma {:induction false} SortedRises<T(!new)>(xs: seq<T>, before: (T, T) -> bool)
    requires Orders(before)
    ensures Rising(Sorted(xs, before), before)
  {
    if xs != [] {
      hide Insert, Rising, Orders;
      SortedRises(xs[..|xs| - 1], before);
      InsertRises(Sorted(xs[..|xs| - 1], before), xs[|xs| - 1], before);
    } else {
      assert Sorted(xs, before) == [];
    }
  }
}
