/** Insertion into strictly sorted sequences, over any strict order. */
module StrictSort {

  ghost predicate StrictOrder<T(!new)>(less: (T, T) -> bool) {
    && (forall x :: !less(x, x))
    && (forall x, y, z :: less(x, y) && less(y, z) ==> less(x, z))
  }

  predicate Sorted<T>(less: (T, T) -> bool, xs: seq<T>) {
    forall i, j :: 0 <= i < j < |xs| ==> less(xs[i], xs[j])
  }

  /** `x` can be told apart from every element of `xs`. */
  predicate Comparable<T>(less: (T, T) -> bool, xs: seq<T>, x: T) {
    forall i :: 0 <= i < |xs| ==> less(x, xs[i]) || less(xs[i], x)
  }

  function Insert<T>(less: (T, T) -> bool, xs: seq<T>, x: T): seq<T> {
    if xs == [] then [x]
    else if less(x, xs[0]) then [x] + xs
    else [xs[0]] + Insert(less, xs[1..], x)
  }

  lemma {:induction false} InsertMembers<T(!new)>(less: (T, T) -> bool, xs: seq<T>, x: T)
    ensures forall y :: y in Insert(less, xs, x) <==> y == x || y in xs
  {
    if xs != [] && !less(x, xs[0]) { InsertMembers(less, xs[1..], x); }
  }

  lemma {:induction false} InsertSorts<T(!new)>(less: (T, T) -> bool, xs: seq<T>, x: T)
    requires StrictOrder(less) && Sorted(less, xs) && Comparable(less, xs, x)
    ensures Sorted(less, Insert(less, xs, x))
  {
    if xs != [] && !less(x, xs[0]) {
      InsertSorts(less, xs[1..], x);
      InsertMembers(less, xs[1..], x);
      var tail := Insert(less, xs[1..], x);
      forall i | 0 <= i < |tail| ensures less(xs[0], tail[i]) {
        assert tail[i] in tail;
      }
    }
  }

  /** A strictly sorted sequence is determined by its elements. */
  lemma {:induction false} SortedUnique<T(!new)>(less: (T, T) -> bool, xs: seq<T>, ys: seq<T>)
    requires StrictOrder(less) && Sorted(less, xs) && Sorted(less, ys)
    requires forall x :: x in xs <==> x in ys
    ensures xs == ys
    decreases |xs|
  {
    assert xs != [] ==> xs[0] in ys;
    assert ys != [] ==> ys[0] in xs;
    if xs != [] {
      assert xs[0] == ys[0];
      assert xs == [xs[0]] + xs[1..] && ys == [ys[0]] + ys[1..];
      assert xs[0] !in xs[1..] && ys[0] !in ys[1..];
      forall x ensures x in xs[1..] <==> x in ys[1..] {
        assert (x in xs <==> x == xs[0] || x in xs[1..]) && (x in ys <==> x == ys[0] || x in ys[1..]);
      }
      SortedUnique(less, xs[1..], ys[1..]);
    }
  }
}
