/** The standard library's slice sort, by an order on the elements. */
module Sorting {
  type Order<!T> = (T, T) -> bool

  ghost predicate Total<T(!new)>(leq: Order<T>) {
    forall x, y :: leq(x, y) || leq(y, x)
  }

  ghost predicate Transitive<T(!new)>(leq: Order<T>) {
    forall x, y, z :: leq(x, y) && leq(y, z) ==> leq(x, z)
  }

  ghost predicate Ordered<T(!new)>(leq: Order<T>, xs: seq<T>) {
    forall i, j :: 0 <= i < j < |xs| ==> leq(xs[i], xs[j])
  }

  /** After every element that does not come later, as a stable sort does. */
  function Place<T>(leq: Order<T>, xs: seq<T>, x: T): seq<T> {
    if xs == [] || leq(xs[|xs| - 1], x) then xs + [x]
    else Place(leq, xs[..|xs| - 1], x) + [xs[|xs| - 1]]
  }

  function Sort<T>(leq: Order<T>, xs: seq<T>): seq<T> {
    if xs == [] then [] else Place(leq, Sort(leq, xs[..|xs| - 1]), xs[|xs| - 1])
  }

  lemma {:induction false} PlaceKeeps<T>(leq: Order<T>, xs: seq<T>, x: T)
    ensures multiset(Place(leq, xs, x)) == multiset(xs) + multiset{x}
  {
    if xs != [] && !leq(xs[|xs| - 1], x) {
      var n := |xs| - 1;
      PlaceKeeps(leq, xs[..n], x);
      assert xs == xs[..n] + [xs[n]];
    }
  }

  lemma {:induction false} PlaceOrdered<T(!new)>(leq: Order<T>, xs: seq<T>, x: T)
    requires Total(leq) && Transitive(leq) && Ordered(leq, xs)
    ensures Ordered(leq, Place(leq, xs, x))
  {
    if xs != [] {
      var n := |xs| - 1;
      if leq(xs[n], x) {
        forall i | 0 <= i < n ensures leq(xs[i], x) {
          assert leq(xs[i], xs[n]);
        }
      } else {
        PlaceOrdered(leq, xs[..n], x);
        PlaceKeeps(leq, xs[..n], x);
        var ys := Place(leq, xs[..n], x);
        forall i | 0 <= i < |ys| ensures leq(ys[i], xs[n]) {
          assert ys[i] in multiset(ys);
          assert ys[i] == x || ys[i] in xs[..n];
        }
      }
    }
  }

  lemma {:induction false} SortKeeps<T>(leq: Order<T>, xs: seq<T>)
    ensures multiset(Sort(leq, xs)) == multiset(xs)
  {
    if xs != [] {
      var n := |xs| - 1;
      SortKeeps(leq, xs[..n]);
      PlaceKeeps(leq, Sort(leq, xs[..n]), xs[n]);
      assert xs == xs[..n] + [xs[n]];
    }
  }

  lemma {:induction false} SortIsSorted<T(!new)>(leq: Order<T>, xs: seq<T>)
    requires Total(leq) && Transitive(leq)
    ensures multiset(Sort(leq, xs)) == multiset(xs) && Ordered(leq, Sort(leq, xs))
  {
    SortKeeps(leq, xs);
    if xs != [] {
      var n := |xs| - 1;
      SortIsSorted(leq, xs[..n]);
      PlaceOrdered(leq, Sort(leq, xs[..n]), xs[n]);
    }
  }
}
