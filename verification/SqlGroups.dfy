/** GROUP BY keys and COUNT(DISTINCT ...). */
module SqlGroups {
  function Without<T(==)>(xs: seq<T>, x: T): (r: seq<T>)
    ensures |r| <= |xs|
  {
    if xs == [] then []
    else (if xs[0] == x then [] else [xs[0]]) + Without(xs[1..], x)
  }

  /** Each value once, by first appearance. */
  function Distinct<T(==)>(xs: seq<T>): seq<T>
    decreases |xs|
  {
    if xs == [] then [] else [xs[0]] + Distinct(Without(xs[1..], xs[0]))
  }

  lemma {:induction false} WithoutMembers<T>(xs: seq<T>, x: T, y: T)
    ensures y in Without(xs, x) <==> y in xs && y != x
  {
    if xs != [] {
      WithoutMembers(xs[1..], x, y);
    }
  }

  lemma {:induction false} DistinctMembers<T>(xs: seq<T>, y: T)
    ensures y in Distinct(xs) <==> y in xs
    decreases |xs|
  {
    if xs != [] {
      DistinctMembers(Without(xs[1..], xs[0]), y);
      WithoutMembers(xs[1..], xs[0], y);
    }
  }

  lemma {:induction false} DistinctDiffer<T>(xs: seq<T>)
    ensures forall i, j | 0 <= i < j < |Distinct(xs)| :: Distinct(xs)[i] != Distinct(xs)[j]
    decreases |xs|
  {
    if xs != [] {
      var rest := Without(xs[1..], xs[0]);
      DistinctDiffer(rest);
      forall j | 0 <= j < |Distinct(rest)|
        ensures Distinct(rest)[j] != xs[0]
      {
        DistinctMembers(rest, Distinct(rest)[j]);
        WithoutMembers(xs[1..], xs[0], Distinct(rest)[j]);
      }
    }
  }

  lemma {:induction false} DistinctCount<T(!new)>(xs: seq<T>, all: set<T>)
    requires forall x :: x in all <==> x in xs
    ensures |Distinct(xs)| == |all|
    decreases |xs|
  {
    if xs == [] {
      assert all == {};
    } else {
      var rest := Without(xs[1..], xs[0]);
      forall x
        ensures x in all - {xs[0]} <==> x in rest
      {
        WithoutMembers(xs[1..], xs[0], x);
      }
      DistinctCount(rest, all - {xs[0]});
    }
  }
}
