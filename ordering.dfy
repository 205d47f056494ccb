/**
 * The ORDER BY clauses of the listing queries. Each one sorts by a pair of
 * integers, largest first: `(score, created_at)` for posts (both DESC) and
 * `(score, -created_at)` for comments (score DESC, created_at ASC). Rows whose
 * keys are equal come out in an order SQL leaves open; the model keeps them in
 * the order they were scanned.
 */
module Ordering {
  /** A sort key, compared lexicographically. */
  type Rank = (int, int)

  /** `a` may come before `b` in a descending listing. */
  predicate NotBelow(a: Rank, b: Rank)
  {
    a.0 > b.0 || (a.0 == b.0 && a.1 >= b.1)
  }

  /** Largest key first. */
  predicate Descending<T>(xs: seq<T>, rank: T -> Rank)
  {
    forall i, j :: 0 <= i < j < |xs| ==> NotBelow(rank(xs[i]), rank(xs[j]))
  }

  predicate Distinct<T(==)>(xs: seq<T>)
  {
    forall i, j :: 0 <= i < j < |xs| ==> xs[i] != xs[j]
  }

  /**
   * Where a row goes in a descending listing: after every row whose key is
   * not below its own, before every row whose key is.
   */
  function Position<T>(xs: seq<T>, x: T, rank: T -> Rank): (k: nat)
    requires Descending(xs, rank)
    ensures k <= |xs|
    ensures forall i :: 0 <= i < k ==> NotBelow(rank(xs[i]), rank(x))
    ensures forall i :: k <= i < |xs| ==> !NotBelow(rank(xs[i]), rank(x))
  {
    if xs == [] || !NotBelow(rank(xs[0]), rank(x)) then 0
    else 1 + Position(xs[1..], x, rank)
  }

  /** A descending listing with one more row, put at its place. */
  function Insert<T(!new)>(xs: seq<T>, x: T, rank: T -> Rank): (ys: seq<T>)
    requires Descending(xs, rank)
    ensures Descending(ys, rank)
    ensures |ys| == |xs| + 1
    ensures forall y :: y in ys <==> y in xs || y == x
  {
    var k := Position(xs, x, rank);
    var ys := xs[..k] + [x] + xs[k..];
    assert forall i :: 0 <= i < |ys| ==> ys[i] == if i < k then xs[i] else if i == k then x else xs[i - 1];
    assert forall y :: y in xs ==> y in ys by {
      forall y | y in xs ensures y in ys {
        var i :| 0 <= i < |xs| && xs[i] == y;
        assert ys[if i < k then i else i + 1] == y;
      }
    }
    ys
  }

  /** Inserting a row that is not yet listed keeps every row listed once. */
  lemma InsertKeepsDistinct<T(!new)>(xs: seq<T>, x: T, rank: T -> Rank)
    requires Descending(xs, rank) && Distinct(xs) && x !in xs
    ensures Distinct(Insert(xs, x, rank))
  {
    var k := Position(xs, x, rank);
    var ys := Insert(xs, x, rank);
    assert ys == xs[..k] + [x] + xs[k..];
    forall i, j | 0 <= i < j < |ys| ensures ys[i] != ys[j] {
      var a := if i < k then i else i - 1;
      var b := if j < k then j else j - 1;
      if i != k && j != k {
        assert ys[i] == xs[a] && ys[j] == xs[b] && a < b;
      }
    }
  }
}
