/**
 * Counting the rows of a vote table.
 *
 * Both back ends keep one vote row per (voter, item) pair. A vote table is
 * modelled as a map from that pair to the vote it holds, so the uniqueness of
 * the pair is structural. This module counts, for one item, the rows holding a
 * given vote, and says how that count moves when one row is written.
 */
module Tally {
  import opened Wrappers

  /** The row stored under `k`, or None when there is none (a SELECT that finds no row). */
  function Lookup<V(==,!new), I(==,!new), T>(rows: map<(V, I), T>, k: (V, I)): (r: Option<T>)
    ensures r.Some? <==> k in rows
    ensures r.Some? ==> r.value == rows[k]
  {
    if k in rows then Some(rows[k]) else None
  }

  /** The table after one write under `k`: a DELETE when `o` is None, an INSERT or UPDATE otherwise. */
  function Put<V(==,!new), I(==,!new), T>(rows: map<(V, I), T>, k: (V, I), o: Option<T>): (r: map<(V, I), T>)
    ensures Lookup(r, k) == o
    ensures forall k' :: k' != k ==> Lookup(r, k') == Lookup(rows, k')
  {
    if o.None? then rows - {k} else rows[k := o.value]
  }

  /** The keys of the rows for `item` that hold `value`. */
  function Holders<V(==,!new), I(==,!new), T(==)>(rows: map<(V, I), T>, item: I, value: T): set<(V, I)>
  {
    set k | k in rows && k.1 == item && rows[k] == value
  }

  /** How many rows for `item` hold `value`. */
  function Count<V(==,!new), I(==,!new), T(==)>(rows: map<(V, I), T>, item: I, value: T): nat
  {
    |Holders(rows, item, value)|
  }

  function Indicator(b: bool): int
  {
    if b then 1 else 0
  }

  /** One write moves the count by at most one down (the old row) and one up (the new row). */
  lemma CountAfterPut<V(!new), I(!new), T>(rows: map<(V, I), T>, k: (V, I), o: Option<T>, item: I, value: T)
    ensures Count(Put(rows, k, o), item, value)
         == Count(rows, item, value)
            - Indicator(k.1 == item && Lookup(rows, k) == Some(value))
            + Indicator(k.1 == item && o == Some(value))
  {
    var written := Put(rows, k, o);
    var before, after := Holders(rows, item, value), Holders(written, item, value);
    HoldersElsewhere(rows, k, o, item, value);
    SizeAround(before, k);
    SizeAround(after, k);
    assert k in after <==> k.1 == item && o == Some(value) by {
      assert Lookup(written, k) == o;
    }
  }

  /** A write to `k` changes no holder other than `k`. */
  lemma HoldersElsewhere<V(!new), I(!new), T>(rows: map<(V, I), T>, k: (V, I), o: Option<T>, item: I, value: T)
    ensures Holders(Put(rows, k, o), item, value) - {k} == Holders(rows, item, value) - {k}
  {
    var written := Put(rows, k, o);
    forall k' ensures k' in Holders(written, item, value) - {k} <==> k' in Holders(rows, item, value) - {k} {
      if k' != k {
        assert Lookup(written, k') == Lookup(rows, k');
      }
    }
  }

  /** A set's size is the size without `x`, plus one when `x` is in it. */
  lemma SizeAround<X>(a: set<X>, x: X)
    ensures |a| == |a - {x}| + Indicator(x in a)
  {
    if x in a {
      assert a == (a - {x}) + {x};
    } else {
      assert a - {x} == a;
    }
  }

  /** An item with no rows at all has a count of zero for every value. */
  lemma CountWithoutRows<V(!new), I(!new), T>(rows: map<(V, I), T>, item: I, value: T)
    requires forall k :: k in rows ==> k.1 != item
    ensures Count(rows, item, value) == 0
  {
    assert Holders(rows, item, value) == {};
  }

  /** Writing a row and then writing back what was there before leaves the table as it was. */
  lemma PutBack<V(!new), I(!new), T>(rows: map<(V, I), T>, k: (V, I), o: Option<T>)
    ensures Put(Put(rows, k, o), k, Lookup(rows, k)) == rows
  {
    var back := Put(Put(rows, k, o), k, Lookup(rows, k));
    forall k' ensures Lookup(back, k') == Lookup(rows, k') {
    }
    forall k' ensures k' in back <==> k' in rows {
      assert Lookup(back, k') == Lookup(rows, k');
    }
    forall k' | k' in rows ensures back[k'] == rows[k'] {
      assert Lookup(back, k') == Lookup(rows, k');
    }
  }
}
