/**
 * data[data[:, c].argsort()]: the rows of a table reordered by one coordinate column.
 * argsort's quicksort does not promise an order among equal keys; this model inserts each
 * row before the first row with a greater or equal key, and what is proved about it is only
 * that the result is sorted on the column and a permutation of the input.
 */
module Sorting {
  import opened Tables

  /** Rows in non-decreasing order of column c. */
  predicate SortedBy(rows: seq<seq<real>>, c: nat)
    requires HasColumn(rows, c)
  {
    forall i, j :: 0 <= i < j < |rows| ==> rows[i][c] <= rows[j][c]
  }

  /** rows with x placed before the first row whose key is not smaller than x's. */
  function Insert(x: seq<real>, rows: seq<seq<real>>, c: nat): (r: seq<seq<real>>)
    requires c < |x| && HasColumn(rows, c)
    ensures |r| == |rows| + 1
    ensures multiset(r) == multiset(rows) + multiset{x}
    ensures HasColumn(r, c)
  {
    if rows == [] then [x]
    else if x[c] <= rows[0][c] then [x] + rows
    else
      assert rows == [rows[0]] + rows[1..];
      [rows[0]] + Insert(x, rows[1..], c)
  }

  /** Inserting into sorted rows keeps them sorted. */
  lemma {:induction false} InsertSorted(x: seq<real>, rows: seq<seq<real>>, c: nat)
    requires c < |x| && HasColumn(rows, c) && SortedBy(rows, c)
    ensures SortedBy(Insert(x, rows, c), c)
  {
    if rows != [] && x[c] > rows[0][c] {
      InsertSorted(x, rows[1..], c);
      var r := Insert(x, rows, c);
      forall k | 0 < k < |r|
        ensures rows[0][c] <= r[k][c]
      {
        var y := r[k];
        assert y in multiset(Insert(x, rows[1..], c));
        if y != x {
          assert y in rows[1..];
        }
      }
    }
  }

  /** The rows sorted on column c. */
  function SortByColumn(rows: seq<seq<real>>, c: nat): (r: seq<seq<real>>)
    requires HasColumn(rows, c)
    ensures |r| == |rows|
    ensures multiset(r) == multiset(rows)
    ensures HasColumn(r, c)
  {
    if rows == [] then []
    else
      assert rows == [rows[0]] + rows[1..];
      Insert(rows[0], SortByColumn(rows[1..], c), c)
  }

  /** SortByColumn's result is sorted. */
  lemma {:induction false} SortByColumnSorted(rows: seq<seq<real>>, c: nat)
    requires HasColumn(rows, c)
    ensures SortedBy(SortByColumn(rows, c), c)
  {
    if rows != [] {
      SortByColumnSorted(rows[1..], c);
      InsertSorted(rows[0], SortByColumn(rows[1..], c), c);
    }
  }

  /** A permutation of a table's rows keeps the table rectangular. */
  lemma PermutationValid(t: Table, rows: seq<seq<real>>)
    requires t.Valid() && multiset(rows) == multiset(t.rows)
    ensures Table(t.width, rows).Valid()
  {
    forall y | y in rows
      ensures |y| == t.width
    {
      assert y in multiset(t.rows);
    }
  }

  /** Line 130: the dataset with its rows in order of coordinate column c. */
  function SortTable(t: Table, c: nat): (s: Table)
    requires t.Valid() && c < t.width
    ensures s.width == t.width && s.Valid()
    ensures |s.rows| == |t.rows| && multiset(s.rows) == multiset(t.rows)
    ensures SortedBy(s.rows, c)
  {
    SortByColumnSorted(t.rows, c);
    PermutationValid(t, SortByColumn(t.rows, c));
    Table(t.width, SortByColumn(t.rows, c))
  }
}
