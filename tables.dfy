/** A numpy 2-D array of per-atom records, and Python's indexing rules on its columns. */
module Tables {
  import opened Common

  /**
   * One row per atom: [init_type, occupying_energy_1 .. occupying_energy_n, x, y, z].
   * The width is kept apart from the rows because an empty array still has one.
   */
  datatype Table = Table(width: nat, rows: seq<seq<real>>) {
    /** numpy arrays are rectangular: every row has the table's width. */
    predicate Valid()
    {
      forall r | r in rows :: |r| == width
    }
  }

  /**
   * Python's rule for an index k into an axis of length len: -len <= k < len is allowed,
   * a negative k counting from the end; anything else is an IndexError.
   */
  function PyIndex(len: nat, k: int): (r: Option<nat>)
    ensures r.Some? <==> -(len as int) <= k < len
    ensures r.Some? ==> r.value < len && (r.value == k || r.value == k + len)
  {
    if 0 <= k < len then Some(k)
    else if -(len as int) <= k < 0 then Some((k + len) as nat)
    else None
  }

  /** Every row has a column c. */
  predicate HasColumn(rows: seq<seq<real>>, c: nat)
  {
    forall r | r in rows :: c < |r|
  }

  /** data[:, c]: column c of every row, in row order. */
  function Column(rows: seq<seq<real>>, c: nat): (col: seq<real>)
    requires HasColumn(rows, c)
    ensures |col| == |rows|
    ensures forall i :: 0 <= i < |rows| ==> col[i] == rows[i][c]
  {
    seq(|rows|, i requires 0 <= i < |rows| => rows[i][c])
  }
}
