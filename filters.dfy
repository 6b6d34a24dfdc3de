/**
 * The region filters of chemical_potentials.py: each returns a sub-selection of the
 * dataset and the fraction p of its rows that the selection retains.
 */
module Filters {
  import opened Common
  import opened Tables

  /** IdentityFilter, or OneDimChunkFilter over the interval [low, high] of coordinate axis. */
  datatype Filter =
    | Identity
    | OneDimChunk(axis: int, low: real, high: real)

  datatype FilterResult = FilterResult(data: Table, p: real)

  /** The interval test of the mask: low <= row[c] <= high, both ends included. */
  predicate InInterval(row: seq<real>, c: nat, low: real, high: real)
    requires c < |row|
  {
    low <= row[c] && row[c] <= high
  }

  /** data[mask]: the rows that pass the interval test, in their original order. */
  function Select(rows: seq<seq<real>>, c: nat, low: real, high: real): (kept: seq<seq<real>>)
    requires HasColumn(rows, c)
    ensures |kept| <= |rows|
    ensures forall r | r in kept :: r in rows && InInterval(r, c, low, high)
  {
    if rows == [] then []
    else
      var rest := Select(rows[1..], c, low, high);
      if InInterval(rows[0], c, low, high) then [rows[0]] + rest else rest
  }

  /** The coordinate column a chunk filter on this axis reads: data[:, -3 + axis]. */
  function AxisColumn(width: nat, axis: int): Option<nat>
  {
    PyIndex(width, -3 + axis)
  }

  /** A ratio k / n with 0 <= k <= n and n > 0 lies in [0, 1]. */
  lemma RatioBounds(k: real, n: real)
    requires 0.0 <= k <= n && n > 0.0
    ensures 0.0 <= k / n <= 1.0
    ensures k / n * n == k
  {
    var q := k / n;
    assert (q - 1.0) * n == k - n;
  }

  /** kept / total as a real, for 0 <= kept <= total and total > 0. */
  function Fraction(kept: nat, total: nat): (p: real)
    requires kept <= total && total > 0
    ensures 0.0 <= p <= 1.0
    ensures p * total as real == kept as real
    ensures kept == total ==> p == 1.0
  {
    RatioBounds(kept as real, total as real);
    kept as real / total as real
  }

  /** Lines 67-70 on a non-empty table: the rows inside [low, high] on column c and their fraction. */
  function Chunk(t: Table, c: nat, low: real, high: real): (r: FilterResult)
    requires t.Valid() && c < t.width && |t.rows| > 0
    ensures r.data.width == t.width && r.data.Valid()
    ensures r.data.rows == Select(t.rows, c, low, high)
    ensures forall x | x in r.data.rows :: x in t.rows && InInterval(x, c, low, high)
    ensures r.p == Fraction(|r.data.rows|, |t.rows|)
  {
    var kept := Select(t.rows, c, low, high);
    FilterResult(Table(t.width, kept), Fraction(|kept|, |t.rows|))
  }

  /** Filter.employ: the filtered data and the fraction p of rows retained. */
  function Employ(f: Filter, t: Table): (r: Result<FilterResult>)
    requires t.Valid()
    ensures f.Identity? ==> r == Ok(FilterResult(t, 1.0))
    ensures f.OneDimChunk? ==>
      (r.Ok? <==> AxisColumn(t.width, f.axis).Some? && |t.rows| > 0)
    ensures f.OneDimChunk? && AxisColumn(t.width, f.axis).None? ==> r == Err(IndexError)
    ensures f.OneDimChunk? && AxisColumn(t.width, f.axis).Some? && |t.rows| == 0 ==> r == Err(ZeroDivision)
    ensures r.Ok? ==> var kept := r.value.data;
      && kept.width == t.width && kept.Valid()
      && (forall x | x in kept.rows :: x in t.rows)
      && 0.0 <= r.value.p <= 1.0
    ensures r.Ok? && f.OneDimChunk? ==>
      forall x | x in r.value.data.rows :: InInterval(x, AxisColumn(t.width, f.axis).value, f.low, f.high)
    ensures r.Ok? && f.OneDimChunk? ==> r.value == Chunk(t, AxisColumn(t.width, f.axis).value, f.low, f.high)
  {
    match f
    case Identity => Ok(FilterResult(t, 1.0))
    case OneDimChunk(axis, low, high) =>
      match AxisColumn(t.width, axis)
      case None => Err(IndexError)
      case Some(c) =>
        if |t.rows| == 0 then Err(ZeroDivision)
        else Ok(Chunk(t, c, low, high))
  }

  /** The filter commutes with concatenation: it keeps each row's verdict and the rows' order. */
  lemma {:induction false} SelectAppend(a: seq<seq<real>>, b: seq<seq<real>>, c: nat, low: real, high: real)
    requires HasColumn(a, c) && HasColumn(b, c)
    ensures HasColumn(a + b, c)
    ensures Select(a + b, c, low, high) == Select(a, c, low, high) + Select(b, c, low, high)
  {
    if a == [] {
      assert a + b == b;
    } else {
      var ab := a + b;
      assert ab[0] == a[0] && ab[1..] == a[1..] + b;
      SelectAppend(a[1..], b, c, low, high);
      var sa := Select(a[1..], c, low, high);
      var sb := Select(b, c, low, high);
      if InInterval(a[0], c, low, high) {
        assert Select(ab, c, low, high) == [a[0]] + (sa + sb);
        assert [a[0]] + (sa + sb) == ([a[0]] + sa) + sb;
      }
    }
  }

  /** Exactly the rows inside the interval are kept, each as often as it occurs. */
  lemma {:induction false} SelectExact(rows: seq<seq<real>>, c: nat, low: real, high: real, x: seq<real>)
    requires HasColumn(rows, c)
    requires c < |x|
    ensures multiset(Select(rows, c, low, high))[x] ==
      if InInterval(x, c, low, high) then multiset(rows)[x] else 0
  {
    if rows != [] {
      assert rows == [rows[0]] + rows[1..];
      SelectExact(rows[1..], c, low, high, x);
    }
  }

  /** A row inside the interval is among the selected rows. */
  lemma SelectKeeps(rows: seq<seq<real>>, c: nat, low: real, high: real, k: nat)
    requires HasColumn(rows, c) && k < |rows| && c < |rows[k]| && InInterval(rows[k], c, low, high)
    ensures rows[k] in Select(rows, c, low, high)
  {
    SelectExact(rows, c, low, high, rows[k]);
    assert rows[k] in multiset(rows);
  }

  /** When every row is inside the interval, nothing is dropped. */
  lemma {:induction false} SelectKeepsAll(rows: seq<seq<real>>, c: nat, low: real, high: real)
    requires HasColumn(rows, c)
    requires forall r | r in rows :: InInterval(r, c, low, high)
    ensures Select(rows, c, low, high) == rows
  {
    if rows != [] {
      assert rows == [rows[0]] + rows[1..];
      SelectKeepsAll(rows[1..], c, low, high);
    }
  }

  /** A run of consecutive rows inside the interval is kept, so at least that many rows survive. */
  lemma SelectCoversRun(rows: seq<seq<real>>, c: nat, low: real, high: real, i: nat, j: nat)
    requires HasColumn(rows, c)
    requires i <= j <= |rows|
    requires forall k :: i <= k < j ==> InInterval(rows[k], c, low, high)
    ensures |Select(rows, c, low, high)| >= j - i
  {
    assert rows == rows[..i] + rows[i..j] + rows[j..];
    SelectAppend(rows[..i] + rows[i..j], rows[j..], c, low, high);
    SelectAppend(rows[..i], rows[i..j], c, low, high);
    SelectKeepsAll(rows[i..j], c, low, high);
  }

  /** A chunk whose interval contains every atom of a non-empty dataset acts as the identity filter. */
  lemma ChunkCoveringAllIsIdentity(t: Table, axis: int, low: real, high: real)
    requires t.Valid() && |t.rows| > 0
    requires AxisColumn(t.width, axis).Some?
    requires forall r | r in t.rows :: InInterval(r, AxisColumn(t.width, axis).value, low, high)
    ensures Employ(OneDimChunk(axis, low, high), t) == Employ(Identity, t)
  {
    SelectKeepsAll(t.rows, AxisColumn(t.width, axis).value, low, high);
  }
}
