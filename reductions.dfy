/** The numpy reductions the core uses (sum, mean, min, max) and the astype(int) cast, over exact reals. */
module Reductions {

  function Sum(s: seq<real>): real
  {
    if s == [] then 0.0 else s[0] + Sum(s[1..])
  }

  /** np.mean of a non-empty array. */
  function Mean(s: seq<real>): real
    requires |s| > 0
  {
    Sum(s) / |s| as real
  }

  /** np.min of a non-empty array: an element that is no larger than any other. */
  function Min(s: seq<real>): (m: real)
    requires |s| > 0
    ensures m in s
    ensures forall i :: 0 <= i < |s| ==> m <= s[i]
  {
    if |s| == 1 then s[0]
    else
      var rest := Min(s[1..]);
      assert forall i :: 1 <= i < |s| ==> s[i] == s[1..][i - 1];
      if s[0] <= rest then s[0] else rest
  }

  /** np.max of a non-empty array: an element that is no smaller than any other. */
  function Max(s: seq<real>): (m: real)
    requires |s| > 0
    ensures m in s
    ensures forall i :: 0 <= i < |s| ==> s[i] <= m
  {
    if |s| == 1 then s[0]
    else
      var rest := Max(s[1..]);
      assert forall i :: 1 <= i < |s| ==> s[i] == s[1..][i - 1];
      if rest <= s[0] then s[0] else rest
  }

  /** numpy's astype(int) on a float: truncation toward zero. */
  function Trunc(x: real): (r: int)
    ensures 0.0 <= x ==> r as real <= x < r as real + 1.0
    ensures x < 0.0 ==> r as real - 1.0 < x <= r as real
  {
    if x >= 0.0 then x.Floor else -((-x).Floor)
  }

  lemma {:induction false} SumAppend(a: seq<real>, b: seq<real>)
    ensures Sum(a + b) == Sum(a) + Sum(b)
  {
    if a == [] {
      assert a + b == b;
    } else {
      assert (a + b)[1..] == a[1..] + b;
      SumAppend(a[1..], b);
    }
  }

  /** Sum is linear: a pointwise combination x*a + y*b sums to x*Sum(a) + y*Sum(b). */
  lemma {:induction false} SumLinear(a: seq<real>, b: seq<real>, s: seq<real>, x: real, y: real)
    requires |a| == |b| == |s|
    requires forall i :: 0 <= i < |s| ==> s[i] == x * a[i] + y * b[i]
    ensures Sum(s) == x * Sum(a) + y * Sum(b)
  {
    if s != [] {
      SumLinear(a[1..], b[1..], s[1..], x, y);
      calc {
        Sum(s);
        s[0] + Sum(s[1..]);
        x * a[0] + y * b[0] + (x * Sum(a[1..]) + y * Sum(b[1..]));
        x * (a[0] + Sum(a[1..])) + y * (b[0] + Sum(b[1..]));
      }
    }
  }

  /** A sum scaled pointwise by c is the sum scaled by c. */
  lemma SumScaled(s: seq<real>, t: seq<real>, c: real)
    requires |s| == |t|
    requires forall i :: 0 <= i < |t| ==> t[i] == c * s[i]
    ensures Sum(t) == c * Sum(s)
  {
    SumLinear(s, s, t, c, 0.0);
  }

  /** Every element between lo and hi bounds the sum between |s|*lo and |s|*hi. */
  lemma {:induction false} SumBounds(s: seq<real>, lo: real, hi: real)
    requires forall i :: 0 <= i < |s| ==> lo <= s[i] <= hi
    ensures |s| as real * lo <= Sum(s) <= |s| as real * hi
  {
    if s != [] {
      assert forall i :: 0 <= i < |s| - 1 ==> s[1..][i] == s[i + 1];
      SumBounds(s[1..], lo, hi);
    }
  }

  /** A sequence that is 1 at position x and 0 elsewhere sums to 1 exactly when x is a position. */
  lemma {:induction false} SumOneHot(s: seq<real>, x: int)
    requires forall i :: 0 <= i < |s| ==> s[i] == (if i == x then 1.0 else 0.0)
    ensures Sum(s) == if 0 <= x < |s| then 1.0 else 0.0
  {
    if s != [] {
      assert forall i :: 0 <= i < |s| - 1 ==> s[1..][i] == s[i + 1];
      SumOneHot(s[1..], x - 1);
    }
  }

  /** Dividing bounds n*lo <= x <= n*hi by a positive n. */
  lemma DivideBounds(x: real, n: real, lo: real, hi: real)
    requires n > 0.0
    requires n * lo <= x <= n * hi
    ensures lo <= x / n <= hi
  {
    assert x / n - lo == (x - n * lo) / n;
    assert hi - x / n == (n * hi - x) / n;
  }

  /** Bounds on every element bound the mean. */
  lemma MeanBounds(s: seq<real>, lo: real, hi: real)
    requires |s| > 0
    requires forall i :: 0 <= i < |s| ==> lo <= s[i] <= hi
    ensures lo <= Mean(s) <= hi
  {
    SumBounds(s, lo, hi);
    DivideBounds(Sum(s), |s| as real, lo, hi);
  }

  /** The mean lies between the minimum and the maximum. */
  lemma MeanWithinMinMax(s: seq<real>)
    requires |s| > 0
    ensures Min(s) <= Mean(s) <= Max(s)
  {
    MeanBounds(s, Min(s), Max(s));
  }

  /** Moving a window one step along: the new sum differs by the element entering minus the one leaving. */
  lemma SumSlide(s: seq<real>, i: nat, w: nat)
    requires i + w < |s|
    ensures Sum(s[i + 1..i + w + 1]) == Sum(s[i..i + w]) - s[i] + s[i + w]
  {
    assert s[i..i + w] + [s[i + w]] == [s[i]] + s[i + 1..i + w + 1];
    SumAppend(s[i..i + w], [s[i + w]]);
    SumAppend([s[i]], s[i + 1..i + w + 1]);
    assert Sum([s[i + w]]) == s[i + w];
    assert Sum([s[i]]) == s[i];
  }

  /** The mean of a pointwise scaled sequence is the scaled mean. */
  lemma MeanScaled(s: seq<real>, t: seq<real>, c: real)
    requires |s| == |t| > 0
    requires forall i :: 0 <= i < |t| ==> t[i] == c * s[i]
    ensures Mean(t) == c * Mean(s)
  {
    SumScaled(s, t, c);
    var n := |s| as real;
    assert (c * Sum(s)) / n == c * (Sum(s) / n);
  }

  /** The dot product of two vectors of equal length. */
  function Dot(u: seq<real>, v: seq<real>): real
    requires |u| == |v|
  {
    if u == [] then 0.0 else u[0] * v[0] + Dot(u[1..], v[1..])
  }

  /** v with d added to every entry. */
  function Shift(v: seq<real>, d: real): (w: seq<real>)
    ensures |w| == |v|
  {
    seq(|v|, i requires 0 <= i < |v| => v[i] + d)
  }

  /** Adding d to every entry of v changes u . v by d times the sum of u. */
  lemma {:induction false} DotShift(u: seq<real>, v: seq<real>, d: real)
    requires |u| == |v|
    ensures Dot(u, Shift(v, d)) == Dot(u, v) + d * Sum(u)
  {
    if u != [] {
      assert Shift(v, d)[1..] == Shift(v[1..], d);
      DotShift(u[1..], v[1..], d);
    }
  }

  /** x == y + d * s reduces to x == y when s is 0 and to x == y + d when s is 1. */
  lemma ScaledShift(x: real, y: real, d: real, s: real)
    requires x == y + d * s
    ensures s == 0.0 ==> x == y
    ensures s == 1.0 ==> x == y + d
  {
  }

  /** A weight vector summing to zero does not see a common shift. */
  lemma {:induction false} DotShiftBalanced(u: seq<real>, v: seq<real>, d: real)
    requires |u| == |v| && Sum(u) == 0.0
    ensures Dot(u, Shift(v, d)) == Dot(u, v)
  {
    DotShift(u, v, d);
    ScaledShift(Dot(u, Shift(v, d)), Dot(u, v), d, Sum(u));
  }

  /** A weight vector summing to one passes a common shift through unchanged. */
  lemma {:induction false} DotShiftNormalized(u: seq<real>, v: seq<real>, d: real)
    requires |u| == |v| && Sum(u) == 1.0
    ensures Dot(u, Shift(v, d)) == Dot(u, v) + d
  {
    DotShift(u, v, d);
    ScaledShift(Dot(u, Shift(v, d)), Dot(u, v), d, Sum(u));
  }

  /** A quantity that is z divided twice by n, times n * n, is z. */
  lemma DoubleDivision(x: real, z: real, n: real)
    requires n > 0.0
    requires x == z / n / n
    ensures x * (n * n) == z
  {
    var q := z / n;
    assert (q / n) * n == q;
    assert (q / n) * (n * n) == ((q / n) * n) * n;
  }

  /** The mean of s divided once more by |s|, times |s| squared, is the sum of s. */
  lemma MeanDividedAgain(s: seq<real>, x: real, z: real)
    requires |s| > 0 && x == Mean(s) / |s| as real && Sum(s) == z
    ensures x * (|s| as real * |s| as real) == z
  {
    DoubleDivision(x, Sum(s), |s| as real);
  }

  /** Sum of a pointwise sum. */
  lemma {:induction false} SumPointwise(a: seq<real>, b: seq<real>, s: seq<real>)
    requires |a| == |b| == |s|
    requires forall i :: 0 <= i < |s| ==> s[i] == a[i] + b[i]
    ensures Sum(s) == Sum(a) + Sum(b)
  {
    if s != [] {
      SumPointwise(a[1..], b[1..], s[1..]);
    }
  }

  /** Dividing by n is scaling by 1 / n. */
  lemma DivisionAsScaling(x: real, n: real)
    requires n != 0.0
    ensures x / n == (1.0 / n) * x
  {
  }

  /** Dividing every entry by n divides the sum by n. */
  lemma {:induction false} SumDivided(s: seq<real>, t: seq<real>, n: real)
    requires n != 0.0 && |s| == |t|
    requires forall i :: 0 <= i < |t| ==> t[i] == s[i] / n
    ensures Sum(t) == Sum(s) / n
  {
    if s != [] {
      SumDivided(s[1..], t[1..], n);
      DivisionAsScaling(s[0], n);
      DivisionAsScaling(Sum(s[1..]), n);
      DivisionAsScaling(Sum(s), n);
    }
  }

  /** Sum of a pointwise difference. */
  lemma {:induction false} SumDifference(a: seq<real>, b: seq<real>, s: seq<real>)
    requires |a| == |b| == |s|
    requires forall i :: 0 <= i < |s| ==> s[i] == a[i] - b[i]
    ensures Sum(s) == Sum(a) - Sum(b)
  {
    if s != [] {
      SumDifference(a[1..], b[1..], s[1..]);
    }
  }

  /** The mean of a pointwise difference is the difference of the means. */
  lemma MeanDifference(a: seq<real>, b: seq<real>, s: seq<real>)
    requires |a| == |b| == |s| > 0
    requires forall i :: 0 <= i < |s| ==> s[i] == a[i] - b[i]
    ensures Mean(s) == Mean(a) - Mean(b)
  {
    SumDifference(a, b, s);
    var n := |s| as real;
    DivisionAsScaling(Sum(s), n);
    DivisionAsScaling(Sum(a), n);
    DivisionAsScaling(Sum(b), n);
  }

  /** x / n grows with x when n is positive. */
  lemma DivideMonotone(x: real, y: real, n: real)
    requires n > 0.0 && x <= y
    ensures x / n <= y / n
  {
    assert y / n - x / n == (y - x) / n;
  }

  /** Sliding a window one step along non-decreasing neighbours does not lower its mean. */
  lemma MeanSlideGrows(s: seq<real>, i: nat, w: nat)
    requires 0 < w && i + w < |s| && s[i] <= s[i + w]
    ensures Mean(s[i..i + w]) <= Mean(s[i + 1..i + w + 1])
  {
    SumSlide(s, i, w);
    assert |s[i..i + w]| == w && |s[i + 1..i + w + 1]| == w;
    DivideMonotone(Sum(s[i..i + w]), Sum(s[i + 1..i + w + 1]), w as real);
  }

  /** Entries in non-decreasing order. */
  predicate NonDecreasing(s: seq<real>)
  {
    forall i, j :: 0 <= i <= j < |s| ==> s[i] <= s[j]
  }

  /**
   * In a run of w entries of a non-decreasing sequence the first entry is the minimum, the last
   * the maximum, and the mean lies between.
   */
  lemma SortedRunBounds(s: seq<real>, i: nat, w: nat)
    requires NonDecreasing(s) && 0 < w && i + w <= |s|
    ensures Min(s[i..i + w]) == s[i] && Max(s[i..i + w]) == s[i + w - 1]
    ensures s[i] <= Mean(s[i..i + w]) <= s[i + w - 1]
  {
    var run := s[i..i + w];
    assert forall k :: 0 <= k < w ==> s[i] <= run[k] <= s[i + w - 1];
    assert run[0] == s[i] && run[w - 1] == s[i + w - 1];
    MeanBounds(run, s[i], s[i + w - 1]);
  }
}
