/**
 * The species pairs of get_chemical_potentials: combinations(range(n), 2), every (t1, t2)
 * with t1 < t2, in lexicographic order.
 */
module TypePairs {

  /** (t1, t2), (t1, t2 + 1), ..., (t1, n - 1). */
  function PairsWith(t1: nat, t2: nat, n: nat): seq<(nat, nat)>
    decreases n - t2
  {
    if t2 >= n then [] else [(t1, t2)] + PairsWith(t1, t2 + 1, n)
  }

  /** Every pair whose first species is at least t1, in lexicographic order. */
  function PairsFrom(t1: nat, n: nat): seq<(nat, nat)>
    decreases n - t1
  {
    if t1 >= n then [] else PairsWith(t1, t1 + 1, n) + PairsFrom(t1 + 1, n)
  }

  /** combinations(range(n), 2). */
  function Pairs(n: nat): seq<(nat, nat)>
  {
    PairsFrom(0, n)
  }

  /** Lexicographic order on pairs, strict. */
  predicate LexLess(a: (nat, nat), b: (nat, nat))
  {
    a.0 < b.0 || (a.0 == b.0 && a.1 < b.1)
  }

  /** Strictly increasing in lexicographic order (so also free of repeats). */
  predicate LexSorted(s: seq<(nat, nat)>)
  {
    forall i, j :: 0 <= i < j < |s| ==> LexLess(s[i], s[j])
  }

  lemma {:induction false} PairsWithFacts(t1: nat, t2: nat, n: nat)
    ensures |PairsWith(t1, t2, n)| == if t2 >= n then 0 else n - t2
    ensures forall k :: 0 <= k < |PairsWith(t1, t2, n)| ==> PairsWith(t1, t2, n)[k] == (t1, t2 + k)
    decreases n - t2
  {
    if t2 < n {
      PairsWithFacts(t1, t2 + 1, n);
    }
  }

  /** m*(m-1) = 2*(m-1) + (m-1)*(m-2): the step of the pair count. */
  lemma PairCountStep(m: nat)
    requires m >= 1
    ensures m * (m - 1) == 2 * (m - 1) + (m - 1) * (m - 2)
  {
  }

  lemma {:induction false} PairsFromLength(t1: nat, n: nat)
    ensures t1 <= n ==> 2 * |PairsFrom(t1, n)| == (n - t1) * (n - t1 - 1)
    decreases n - t1
  {
    if t1 < n {
      PairsWithFacts(t1, t1 + 1, n);
      PairsFromLength(t1 + 1, n);
      PairCountStep(n - t1);
    }
  }

  /** There are C(n, 2) pairs: 2 * |Pairs(n)| == n * (n - 1). */
  lemma PairsLength(n: nat)
    ensures 2 * |Pairs(n)| == n * (n - 1)
  {
    PairsFromLength(0, n);
  }

  lemma {:induction false} PairsFromValid(t1: nat, n: nat)
    ensures forall k :: 0 <= k < |PairsFrom(t1, n)| ==>
      t1 <= PairsFrom(t1, n)[k].0 < PairsFrom(t1, n)[k].1 < n
    decreases n - t1
  {
    if t1 < n {
      PairsWithFacts(t1, t1 + 1, n);
      PairsFromValid(t1 + 1, n);
      var a, b := PairsWith(t1, t1 + 1, n), PairsFrom(t1 + 1, n);
      assert forall k :: |a| <= k < |a + b| ==> (a + b)[k] == b[k - |a|];
    }
  }

  /** Every enumerated pair (t1, t2) has t1 < t2 < n. */
  lemma PairsValid(n: nat)
    ensures forall k :: 0 <= k < |Pairs(n)| ==> Pairs(n)[k].0 < Pairs(n)[k].1 < n
  {
    PairsFromValid(0, n);
  }

  lemma {:induction false} PairsFromComplete(t1: nat, n: nat, a: nat, b: nat)
    requires t1 <= a < b < n
    ensures (a, b) in PairsFrom(t1, n)
    decreases n - t1
  {
    var head, rest := PairsWith(t1, t1 + 1, n), PairsFrom(t1 + 1, n);
    assert PairsFrom(t1, n) == head + rest;
    if a == t1 {
      PairsWithFacts(t1, t1 + 1, n);
      assert head[b - t1 - 1] == (a, b);
      assert (head + rest)[b - t1 - 1] == (a, b);
    } else {
      PairsFromComplete(t1 + 1, n, a, b);
      assert (a, b) in rest;
    }
  }

  /** Every pair t1 < t2 < n is enumerated. */
  lemma PairsComplete(n: nat, a: nat, b: nat)
    requires a < b < n
    ensures (a, b) in Pairs(n)
  {
    PairsFromComplete(0, n, a, b);
  }

  lemma {:induction false} PairsFromSorted(t1: nat, n: nat)
    ensures LexSorted(PairsFrom(t1, n))
    decreases n - t1
  {
    if t1 < n {
      var a, b := PairsWith(t1, t1 + 1, n), PairsFrom(t1 + 1, n);
      PairsWithFacts(t1, t1 + 1, n);
      PairsFromSorted(t1 + 1, n);
      PairsFromValid(t1 + 1, n);
      var s := a + b;
      forall i, j | 0 <= i < j < |s|
        ensures LexLess(s[i], s[j])
      {
        if j < |a| {
        } else if i < |a| {
          assert s[j] == b[j - |a|];
        } else {
          assert s[i] == b[i - |a|] && s[j] == b[j - |a|];
        }
      }
    }
  }

  /** The pairs come in strictly increasing lexicographic order, as combinations yields them. */
  lemma PairsSorted(n: nat)
    ensures LexSorted(Pairs(n))
  {
    PairsFromSorted(0, n);
  }
}
