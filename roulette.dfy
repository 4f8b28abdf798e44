/**
 * Roulette-wheel selection as the route calculator does it: desirabilities
 * are normalised into probabilities (with a uniform fallback when they sum to
 * zero), running totals are formed, and the first index whose running total
 * is strictly greater than the draw is chosen, or -1 when there is none.
 * Arithmetic is over the reals, where the source uses `float`.
 */
module Roulette {

  /** The sum of `s`, accumulated left to right as the source's loops do. */
  function Sum(s: seq<real>): real
    decreases |s|
  {
    if |s| == 0 then 0.0 else Sum(s[..|s| - 1]) + s[|s| - 1]
  }

  lemma SumAppend(s: seq<real>, x: real)
    ensures Sum(s + [x]) == Sum(s) + x
  {
    assert (s + [x])[..|s|] == s;
  }

  /**
   * Each weight divided by the total; when the total is zero, `1 / |w|` for
   * every entry, including the entries whose weight is zero.
   */
  function Normalise(w: seq<real>): (p: seq<real>)
    ensures |p| == |w|
  {
    var total := Sum(w);
    seq(|w|, i requires 0 <= i < |w| =>
      if total != 0.0 then w[i] / total else 1.0 / (|w| as real))
  }

  lemma DivisionDistributes(a: real, b: real, t: real)
    requires t != 0.0
    ensures a / t + b / t == (a + b) / t
  {
  }

  /** With a non-zero total, the first k probabilities sum to the first k weights over the total. */
  lemma {:induction false} ScaledPrefixSum(w: seq<real>, k: nat)
    requires k <= |w| && Sum(w) != 0.0
    ensures Sum(Normalise(w)[..k]) == Sum(w[..k]) / Sum(w)
  {
    if k > 0 {
      var p, total := Normalise(w), Sum(w);
      ScaledPrefixSum(w, k - 1);
      assert p[..k] == p[..k - 1] + [p[k - 1]];
      SumAppend(p[..k - 1], p[k - 1]);
      assert w[..k] == w[..k - 1] + [w[k - 1]];
      SumAppend(w[..k - 1], w[k - 1]);
      assert p[k - 1] == w[k - 1] / total;
      DivisionDistributes(Sum(w[..k - 1]), w[k - 1], total);
    }
  }

  /** With a zero total, the first k probabilities sum to k / |w|. */
  lemma {:induction false} UniformPrefixSum(w: seq<real>, k: nat)
    requires 0 < |w| && k <= |w| && Sum(w) == 0.0
    ensures Sum(Normalise(w)[..k]) == (k as real) / (|w| as real)
  {
    if k > 0 {
      var p, n := Normalise(w), |w| as real;
      UniformPrefixSum(w, k - 1);
      assert p[..k] == p[..k - 1] + [p[k - 1]];
      SumAppend(p[..k - 1], p[k - 1]);
      assert p[k - 1] == 1.0 / n;
      DivisionDistributes((k - 1) as real, 1.0, n);
    }
  }

  /** Normalised weights always sum to one, in the fallback case too. */
  lemma NormaliseSumsToOne(w: seq<real>)
    requires |w| > 0
    ensures Sum(Normalise(w)) == 1.0
  {
    assert Normalise(w)[..|w|] == Normalise(w);
    if Sum(w) != 0.0 {
      ScaledPrefixSum(w, |w|);
      assert w[..|w|] == w;
    } else {
      UniformPrefixSum(w, |w|);
    }
  }

  /** The running totals: entry i is the sum of entries 0..i. */
  function Cumulative(p: seq<real>): (c: seq<real>)
    ensures |c| == |p|
  {
    seq(|p|, i requires 0 <= i < |p| => Sum(p[..i + 1]))
  }

  /** The first index at or after `i` whose running total exceeds `draw`, or -1. */
  function SelectFrom(p: seq<real>, draw: real, i: nat): (r: int)
    requires i <= |p|
    decreases |p| - i
    ensures r == -1 || i <= r < |p|
  {
    if i == |p| then -1
    else if draw < Sum(p[..i + 1]) then i
    else SelectFrom(p, draw, i + 1)
  }

  /** What the roulette loop returns: an index of `p`, or -1. */
  function Select(p: seq<real>, draw: real): (r: int)
    ensures -1 <= r < |p|
  {
    SelectFrom(p, draw, 0)
  }

  /** Searching from `i` finds the least index at or after `i` whose running total exceeds `draw`. */
  lemma {:induction false} SelectFromIsLeast(p: seq<real>, draw: real, i: nat)
    requires i <= |p|
    ensures var r := SelectFrom(p, draw, i);
      && (r == -1 ==> forall k :: i <= k < |p| ==> Cumulative(p)[k] <= draw)
      && (r != -1 ==> draw < Cumulative(p)[r] && forall k :: i <= k < r ==> Cumulative(p)[k] <= draw)
    decreases |p| - i
  {
    if i < |p| && Cumulative(p)[i] <= draw {
      SelectFromIsLeast(p, draw, i + 1);
    }
  }

  /**
   * Selection returns the least index whose running total is strictly
   * greater than `draw`, and -1 exactly when no running total is.
   */
  lemma SelectIsLeast(p: seq<real>, draw: real)
    ensures Select(p, draw) == -1 <==> forall k :: 0 <= k < |p| ==> Cumulative(p)[k] <= draw
    ensures Select(p, draw) != -1 ==> draw < Cumulative(p)[Select(p, draw)]
    ensures Select(p, draw) != -1 ==> forall k :: 0 <= k < Select(p, draw) ==> Cumulative(p)[k] <= draw
  {
    SelectFromIsLeast(p, draw, 0);
  }

  /** The last running total is the sum of all entries. */
  lemma LastCumulativeIsSum(p: seq<real>)
    requires |p| > 0
    ensures Cumulative(p)[|p| - 1] == Sum(p)
  {
    assert p[..|p|] == p;
  }

  /** A non-negative draw never lands on an entry of probability zero. */
  lemma ZeroProbabilityNeverSelected(p: seq<real>, draw: real)
    requires 0.0 <= draw
    ensures Select(p, draw) != -1 ==> p[Select(p, draw)] != 0.0
  {
    var r := Select(p, draw);
    SelectIsLeast(p, draw);
    if r != -1 {
      assert p[..r + 1] == p[..r] + [p[r]];
      SumAppend(p[..r], p[r]);
      if r > 0 {
        assert Cumulative(p)[r - 1] == Sum(p[..r]);
      }
    }
  }

  lemma {:induction false} PrefixSumBelowTotal(p: seq<real>, k: nat)
    requires k <= |p|
    requires forall i :: 0 <= i < |p| ==> 0.0 <= p[i]
    ensures Sum(p[..k]) <= Sum(p)
    decreases |p| - k
  {
    if k < |p| {
      PrefixSumBelowTotal(p, k + 1);
      assert p[..k + 1] == p[..k] + [p[k]];
      SumAppend(p[..k], p[k]);
    } else {
      assert p[..k] == p;
    }
  }

  /**
   * Over non-negative probabilities, selection fails exactly when the draw is
   * at least the total.
   */
  lemma SelectFailsIffDrawReachesTotal(p: seq<real>, draw: real)
    requires |p| > 0
    requires forall i :: 0 <= i < |p| ==> 0.0 <= p[i]
    ensures Select(p, draw) == -1 <==> Sum(p) <= draw
  {
    SelectIsLeast(p, draw);
    LastCumulativeIsSum(p);
    if Sum(p) <= draw {
      forall k | 0 <= k < |p|
        ensures Cumulative(p)[k] <= draw
      {
        PrefixSumBelowTotal(p, k + 1);
      }
    }
  }

  /**
   * A draw below the total always selects an index; no sign condition on the
   * entries is needed for this direction.
   */
  lemma DrawBelowTotalSelects(p: seq<real>, draw: real)
    requires |p| > 0 && draw < Sum(p)
    ensures 0 <= Select(p, draw) < |p|
  {
    SelectIsLeast(p, draw);
    LastCumulativeIsSum(p);
  }

  /**
   * A draw of exactly 1.0 over probabilities that sum to exactly 1.0 falls
   * through the strict comparison and yields -1.
   */
  lemma DrawOfOneFallsThrough(p: seq<real>)
    requires |p| > 0
    requires forall i :: 0 <= i < |p| ==> 0.0 <= p[i]
    requires Sum(p) == 1.0
    ensures Select(p, 1.0) == -1
  {
    SelectFailsIffDrawReachesTotal(p, 1.0);
  }
}
