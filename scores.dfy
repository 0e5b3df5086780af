/** Score vectors: one share per player, each in [0, 1], summing to 1. */
module Scores {

  function Sum(v: seq<real>): real
  {
    if v == [] then 0.0 else v[0] + Sum(v[1..])
  }

  /** The score-vector invariant for `n` players. */
  ghost predicate IsDistribution(v: seq<real>, n: nat)
  {
    && |v| == n
    && (forall i :: 0 <= i < |v| ==> 0.0 <= v[i] <= 1.0)
    && Sum(v) == 1.0
  }

  /** `vec![0.0; n]`. */
  function Zeros(n: nat): (v: seq<real>)
    ensures |v| == n && forall i :: 0 <= i < n ==> v[i] == 0.0
  {
    seq(n, _ => 0.0)
  }

  /** The same share `1/n` for each of `n` players. */
  function Uniform(n: nat): (v: seq<real>)
    requires n > 0
  {
    seq(n, _ => 1.0 / n as real)
  }

  /** 1 for player `k`, 0 for everyone else. */
  function Indicator(n: nat, k: nat): (v: seq<real>)
  {
    seq(n, i => if i == k then 1.0 else 0.0)
  }

  lemma {:induction false} SumConstant(k: nat, x: real)
    ensures Sum(seq(k, _ => x)) == k as real * x
  {
    if k > 0 {
      assert seq(k, _ => x)[1..] == seq(k - 1, _ => x);
      SumConstant(k - 1, x);
    }
  }

  lemma {:induction false} SumZeros(k: nat)
    ensures Sum(Zeros(k)) == 0.0
  {
    if k > 0 {
      assert Zeros(k)[1..] == Zeros(k - 1);
      SumZeros(k - 1);
    }
  }

  lemma {:induction false} SumIndicatorShifted(n: nat, k: nat)
    ensures Sum(Indicator(n, k)) == if k < n then 1.0 else 0.0
  {
    if n > 0 {
      if k == 0 {
        assert Indicator(n, 0)[1..] == Zeros(n - 1);
        SumZeros(n - 1);
      } else {
        assert Indicator(n, k)[1..] == Indicator(n - 1, k - 1);
        SumIndicatorShifted(n - 1, k - 1);
      }
    }
  }

  /** An entry of a vector with no negative entry is at most its sum. */
  lemma {:induction false} EntryAtMostSum(v: seq<real>, i: nat)
    requires i < |v| && forall k :: 0 <= k < |v| ==> 0.0 <= v[k]
    ensures v[i] <= Sum(v)
  {
    assert forall k :: 0 <= k < |v[1..]| ==> 0.0 <= v[1..][k];
    if i == 0 {
      NonNegativeSum(v[1..]);
    } else {
      EntryAtMostSum(v[1..], i - 1);
    }
  }

  lemma {:induction false} NonNegativeSum(v: seq<real>)
    requires forall k :: 0 <= k < |v| ==> 0.0 <= v[k]
    ensures 0.0 <= Sum(v)
  {
    if v != [] {
      assert forall k :: 0 <= k < |v[1..]| ==> 0.0 <= v[1..][k];
      NonNegativeSum(v[1..]);
    }
  }

  /**
   * Two different entries of a vector with no negative entry add up to at most its sum: in
   * a distribution, what one player holds is at most one minus what another holds.
   */
  lemma {:induction false} PairAtMostSum(v: seq<real>, i: nat, j: nat)
    requires i < |v| && j < |v| && i != j
    requires forall k :: 0 <= k < |v| ==> 0.0 <= v[k]
    ensures v[i] + v[j] <= Sum(v)
  {
    assert forall k :: 0 <= k < |v[1..]| ==> 0.0 <= v[1..][k];
    if i == 0 {
      EntryAtMostSum(v[1..], j - 1);
    } else if j == 0 {
      EntryAtMostSum(v[1..], i - 1);
    } else {
      PairAtMostSum(v[1..], i - 1, j - 1);
    }
  }

  /** The tie/ongoing score is a distribution: every entry is 1/n and they add up to 1. */
  lemma UniformIsDistribution(n: nat)
    requires n > 0
    ensures IsDistribution(Uniform(n), n)
    ensures forall i :: 0 <= i < n ==> Uniform(n)[i] == 1.0 / n as real
  {
    SumConstant(n, 1.0 / n as real);
  }

  /** The winner's score is a distribution with all the weight on the winner. */
  lemma IndicatorIsDistribution(n: nat, k: nat)
    requires k < n
    ensures IsDistribution(Indicator(n, k), n)
    ensures Indicator(n, k)[k] == 1.0 && forall i :: 0 <= i < n && i != k ==> Indicator(n, k)[i] == 0.0
  {
    SumIndicatorShifted(n, k);
  }
}
