/**
 * The placeholder evaluator: `n - 1` uniform draws, together with 0 and 1, cut [0, 1]
 * into `n` pieces whose lengths form the score vector. The random draws are an input.
 */
module Eval {
  import opened Scores
  import opened GameStates

  predicate Sorted(s: seq<real>)
  {
    forall i, j :: 0 <= i < j < |s| ==> s[i] <= s[j]
  }

  /** `windows(2).map(|w| w[1] - w[0])`: the differences of neighbouring points. */
  function Gaps(pts: seq<real>): (v: seq<real>)
    ensures |v| == if pts == [] then 0 else |pts| - 1
  {
    if |pts| < 2 then [] else [pts[1] - pts[0]] + Gaps(pts[1..])
  }

  /** Neighbouring differences add up to the last point minus the first. */
  lemma {:induction false} GapsSum(pts: seq<real>)
    requires pts != []
    ensures Sum(Gaps(pts)) == pts[|pts| - 1] - pts[0]
  {
    if |pts| >= 2 {
      GapsSum(pts[1..]);
      assert Gaps(pts)[1..] == Gaps(pts[1..]);
    }
  }

  /** The `i`-th difference is the step from point `i` to point `i + 1`. */
  lemma {:induction false} GapsAt(pts: seq<real>, i: nat)
    requires i + 1 < |pts|
    ensures Gaps(pts)[i] == pts[i + 1] - pts[i]
  {
    if i > 0 {
      GapsAt(pts[1..], i - 1);
    }
  }

  lemma SortedTail(s: seq<real>)
    requires Sorted(s) && s != []
    ensures Sorted(s[1..]) && forall x :: x in s ==> s[0] <= x
  {
    forall i, j | 0 <= i < j < |s| - 1
      ensures s[1..][i] <= s[1..][j]
    {
      assert s[1..][i] == s[i + 1] && s[1..][j] == s[j + 1];
    }
  }

  /** Two sorted arrangements of the same points are the same sequence. */
  lemma {:induction false} SortedUnique(s: seq<real>, t: seq<real>)
    requires Sorted(s) && Sorted(t) && multiset(s) == multiset(t)
    ensures s == t
  {
    assert |t| == |s| by { assert |multiset(t)| == |multiset(s)|; }
    if s != [] {
      SortedTail(s);
      SortedTail(t);
      assert s[0] in multiset(t) && t[0] in multiset(s);
      assert s[0] == t[0];
      assert s == [s[0]] + s[1..] && t == [t[0]] + t[1..];
      assert multiset(s[1..]) == multiset(s) - multiset{s[0]};
      assert multiset(t[1..]) == multiset(t) - multiset{t[0]};
      SortedUnique(s[1..], t[1..]);
    }
  }

  /**
   * While element `j` is moved down into `s[..i+1]`: every other pair in that prefix is in
   * order, and everything above position `j` is at least `s[j]`.
   */
  ghost predicate Inserting(s: seq<real>, i: nat, j: nat)
  {
    && j <= i < |s|
    && (forall k, l :: 0 <= k < l <= i && k != j && l != j ==> s[k] <= s[l])
    && (forall l :: j < l <= i ==> s[j] <= s[l])
  }

  lemma InsertStart(s: seq<real>, i: nat)
    requires i < |s| && Sorted(s[..i])
    ensures Inserting(s, i, i)
  {
    forall k, l | 0 <= k < l <= i && k != i && l != i
      ensures s[k] <= s[l]
    {
      assert s[..i][k] == s[k] && s[..i][l] == s[l];
    }
  }

  /** Swapping the moving element with a larger left neighbour keeps the insertion invariant and the points. */
  lemma InsertSwap(s: seq<real>, i: nat, j: nat)
    requires Inserting(s, i, j) && 0 < j && s[j - 1] > s[j]
    ensures Inserting(s[j - 1 := s[j]][j := s[j - 1]], i, j - 1)
    ensures multiset(s[j - 1 := s[j]][j := s[j - 1]]) == multiset(s)
  {
  }

  lemma InsertDone(s: seq<real>, i: nat, j: nat)
    requires Inserting(s, i, j) && (j == 0 || s[j - 1] <= s[j])
    ensures Sorted(s[..i + 1])
  {
    forall k, l | 0 <= k < l <= i
      ensures s[k] <= s[l]
    {
      if l == j && k < j - 1 {
        assert s[k] <= s[j - 1];
      }
    }
  }

  /** `sort_unstable_by(partial_cmp)`: an in-place insertion sort, ascending. */
  method SortAscending(a: array<real>)
    modifies a
    ensures Sorted(a[..])
    ensures multiset(a[..]) == multiset(old(a[..]))
  {
    for i := 0 to a.Length
      invariant Sorted(a[..i])
      invariant multiset(a[..]) == multiset(old(a[..]))
    {
      InsertStart(a[..], i);
      var j := i;
      while j > 0 && a[j - 1] > a[j]
        invariant Inserting(a[..], i, j)
        invariant multiset(a[..]) == multiset(old(a[..]))
      {
        InsertSwap(a[..], i, j);
        a[j - 1], a[j] := a[j], a[j - 1];
        j := j - 1;
      }
      InsertDone(a[..], i, j);
    }
    assert a[..] == a[..a.Length];
  }

  /**
   * The gaps of any sorted arrangement of 0, the draws and 1 form a distribution: the
   * smallest point is 0, the largest is 1, every gap is a step up between two points
   * of [0, 1], and the gaps telescope to 1 - 0.
   */
  lemma GapsIsDistribution(draws: seq<real>, pts: seq<real>)
    requires forall i :: 0 <= i < |draws| ==> 0.0 <= draws[i] <= 1.0
    requires Sorted(pts) && multiset(pts) == multiset([0.0] + draws + [1.0])
    ensures IsDistribution(Gaps(pts), |draws| + 1)
  {
    var points := [0.0] + draws + [1.0];
    assert |pts| == |points| by { assert |multiset(pts)| == |multiset(points)|; }
    var last := |pts| - 1;
    forall x | x in pts
      ensures 0.0 <= x <= 1.0
    {
      assert x in multiset(points);
    }
    assert 0.0 in multiset(pts) && 1.0 in multiset(pts) by {
      assert points[0] == 0.0 && points[|points| - 1] == 1.0;
    }
    assert pts[0] == 0.0 by {
      var z :| 0 <= z < |pts| && pts[z] == 0.0;
      assert pts[0] in pts;
    }
    assert pts[last] == 1.0 by {
      var z :| 0 <= z < |pts| && pts[z] == 1.0;
      assert pts[last] in pts;
    }
    GapsSum(pts);
    forall i | 0 <= i < |draws| + 1
      ensures 0.0 <= Gaps(pts)[i] <= 1.0
    {
      GapsAt(pts, i);
      assert pts[i] in pts && pts[i + 1] in pts;
    }
  }

  /**
   * `RandomEvaluationFunction::evaluate`: 0 is put in front of the draws and 1 behind
   * them, the points are sorted, and the result is their neighbouring differences. For
   * draws in [0, 1] this is a distribution over the `numPlayers` seats, and it is fixed by
   * the draws alone: it is the gaps of the one sorted arrangement of the points.
   */
  method Evaluate(numPlayers: nat, draws: seq<real>, state: GameState) returns (vector: seq<real>)
    requires numPlayers >= 1 && |draws| == numPlayers - 1
    requires forall i :: 0 <= i < |draws| ==> 0.0 <= draws[i] <= 1.0
    ensures IsDistribution(vector, numPlayers)
    ensures forall pts :: Sorted(pts) && multiset(pts) == multiset([0.0] + draws + [1.0]) ==> vector == Gaps(pts)
  {
    var points := [0.0] + draws + [1.0];
    var numbers := new real[|points|](i requires 0 <= i < |points| => points[i]);
    assert numbers[..] == points;
    SortAscending(numbers);
    ghost var pts := numbers[..];

    vector := [];
    for k := 0 to numPlayers
      invariant |vector| == k
      invariant forall i :: 0 <= i < k ==> vector[i] == numbers[i + 1] - numbers[i]
    {
      vector := vector + [numbers[k + 1] - numbers[k]];
    }

    forall i | 0 <= i < numPlayers
      ensures vector[i] == Gaps(pts)[i]
    {
      GapsAt(pts, i);
    }
    GapsIsDistribution(draws, pts);
    forall q | Sorted(q) && multiset(q) == multiset(points)
      ensures vector == Gaps(q)
    {
      SortedUnique(q, pts);
    }
  }
}
