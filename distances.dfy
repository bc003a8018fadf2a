// All-pairs shortest paths over the direct-distance matrix: the phase-by-phase
// Floyd-Warshall relaxation (src/logic.py:60-69) as functions, with its properties.

module Distances {

  type Matrix = seq<seq<real>>

  predicate IsSquare(d: Matrix)
  {
    forall i :: 0 <= i < |d| ==> |d[i]| == |d|
  }

  predicate NonNegative(d: Matrix)
    requires IsSquare(d)
  {
    forall i, j :: 0 <= i < |d| && 0 <= j < |d| ==> d[i][j] >= 0.0
  }

  predicate ZeroDiagonal(d: Matrix)
    requires IsSquare(d)
  {
    forall i :: 0 <= i < |d| ==> d[i][i] == 0.0
  }

  /** Distance from i to j equals distance from j to i. */
  predicate Symmetric(d: Matrix)
    requires IsSquare(d)
  {
    forall i, j :: 0 <= i < |d| && 0 <= j < |d| ==> d[i][j] == d[j][i]
  }

  /** Every entry is at most the detour through m. */
  predicate TriangleThrough(d: Matrix, m: nat)
    requires IsSquare(d) && m < |d|
  {
    forall i, j :: 0 <= i < |d| && 0 <= j < |d| ==> d[i][j] <= d[i][m] + d[m][j]
  }

  /** `d[i][j]` after relaxing it through the intermediate node `k`. */
  function RelaxAt(d: Matrix, k: nat, i: nat, j: nat): real
    requires IsSquare(d) && k < |d| && i < |d| && j < |d|
  {
    if d[i][j] > d[i][k] + d[k][j] then d[i][k] + d[k][j] else d[i][j]
  }

  /** One phase of the outer loop: every pair relaxed through k. */
  function Relax(d: Matrix, k: nat): (r: Matrix)
    requires IsSquare(d) && k < |d|
    ensures IsSquare(r) && |r| == |d|
    ensures forall i, j :: 0 <= i < |d| && 0 <= j < |d| ==> r[i][j] == RelaxAt(d, k, i, j)
  {
    seq(|d|, i requires 0 <= i < |d| => seq(|d|, j requires 0 <= j < |d| => RelaxAt(d, k, i, j)))
  }

  /** The matrix after phases 0 .. k-1 of the outer loop. */
  function FloydWarshallUpTo(d: Matrix, k: nat): (r: Matrix)
    requires IsSquare(d) && k <= |d|
    ensures IsSquare(r) && |r| == |d|
    decreases k
  {
    if k == 0 then d else Relax(FloydWarshallUpTo(d, k - 1), k - 1)
  }

  function FloydWarshall(d: Matrix): (r: Matrix)
    requires IsSquare(d)
    ensures IsSquare(r) && |r| == |d|
  {
    FloydWarshallUpTo(d, |d|)
  }

  /** With non-negative entries, phase k leaves row k and column k as they were. */
  lemma RelaxKeepsPivot(d: Matrix, k: nat)
    requires IsSquare(d) && k < |d| && NonNegative(d)
    ensures forall i :: 0 <= i < |d| ==> Relax(d, k)[i][k] == d[i][k] && Relax(d, k)[k][i] == d[k][i]
  {
  }

  lemma {:induction false} FloydWarshallNonNegative(d: Matrix, k: nat)
    requires IsSquare(d) && k <= |d| && NonNegative(d)
    ensures NonNegative(FloydWarshallUpTo(d, k))
    decreases k
  {
    if k > 0 {
      FloydWarshallNonNegative(d, k - 1);
    }
  }

  /** Relaxation only ever shortens: every output entry is at most the direct entry. */
  lemma {:induction false} FloydWarshallBelowDirect(d: Matrix, k: nat)
    requires IsSquare(d) && k <= |d|
    ensures forall i, j :: 0 <= i < |d| && 0 <= j < |d| ==> FloydWarshallUpTo(d, k)[i][j] <= d[i][j]
    decreases k
  {
    if k > 0 {
      FloydWarshallBelowDirect(d, k - 1);
    }
  }

  /** A zero diagonal survives every phase when no entry is negative. */
  lemma {:induction false} FloydWarshallZeroDiagonal(d: Matrix, k: nat)
    requires IsSquare(d) && k <= |d| && NonNegative(d) && ZeroDiagonal(d)
    ensures ZeroDiagonal(FloydWarshallUpTo(d, k))
    decreases k
  {
    if k > 0 {
      FloydWarshallZeroDiagonal(d, k - 1);
      FloydWarshallNonNegative(d, k - 1);
    }
  }

  /** After phases 0 .. k-1, no path through an intermediate below k is shorter than an entry. */
  lemma {:induction false} FloydWarshallTriangleUpTo(d: Matrix, k: nat)
    requires IsSquare(d) && k <= |d| && NonNegative(d)
    ensures forall m :: 0 <= m < k ==> TriangleThrough(FloydWarshallUpTo(d, k), m)
    decreases k
  {
    if k > 0 {
      var p := FloydWarshallUpTo(d, k - 1);
      var r := FloydWarshallUpTo(d, k);
      var n := |d|;
      FloydWarshallTriangleUpTo(d, k - 1);
      FloydWarshallNonNegative(d, k - 1);
      RelaxKeepsPivot(p, k - 1);
      forall m | 0 <= m < k
        ensures TriangleThrough(r, m)
      {
        forall i, j | 0 <= i < n && 0 <= j < n
          ensures r[i][j] <= r[i][m] + r[m][j]
        {
          RelaxStepTriangle(p, k - 1, m, i, j);
        }
      }
    }
  }

  /** One phase through k keeps the detour bound through an earlier m and adds it through k. */
  lemma RelaxStepTriangle(p: Matrix, k: nat, m: nat, i: nat, j: nat)
    requires IsSquare(p) && k < |p| && NonNegative(p)
    requires m <= k && i < |p| && j < |p|
    requires m < k ==> TriangleThrough(p, m)
    ensures Relax(p, k)[i][j] <= Relax(p, k)[i][m] + Relax(p, k)[m][j]
  {
    var r := Relax(p, k);
    RelaxKeepsPivot(p, k);
    if m < k {
      assert p[k][j] <= p[k][m] + p[m][j];
      assert p[i][k] <= p[i][m] + p[m][k];
      assert p[k][k] <= p[k][m] + p[m][k];
    }
  }

  /** The Floyd-Warshall postcondition: the result satisfies the triangle inequality everywhere. */
  lemma FloydWarshallTriangle(d: Matrix)
    requires IsSquare(d) && NonNegative(d)
    ensures forall m :: 0 <= m < |d| ==> TriangleThrough(FloydWarshall(d), m)
  {
    FloydWarshallTriangleUpTo(d, |d|);
  }

  /** A symmetric direct-distance matrix gives symmetric shortest paths after every phase. */
  lemma {:induction false} FloydWarshallSymmetric(d: Matrix, k: nat)
    requires IsSquare(d) && k <= |d| && Symmetric(d)
    ensures Symmetric(FloydWarshallUpTo(d, k))
    decreases k
  {
    if k > 0 {
      FloydWarshallSymmetric(d, k - 1);
    }
  }

  /** A matrix that already satisfies the triangle inequality (a complete Euclidean graph) is a fixpoint. */
  lemma {:induction false} FloydWarshallKeepsMetric(d: Matrix, k: nat)
    requires IsSquare(d) && k <= |d|
    requires forall m :: 0 <= m < |d| ==> TriangleThrough(d, m)
    ensures FloydWarshallUpTo(d, k) == d
    decreases k
  {
    if k > 0 {
      FloydWarshallKeepsMetric(d, k - 1);
      var r := Relax(d, k - 1);
      assert |r| == |d|;
      forall i | 0 <= i < |d|
        ensures r[i] == d[i]
      {
        assert TriangleThrough(d, k - 1);
      }
    }
  }
}
