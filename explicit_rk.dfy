// The generic explicit Runge-Kutta step driven by a Butcher tableau (A, b, c):
// stage j evaluates f at y + tau * sum_{i<j} A[j][i] * k_i, and the step adds
// tau * sum_j b[j] * k_j to y.

module ExplicitRK {
  import opened Vectors
  import opened Nonlinear
  import opened TimeStepper

  /** Row r of A has at least r entries, so every entry A[r][i] with i < r exists. */
  predicate LowerDefined(A: seq<seq<real>>)
  {
    forall r :: 0 <= r < |A| ==> r <= |A[r]|
  }

  /** The first m vectors of ks exist and have length n. */
  predicate RowsOfLength(ks: seq<seq<real>>, m: nat, n: nat)
  {
    m <= |ks| && forall i :: 0 <= i < m ==> |ks[i]| == n
  }

  /** y + sum_{i<m} cs[i] * ks[i], accumulated from i = 0 upwards as the
      source's `+=` loops do; the coefficients are tau * A(j, i) or tau * b(j). */
  function WeightedSum(y: seq<real>, cs: seq<real>, ks: seq<seq<real>>, m: nat): (r: seq<real>)
    requires m <= |cs| && RowsOfLength(ks, m, |y|)
    ensures |r| == |y|
    decreases m
  {
    if m == 0 then y else AddScaled(WeightedSum(y, cs, ks, m - 1), cs[m - 1], ks[m - 1])
  }

  /** The first j stage vectors k_0 .. k_{j-1} of a step from y. */
  function Stages(f: seq<real> -> seq<real>, A: seq<seq<real>>, tau: real, y: seq<real>, j: nat)
    : (ks: seq<seq<real>>)
    requires LengthPreserving(f, |y|) && LowerDefined(A) && j <= |A|
    ensures |ks| == j && RowsOfLength(ks, j, |y|)
    decreases j
  {
    if j == 0 then []
    else
      var prev := Stages(f, A, tau, y, j - 1);
      prev + [f(WeightedSum(y, Scale(tau, A[j - 1]), prev, j - 1))]
  }

  /** One step of the scheme with stage matrix A and weights b (|b| stages). */
  function RungeKuttaStep(f: seq<real> -> seq<real>, A: seq<seq<real>>, b: seq<real>, tau: real,
                          y: seq<real>): (r: seq<real>)
    requires LengthPreserving(f, |y|) && LowerDefined(A) && |b| == |A|
    ensures |r| == |y|
  {
    WeightedSum(y, Scale(tau, b), Stages(f, A, tau, y, |b|), |b|)
  }

  // ---------------------------------------------------------------------
  // Properties of the step

  /** A weighted sum reads only the first m coefficients and the first m vectors. */
  lemma {:induction false} WeightedSumPrefix(y: seq<real>, cs: seq<real>, ks: seq<seq<real>>,
                                             cs': seq<real>, ks': seq<seq<real>>, m: nat)
    requires m <= |cs| && m <= |cs'| && m <= |ks'|
    requires RowsOfLength(ks, m, |y|)
    requires cs[..m] == cs'[..m] && ks[..m] == ks'[..m]
    ensures RowsOfLength(ks', m, |y|)
    ensures WeightedSum(y, cs, ks, m) == WeightedSum(y, cs', ks', m)
  {
    if m > 0 {
      assert RowsOfLength(ks', m, |y|) by {
        forall i | 0 <= i < m ensures |ks'[i]| == |y| {
          assert ks[i] == ks[..m][i] == ks'[..m][i] == ks'[i];
        }
      }
      PrefixStep(cs, cs', m);
      PrefixStep(ks, ks', m);
      WeightedSumPrefix(y, cs, ks, cs', ks', m - 1);
    }
  }

  /** Agreement on the first m entries gives agreement on the first m - 1 and at m - 1. */
  lemma PrefixStep<T>(u: seq<T>, v: seq<T>, m: nat)
    requires 0 < m <= |u| && m <= |v| && u[..m] == v[..m]
    ensures u[..m - 1] == v[..m - 1] && u[m - 1] == v[m - 1]
  {
    assert u[..m - 1] == u[..m][..m - 1] && v[..m - 1] == v[..m][..m - 1];
    assert u[m - 1] == u[..m][m - 1] && v[m - 1] == v[..m][m - 1];
  }

  /** Computing more stages does not change the earlier ones. */
  lemma {:induction false} StagesPrefix(f: seq<real> -> seq<real>, A: seq<seq<real>>, tau: real,
                                        y: seq<real>, i: nat, j: nat)
    requires LengthPreserving(f, |y|) && LowerDefined(A) && i <= j <= |A|
    ensures Stages(f, A, tau, y, j)[..i] == Stages(f, A, tau, y, i)
    decreases j
  {
    if i < j {
      StagesPrefix(f, A, tau, y, i, j - 1);
      var prev := Stages(f, A, tau, y, j - 1);
      assert Stages(f, A, tau, y, j)[..i] == prev[..i];
    }
  }

  /** The last of the first i + 1 stages. */
  lemma StageLast(f: seq<real> -> seq<real>, A: seq<seq<real>>, tau: real, y: seq<real>, i: nat)
    requires LengthPreserving(f, |y|) && LowerDefined(A) && i < |A|
    ensures Stages(f, A, tau, y, i + 1)[i] == f(WeightedSum(y, Scale(tau, A[i]), Stages(f, A, tau, y, i), i))
  {
    StagesNext(f, A, tau, y, i);
  }

  /** Stage i is f evaluated at y + tau * sum_{l<i} A[i][l] * k_l. */
  lemma StageAt(f: seq<real> -> seq<real>, A: seq<seq<real>>, tau: real, y: seq<real>, j: nat, i: nat)
    requires LengthPreserving(f, |y|) && LowerDefined(A) && i < j <= |A|
    ensures Stages(f, A, tau, y, j)[i] == f(WeightedSum(y, Scale(tau, A[i]), Stages(f, A, tau, y, j), i))
  {
    var ks := Stages(f, A, tau, y, j);
    var prev := Stages(f, A, tau, y, i);
    var cs := Scale(tau, A[i]);
    assert ks[i] == f(WeightedSum(y, cs, prev, i)) by {
      StageLast(f, A, tau, y, i);
      StagesPrefix(f, A, tau, y, i + 1, j);
      assert ks[i] == ks[..i + 1][i];
    }
    assert WeightedSum(y, cs, prev, i) == WeightedSum(y, cs, ks, i) by {
      StagesPrefix(f, A, tau, y, i, j);
      assert prev[..i] == ks[..i];
      WeightedSumPrefix(y, cs, prev, cs, ks, i);
    }
  }

  /** Scaling keeps agreement on a prefix. */
  lemma ScalePrefix(tau: real, u: seq<real>, v: seq<real>, m: nat)
    requires m <= |u| && m <= |v| && u[..m] == v[..m]
    ensures Scale(tau, u)[..m] == Scale(tau, v)[..m]
  {
    forall i | 0 <= i < m ensures Scale(tau, u)[i] == Scale(tau, v)[i] {
      assert u[i] == u[..m][i] == v[..m][i] == v[i];
    }
  }

  /** Entries A[j][i] with i >= j are never read: two stage matrices that agree
      strictly below the diagonal give the same stages. */
  lemma {:induction false} StagesReadStrictlyLower(f: seq<real> -> seq<real>, A: seq<seq<real>>,
                                                   A': seq<seq<real>>, tau: real, y: seq<real>, j: nat)
    requires LengthPreserving(f, |y|) && LowerDefined(A) && LowerDefined(A') && j <= |A| == |A'|
    requires forall r :: 0 <= r < |A| ==> A[r][..r] == A'[r][..r]
    ensures Stages(f, A, tau, y, j) == Stages(f, A', tau, y, j)
    decreases j
  {
    if j > 0 {
      StagesReadStrictlyLower(f, A, A', tau, y, j - 1);
      var prev := Stages(f, A, tau, y, j - 1);
      ScalePrefix(tau, A[j - 1], A'[j - 1], j - 1);
      WeightedSumPrefix(y, Scale(tau, A[j - 1]), prev, Scale(tau, A'[j - 1]), prev, j - 1);
    }
  }

  /** The step reads only the strictly lower part of A (and b). */
  lemma RungeKuttaReadsStrictlyLower(f: seq<real> -> seq<real>, A: seq<seq<real>>, A': seq<seq<real>>,
                                     b: seq<real>, tau: real, y: seq<real>)
    requires LengthPreserving(f, |y|) && LowerDefined(A) && LowerDefined(A') && |b| == |A| == |A'|
    requires forall r :: 0 <= r < |A| ==> A[r][..r] == A'[r][..r]
    ensures RungeKuttaStep(f, A, b, tau, y) == RungeKuttaStep(f, A', b, tau, y)
  {
    StagesReadStrictlyLower(f, A, A', tau, y, |b|);
  }

  /** With all coefficients zero nothing is added. */
  lemma {:induction false} WeightedSumZero(y: seq<real>, cs: seq<real>, ks: seq<seq<real>>, m: nat)
    requires m <= |cs| && RowsOfLength(ks, m, |y|)
    requires forall i :: 0 <= i < m ==> cs[i] == 0.0
    ensures WeightedSum(y, cs, ks, m) == y
  {
    if m > 0 {
      WeightedSumZero(y, cs, ks, m - 1);
      assert AddScaled(y, 0.0, ks[m - 1]) == y;
    }
  }

  /** A Runge-Kutta step of size zero leaves y unchanged. */
  lemma RungeKuttaZeroStep(f: seq<real> -> seq<real>, A: seq<seq<real>>, b: seq<real>, y: seq<real>)
    requires LengthPreserving(f, |y|) && LowerDefined(A) && |b| == |A|
    ensures RungeKuttaStep(f, A, b, 0.0, y) == y
  {
    WeightedSumZero(y, Scale(0.0, b), Stages(f, A, 0.0, y, |b|), |b|);
  }

  /** The one-stage tableau b = [1] is explicit Euler, whatever A[0][0] holds. */
  lemma OneStageIsExplicitEuler(f: seq<real> -> seq<real>, a00: real, tau: real, y: seq<real>)
    requires LengthPreserving(f, |y|)
    ensures LowerDefined([[a00]])
    ensures RungeKuttaStep(f, [[a00]], [1.0], tau, y) == EulerStep(f, tau, y)
  {
    var ks := Stages(f, [[a00]], tau, y, 1);
    assert ks == [f(y)];
    assert Scale(tau, [1.0])[0] == tau;
    assert RungeKuttaStep(f, [[a00]], [1.0], tau, y) == AddScaled(y, tau, f(y));
  }

  /** The two-stage tableau A[1][0] = 1/2, b = [0, 1] is improved Euler; the
      other entries of A are never read. */
  lemma MidpointIsImprovedEuler(f: seq<real> -> seq<real>, A: seq<seq<real>>, tau: real, y: seq<real>)
    requires LengthPreserving(f, |y|)
    requires |A| == 2 && |A[0]| == 2 && |A[1]| == 2 && A[1][0] == 0.5
    ensures LowerDefined(A)
    ensures RungeKuttaStep(f, A, [0.0, 1.0], tau, y) == ImprovedEulerStep(f, tau, y)
  {
    var b := [0.0, 1.0];
    var k0 := f(y);
    assert Stages(f, A, tau, y, 1) == [k0];
    var mid := WeightedSum(y, Scale(tau, A[1]), [k0], 1);
    assert Scale(tau, A[1])[0] == 0.5 * tau;
    assert mid == AddScaled(y, 0.5 * tau, k0);
    assert mid == MidState(f, tau, y);
    var ks := Stages(f, A, tau, y, 2);
    assert ks == [k0, f(mid)];
    var cs := Scale(tau, b);
    assert cs[0] == 0.0 && cs[1] == tau;
    assert WeightedSum(y, cs, ks, 1) == AddScaled(y, 0.0, k0) == y;
    assert RungeKuttaStep(f, A, b, tau, y) == AddScaled(y, tau, f(mid));
  }

  /** Appending the next stage: k_j is f at the weighted sum of the earlier ones. */
  lemma StagesNext(f: seq<real> -> seq<real>, A: seq<seq<real>>, tau: real, y: seq<real>, j: nat)
    requires LengthPreserving(f, |y|) && LowerDefined(A) && j < |A|
    ensures Stages(f, A, tau, y, j + 1)
         == Stages(f, A, tau, y, j) + [f(WeightedSum(y, Scale(tau, A[j]), Stages(f, A, tau, y, j), j))]
  {
  }

  // ---------------------------------------------------------------------
  // The stepper

  /** ExplicitRungeKutta: the tableau is copied in, and the stage count s is
      the length of c. */
  class ExplicitRungeKutta {
    const rhs: NonlinearFunction
    const A: seq<seq<real>>
    const b: seq<real>
    const c: seq<real>
    const s: nat

    constructor (rhs: NonlinearFunction, A: seq<seq<real>>, b: seq<real>, c: seq<real>)
      ensures this.rhs == rhs && this.A == A && this.b == b && this.c == c
      ensures s == |c|
    {
      this.rhs, this.A, this.b, this.c := rhs, A, b, c;
      s := |c|;
    }

    /** The tableau sizes the step relies on: A is s x s and b has s entries. */
    predicate ConsistentSizes()
    {
      |A| == s && |b| == s && forall j :: 0 <= j < s ==> |A[j]| == s
    }

    /** One step: the stage loop fills k[j] from a copy ytemp of y, then the
        weighted stages are added to y in place. The factors tau * A(j, i) and
        tau * b(j) are taken from the scaled rows Scale(tau, A[j]) and
        Scale(tau, b), which hold the same values. */
    method DoStep(tau: real, y: array<real>)
      requires ConsistentSizes()
      requires rhs.Valid() && rhs.dimX == rhs.dimF == y.Length
      modifies y
      ensures LengthPreserving(rhs.eval, y.Length) && LowerDefined(A)
      ensures y[..] == RungeKuttaStep(rhs.eval, A, b, tau, old(y[..]))
    {
      ghost var y0 := y[..];
      var f := rhs.eval;
      assert LengthPreserving(f, y.Length);
      var n := y.Length;
      var k := new seq<real>[s](_ => Zeros(n));
      var ytemp := new real[n];
      for j := 0 to s
        modifies k, ytemp
        invariant y[..] == y0
        invariant k[..j] == Stages(f, A, tau, y0, j)
      {
        ghost var prev := k[..j];
        Assign(ytemp, y[..]);
        assert ytemp[..] == y0;
        AccumulateInPlace(ytemp, Scale(tau, A[j]), k[..j], j);
        ghost var input := ytemp[..];
        assert input == WeightedSum(y0, Scale(tau, A[j]), prev, j);
        k[j] := f(ytemp[..]);
        assert k[..j + 1] == prev + [f(input)];
        StagesNext(f, A, tau, y0, j);
      }
      assert y[..] == y0;
      ghost var ks := k[..];
      assert ks == Stages(f, A, tau, y0, s) by {
        assert ks == k[..s];
      }
      AccumulateInPlace(y, Scale(tau, b), k[..], s);
      assert y[..] == WeightedSum(y0, Scale(tau, b), ks, s);
    }
  }

  /** The source's `acc += cs[i] * ks[i]` loop over i < m. */
  method AccumulateInPlace(acc: array<real>, cs: seq<real>, ks: seq<seq<real>>, m: nat)
    requires m <= |cs| && RowsOfLength(ks, m, acc.Length)
    modifies acc
    ensures acc[..] == WeightedSum(old(acc[..]), cs, ks, m)
  {
    ghost var a0 := acc[..];
    for i := 0 to m
      invariant acc[..] == WeightedSum(a0, cs, ks, i)
    {
      AddScaledInPlace(acc, cs[i], ks[i]);
    }
  }
}
