// The one-step schemes of the time-stepper family: explicit Euler, improved
// Euler, implicit Euler and Crank-Nicolson. Each scheme has a pure step (or,
// for the implicit ones, the residual whose root is the next state) and a class
// whose DoStep updates the state buffer y in place through the same scratch
// buffers and leaves the source uses.

module TimeStepper {
  import opened Vectors
  import opened Nonlinear

  // ---------------------------------------------------------------------
  // The schemes as functions of the incoming state

  /** Explicit Euler: y + tau * f(y). */
  function EulerStep(f: seq<real> -> seq<real>, tau: real, y: seq<real>): (r: seq<real>)
    requires |f(y)| == |y|
    ensures |r| == |y| && forall i :: 0 <= i < |y| ==> r[i] == y[i] + tau * f(y)[i]
  {
    AddScaled(y, tau, f(y))
  }

  /** The intermediate state of improved Euler: y + (tau / 2) * f(y). */
  function MidState(f: seq<real> -> seq<real>, tau: real, y: seq<real>): (r: seq<real>)
    requires |f(y)| == |y|
    ensures |r| == |y| && forall i :: 0 <= i < |y| ==> r[i] == y[i] + (0.5 * tau) * f(y)[i]
  {
    AddScaled(y, 0.5 * tau, f(y))
  }

  /** Improved Euler: y + tau * f(y + (tau / 2) * f(y)). */
  function ImprovedEulerStep(f: seq<real> -> seq<real>, tau: real, y: seq<real>): (r: seq<real>)
    requires LengthPreserving(f, |y|)
    ensures |r| == |y| && |MidState(f, tau, y)| == |y|
    ensures forall i :: 0 <= i < |y| ==> r[i] == y[i] + tau * f(MidState(f, tau, y))[i]
  {
    AddScaled(y, tau, f(MidState(f, tau, y)))
  }

  /** The residual of implicit Euler, `ynew - m_yold - m_tau * m_rhs`: z - yn - tau * f(z). */
  function ImplicitEulerResidual(f: seq<real> -> seq<real>, yn: seq<real>, tau: real, z: seq<real>)
    : (g: seq<real>)
    requires |z| == |yn| == |f(z)|
    ensures |g| == |z| && forall i :: 0 <= i < |z| ==> g[i] == z[i] - yn[i] - tau * f(z)[i]
  {
    Sub(Sub(z, yn), Scale(tau, f(z)))
  }

  /** The trapezoidal average of f at the new state and the frozen f(y_n). */
  function Trapezoid(fz: seq<real>, fn: seq<real>): (r: seq<real>)
    requires |fz| == |fn|
    ensures |r| == |fz| && forall i :: 0 <= i < |fz| ==> r[i] == 0.5 * fz[i] + 0.5 * fn[i]
  {
    Add(Scale(0.5, fz), Scale(0.5, fn))
  }

  /** The residual of Crank-Nicolson, `ynew - m_yold - m_tau * (0.5 * m_rhs + 0.5 * m_fold)`:
      z - yn - tau * (0.5 * f(z) + 0.5 * fn). */
  function CrankNicolsonResidual(f: seq<real> -> seq<real>, yn: seq<real>, fn: seq<real>, tau: real,
                                 z: seq<real>): (g: seq<real>)
    requires |z| == |yn| == |fn| == |f(z)|
    ensures |g| == |z|
    ensures forall i :: 0 <= i < |z| ==> g[i] == z[i] - yn[i] - tau * (0.5 * f(z)[i] + 0.5 * fn[i])
  {
    Sub(Sub(z, yn), Scale(tau, Trapezoid(f(z), fn)))
  }

  // ---------------------------------------------------------------------
  // What the schemes satisfy

  /** A step of size zero leaves the state of explicit Euler unchanged. */
  lemma EulerZeroStep(f: seq<real> -> seq<real>, y: seq<real>)
    requires |f(y)| == |y|
    ensures EulerStep(f, 0.0, y) == y
  {
  }

  /** A step of size zero leaves the state of improved Euler unchanged. */
  lemma ImprovedEulerZeroStep(f: seq<real> -> seq<real>, y: seq<real>)
    requires LengthPreserving(f, |y|)
    ensures ImprovedEulerStep(f, 0.0, y) == y
  {
    assert MidState(f, 0.0, y) == y;
  }

  /** The roots of the implicit Euler residual are exactly the states z with
      z = yn + tau * f(z). */
  lemma ImplicitEulerRoot(f: seq<real> -> seq<real>, yn: seq<real>, tau: real, z: seq<real>)
    requires |z| == |yn| == |f(z)|
    ensures ImplicitEulerResidual(f, yn, tau, z) == Zeros(|z|) <==> z == AddScaled(yn, tau, f(z))
  {
    var g, u := ImplicitEulerResidual(f, yn, tau, z), AddScaled(yn, tau, f(z));
    if g == Zeros(|z|) {
      forall i | 0 <= i < |z| ensures z[i] == u[i] {
        assert g[i] == z[i] - yn[i] - tau * f(z)[i] == 0.0;
      }
    }
    if z == u {
      forall i | 0 <= i < |z| ensures g[i] == 0.0 {
        assert z[i] == yn[i] + tau * f(z)[i];
      }
    }
  }

  /** The roots of the Crank-Nicolson residual are exactly the states z with
      z = yn + tau * (0.5 * f(z) + 0.5 * fn). */
  lemma CrankNicolsonRoot(f: seq<real> -> seq<real>, yn: seq<real>, fn: seq<real>, tau: real, z: seq<real>)
    requires |z| == |yn| == |fn| == |f(z)|
    ensures CrankNicolsonResidual(f, yn, fn, tau, z) == Zeros(|z|)
            <==> z == AddScaled(yn, tau, Trapezoid(f(z), fn))
  {
    var g, u := CrankNicolsonResidual(f, yn, fn, tau, z), AddScaled(yn, tau, Trapezoid(f(z), fn));
    var t := Trapezoid(f(z), fn);
    if g == Zeros(|z|) {
      forall i | 0 <= i < |z| ensures z[i] == u[i] {
        assert g[i] == z[i] - yn[i] - tau * t[i] == 0.0;
      }
    }
    if z == u {
      forall i | 0 <= i < |z| ensures g[i] == 0.0 {
        assert z[i] == yn[i] + tau * t[i];
      }
    }
  }

  // ---------------------------------------------------------------------
  // The scalar test equation y' = lambda * y

  /** The linear right-hand side f(y) = lambda * y. */
  function Linear(lambda: real): seq<real> -> seq<real>
  {
    y => Scale(lambda, y)
  }

  function Pow(x: real, n: nat): real
  {
    if n == 0 then 1.0 else Pow(x, n - 1) * x
  }

  /** N explicit Euler steps of size tau from y0. */
  function EulerSteps(f: seq<real> -> seq<real>, tau: real, y0: seq<real>, n: nat): (r: seq<real>)
    requires LengthPreserving(f, |y0|)
    ensures |r| == |y0|
  {
    if n == 0 then y0 else EulerStep(f, tau, EulerSteps(f, tau, y0, n - 1))
  }

  lemma EulerFactor(p: real, lambda: real, tau: real, v: real, y: real, fy: real)
    requires y == p * v && fy == lambda * y
    ensures y + tau * fy == (p * (1.0 + lambda * tau)) * v
  {
  }

  /** One explicit Euler step on y' = lambda * y multiplies the state by 1 + lambda * tau. */
  lemma EulerLinearStep(lambda: real, tau: real, p: real, y0: seq<real>)
    ensures EulerStep(Linear(lambda), tau, Scale(p, y0)) == Scale(p * (1.0 + lambda * tau), y0)
  {
    var y := Scale(p, y0);
    var fy := Linear(lambda)(y);
    var next := EulerStep(Linear(lambda), tau, y);
    var q := p * (1.0 + lambda * tau);
    forall i | 0 <= i < |y0| ensures next[i] == q * y0[i] {
      EulerFactor(p, lambda, tau, y0[i], y[i], fy[i]);
    }
    assert |next| == |Scale(q, y0)|;
    assert forall i :: 0 <= i < |y0| ==> next[i] == Scale(q, y0)[i];
    assert next == Scale(q, y0);
  }

  /** Explicit Euler on y' = lambda * y: n steps give y0 * (1 + lambda * tau)^n. */
  lemma {:induction false} EulerLinear(lambda: real, tau: real, y0: seq<real>, n: nat)
    ensures LengthPreserving(Linear(lambda), |y0|)
    ensures EulerSteps(Linear(lambda), tau, y0, n) == Scale(Pow(1.0 + lambda * tau, n), y0)
  {
    var f := Linear(lambda);
    assert LengthPreserving(f, |y0|) by {
      forall x: seq<real> | |x| == |y0| ensures |f(x)| == |y0| {
      }
    }
    if n == 0 {
      assert Scale(1.0, y0) == y0;
    } else {
      var p := Pow(1.0 + lambda * tau, n - 1);
      EulerLinear(lambda, tau, y0, n - 1);
      EulerLinearStep(lambda, tau, p, y0);
      assert EulerSteps(f, tau, y0, n) == EulerStep(f, tau, Scale(p, y0));
      assert Pow(1.0 + lambda * tau, n) == p * (1.0 + lambda * tau);
    }
  }

  lemma ImplicitFactor(lambda: real, tau: real, zi: real, yi: real)
    requires 1.0 - lambda * tau != 0.0
    ensures zi - yi - tau * (lambda * zi) == 0.0 <==> zi == (1.0 / (1.0 - lambda * tau)) * yi
  {
    var d := 1.0 - lambda * tau;
    assert zi - yi - tau * (lambda * zi) == d * zi - yi;
    if d * zi == yi {
      assert zi == (1.0 / d) * (d * zi);
    }
  }

  /** Implicit Euler on y' = lambda * y: the step's root is yn / (1 - lambda * tau),
      whenever 1 - lambda * tau is not zero. */
  lemma ImplicitEulerLinear(lambda: real, tau: real, yn: seq<real>, z: seq<real>)
    requires |z| == |yn| && 1.0 - lambda * tau != 0.0
    ensures |Linear(lambda)(z)| == |z|
    ensures ImplicitEulerResidual(Linear(lambda), yn, tau, z) == Zeros(|z|)
            <==> z == Scale(1.0 / (1.0 - lambda * tau), yn)
  {
    var g := ImplicitEulerResidual(Linear(lambda), yn, tau, z);
    var q := Scale(1.0 / (1.0 - lambda * tau), yn);
    forall i | 0 <= i < |z| ensures g[i] == 0.0 <==> z[i] == q[i] {
      assert g[i] == z[i] - yn[i] - tau * (lambda * z[i]);
      ImplicitFactor(lambda, tau, z[i], yn[i]);
    }
    if g == Zeros(|z|) {
      assert forall i :: 0 <= i < |z| ==> z[i] == q[i];
    }
    if z == q {
      assert forall i :: 0 <= i < |z| ==> g[i] == 0.0;
    }
  }

  /** z is the implicit Euler successor of yn on y' = lambda * y: a root of the step's residual. */
  ghost predicate LinearImplicitEulerStep(lambda: real, tau: real, yn: seq<real>, z: seq<real>)
  {
    |z| == |yn| && |Linear(lambda)(z)| == |z| &&
    ImplicitEulerResidual(Linear(lambda), yn, tau, z) == Zeros(|z|)
  }

  /** Implicit Euler on y' = lambda * y: if every step of a trajectory lands on
      the root of its residual, n steps give y0 / (1 - lambda * tau)^n. */
  lemma {:induction false} ImplicitEulerLinearSteps(lambda: real, tau: real, ys: seq<seq<real>>)
    requires |ys| > 0 && 1.0 - lambda * tau != 0.0
    requires forall i, j :: 0 <= i && j == i + 1 && j < |ys| ==>
               LinearImplicitEulerStep(lambda, tau, ys[i], ys[j])
    ensures ys[|ys| - 1] == Scale(Pow(1.0 / (1.0 - lambda * tau), |ys| - 1), ys[0])
  {
    var n := |ys| - 1;
    if n == 0 {
      assert Scale(1.0, ys[0]) == ys[0];
    } else {
      var r := 1.0 / (1.0 - lambda * tau);
      var p := Pow(r, n - 1);
      var prefix := ys[..n];
      assert forall i, j :: 0 <= i && j == i + 1 && j < |prefix| ==>
               LinearImplicitEulerStep(lambda, tau, prefix[i], prefix[j]);
      ImplicitEulerLinearSteps(lambda, tau, prefix);
      assert ys[n - 1] == Scale(p, ys[0]);
      assert LinearImplicitEulerStep(lambda, tau, ys[n - 1], ys[n]);
      ImplicitEulerLinear(lambda, tau, ys[n - 1], ys[n]);
      assert ys[n] == Scale(r, Scale(p, ys[0]));
      ScaleScale(r, p, ys[0]);
      assert Pow(r, n) == p * r;
    }
  }

  lemma CrankNicolsonFactor(lambda: real, tau: real, zi: real, yi: real)
    requires 1.0 - 0.5 * lambda * tau != 0.0
    ensures zi - yi - tau * (0.5 * (lambda * zi) + 0.5 * (lambda * yi)) == 0.0
            <==> zi == ((1.0 + 0.5 * lambda * tau) / (1.0 - 0.5 * lambda * tau)) * yi
  {
    var d, e := 1.0 - 0.5 * lambda * tau, 1.0 + 0.5 * lambda * tau;
    assert zi - yi - tau * (0.5 * (lambda * zi) + 0.5 * (lambda * yi)) == d * zi - e * yi;
    if d * zi == e * yi {
      assert zi == (1.0 / d) * (d * zi);
    }
  }

  /** Crank-Nicolson on y' = lambda * y, with f(y_n) frozen at lambda * yn: the
      step's root is yn * (1 + lambda * tau / 2) / (1 - lambda * tau / 2). */
  lemma CrankNicolsonLinear(lambda: real, tau: real, yn: seq<real>, z: seq<real>)
    requires |z| == |yn| && 1.0 - 0.5 * lambda * tau != 0.0
    ensures |Linear(lambda)(z)| == |z| && |Linear(lambda)(yn)| == |yn|
    ensures CrankNicolsonResidual(Linear(lambda), yn, Linear(lambda)(yn), tau, z) == Zeros(|z|)
            <==> z == Scale((1.0 + 0.5 * lambda * tau) / (1.0 - 0.5 * lambda * tau), yn)
  {
    var f := Linear(lambda);
    var g := CrankNicolsonResidual(f, yn, f(yn), tau, z);
    var q := Scale((1.0 + 0.5 * lambda * tau) / (1.0 - 0.5 * lambda * tau), yn);
    forall i | 0 <= i < |z| ensures g[i] == 0.0 <==> z[i] == q[i] {
      assert Trapezoid(f(z), f(yn))[i] == 0.5 * (lambda * z[i]) + 0.5 * (lambda * yn[i]);
      CrankNicolsonFactor(lambda, tau, z[i], yn[i]);
    }
    if g == Zeros(|z|) {
      assert forall i :: 0 <= i < |z| ==> z[i] == q[i];
    }
    if z == q {
      assert forall i :: 0 <= i < |z| ==> g[i] == 0.0;
    }
  }

  // ---------------------------------------------------------------------
  // The steppers

  /** ExplicitEuler: m_vecf, sized dimF, receives f(y). */
  class ExplicitEuler {
    const rhs: NonlinearFunction
    const vecf: array<real>

    /** m_vecf is sized from the right-hand side. */
    ghost predicate Valid()
    {
      vecf.Length == rhs.dimF
    }

    constructor (rhs: NonlinearFunction)
      ensures Valid() && this.rhs == rhs && fresh(vecf)
    {
      this.rhs := rhs;
      vecf := new real[rhs.dimF];
    }

    /** y += tau * f(y). m_vecf is private, so y is never m_vecf. */
    method DoStep(tau: real, y: array<real>)
      requires Valid() && rhs.Valid() && rhs.dimX == rhs.dimF == y.Length
      requires y != vecf
      modifies y, vecf
      ensures y[..] == EulerStep(rhs.eval, tau, old(y[..]))
      ensures vecf[..] == rhs.eval(old(y[..]))
    {
      Evaluate(rhs, y, vecf);
      AddScaledInPlace(y, tau, vecf[..]);
    }
  }

  /** ImprovedEuler: m_vecf (size dimF) holds f(y), then f(ytilde); m_ytilde
      (size dimX) holds the intermediate state. */
  class ImprovedEuler {
    const rhs: NonlinearFunction
    const vecf: array<real>
    const ytilde: array<real>

    /** The scratch buffers are sized from the right-hand side and distinct. */
    ghost predicate Valid()
    {
      vecf.Length == rhs.dimF && ytilde.Length == rhs.dimX && vecf != ytilde
    }

    constructor (rhs: NonlinearFunction)
      ensures Valid() && this.rhs == rhs && fresh(vecf) && fresh(ytilde)
    {
      this.rhs := rhs;
      vecf := new real[rhs.dimF];
      ytilde := new real[rhs.dimX];
    }

    method DoStep(tau: real, y: array<real>)
      requires Valid() && rhs.Valid() && rhs.dimX == rhs.dimF == y.Length
      requires y != vecf && y != ytilde
      modifies y, vecf, ytilde
      ensures y[..] == ImprovedEulerStep(rhs.eval, tau, old(y[..]))
      ensures ytilde[..] == MidState(rhs.eval, tau, old(y[..]))
      ensures vecf[..] == rhs.eval(ytilde[..])
    {
      assert LengthPreserving(rhs.eval, y.Length);
      Evaluate(rhs, y, vecf);                  // 1) f(y_n)
      Assign(ytilde, y[..]);                   // 2) y_tilde = y_n + (tau/2) f(y_n)
      AddScaledInPlace(ytilde, 0.5 * tau, vecf[..]);
      Evaluate(rhs, ytilde, vecf);             // 3) f(y_tilde)
      AddScaledInPlace(y, tau, vecf[..]);      // 4) y_{n+1} = y_n + tau f(y_tilde)
    }
  }

  /** ImplicitEuler: the leaves m_yold and m_tau of the equation
      `ynew - m_yold - m_tau * m_rhs`, built once, re-armed by every step. */
  class ImplicitEuler {
    const rhs: NonlinearFunction
    var yold: seq<real>
    var tauLeaf: real

    constructor (rhs: NonlinearFunction)
      ensures this.rhs == rhs && yold == Zeros(rhs.dimX) && tauLeaf == 0.0
    {
      this.rhs := rhs;
      yold := Zeros(rhs.dimX);
      tauLeaf := 0.0;
    }

    /** The equation graph, read at the current values of its leaves. */
    function Equation(): (equ: seq<real> --> seq<real>)
      reads this
      ensures forall z :: |z| == |yold| && |rhs.eval(z)| == |yold| ==>
                equ.requires(z) && equ(z) == ImplicitEulerResidual(rhs.eval, yold, tauLeaf, z)
    {
      var f, yn, t := rhs.eval, yold, tauLeaf;
      z requires |z| == |yn| && |f(z)| == |yn| => ImplicitEulerResidual(f, yn, t, z)
    }

    /** Re-arms y_n := y and tau, then solves the equation in place from y. */
    method DoStep(tau: real, y: array<real>, newton: NewtonSolver) returns (outcome: SolveOutcome)
      requires rhs.Valid() && rhs.dimX == rhs.dimF == y.Length && newton.Valid()
      modifies this, y
      ensures yold == old(y[..]) && tauLeaf == tau
      ensures outcome.Converged? ==>
                ImplicitEulerResidual(rhs.eval, old(y[..]), tau, y[..]) == Zeros(y.Length)
      ensures outcome.Converged? ==> y[..] == AddScaled(old(y[..]), tau, rhs.eval(y[..]))
    {
      yold := y[..];
      tauLeaf := tau;
      var equ := Equation();
      outcome := Solve(newton, equ, y);
      if outcome.Converged? {
        assert equ(y[..]) == ImplicitEulerResidual(rhs.eval, yold, tau, y[..]);
        ImplicitEulerRoot(rhs.eval, yold, tau, y[..]);
      }
    }
  }

  /** CrankNicolson: the leaves m_yold, m_fold and m_tau of the equation
      `ynew - m_yold - m_tau * (0.5 * m_rhs + 0.5 * m_fold)`. */
  class CrankNicolson {
    const rhs: NonlinearFunction
    var yold: seq<real>
    var fold: seq<real>
    var tauLeaf: real

    constructor (rhs: NonlinearFunction)
      ensures this.rhs == rhs && yold == Zeros(rhs.dimX) && fold == Zeros(rhs.dimF) && tauLeaf == 0.0
    {
      this.rhs := rhs;
      yold := Zeros(rhs.dimX);
      fold := Zeros(rhs.dimF);
      tauLeaf := 0.0;
    }

    /** The equation graph, read at the current values of its leaves. */
    function Equation(): (equ: seq<real> --> seq<real>)
      reads this
      ensures forall z :: |z| == |yold| == |fold| && |rhs.eval(z)| == |yold| ==>
                equ.requires(z) && equ(z) == CrankNicolsonResidual(rhs.eval, yold, fold, tauLeaf, z)
    {
      var f, yn, fn, t := rhs.eval, yold, fold, tauLeaf;
      z requires |z| == |yn| == |fn| && |f(z)| == |yn| => CrankNicolsonResidual(f, yn, fn, t, z)
    }

    /** Freezes y_n := y and f(y_n) (evaluated at the incoming y), re-arms tau,
        then solves the equation in place from y. */
    method DoStep(tau: real, y: array<real>, newton: NewtonSolver) returns (outcome: SolveOutcome)
      requires rhs.Valid() && rhs.dimX == rhs.dimF == y.Length && newton.Valid()
      modifies this, y
      ensures yold == old(y[..]) && fold == rhs.eval(old(y[..])) && tauLeaf == tau
      ensures outcome.Converged? ==>
                CrankNicolsonResidual(rhs.eval, yold, fold, tau, y[..]) == Zeros(y.Length)
      ensures outcome.Converged? ==>
                y[..] == AddScaled(old(y[..]), tau, Trapezoid(rhs.eval(y[..]), rhs.eval(old(y[..]))))
    {
      yold := y[..];
      var fn := new real[rhs.dimF];
      Evaluate(rhs, y, fn);
      fold := fn[..];
      tauLeaf := tau;
      var equ := Equation();
      outcome := Solve(newton, equ, y);
      if outcome.Converged? {
        assert equ(y[..]) == CrankNicolsonResidual(rhs.eval, yold, fold, tau, y[..]);
        CrankNicolsonRoot(rhs.eval, yold, fold, tau, y[..]);
      }
    }
  }
}
