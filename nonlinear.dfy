// The right-hand-side interface the steppers are written against, and the
// Newton solver they delegate implicit steps to, reduced to what the steppers
// need: a length-checked evaluation, and a solve whose success means a root.

module Nonlinear {
  import opened Vectors

  /** A right-hand side y' = f(y): input size dimX, output size dimF, and the
      values it computes. Only `evaluate` is modelled; `evaluateDeriv` is used
      by Newton alone. */
  datatype NonlinearFunction = NonlinearFunction(dimX: nat, dimF: nat, eval: seq<real> -> seq<real>)
  {
    /** Every input of size dimX evaluates to an output of size dimF. */
    ghost predicate Valid()
    {
      forall x: seq<real> :: |x| == dimX ==> |eval(x)| == dimF
    }
  }

  /** f maps vectors of length n to vectors of length n. */
  ghost predicate LengthPreserving(f: seq<real> -> seq<real>, n: nat)
  {
    forall x: seq<real> :: |x| == n ==> |f(x)| == n
  }

  /** `rhs->evaluate(x, fx)`: writes f(x) into the buffer fx. x may be fx. */
  method Evaluate(rhs: NonlinearFunction, x: array<real>, fx: array<real>)
    requires rhs.Valid() && x.Length == rhs.dimX && fx.Length == rhs.dimF
    modifies fx
    ensures fx[..] == rhs.eval(old(x[..]))
  {
    Assign(fx, rhs.eval(x[..]));
  }

  /** How a call `NewtonSolver(equ, y)` ends. */
  datatype SolveOutcome =
    | Converged
    | SingularJacobian
    | NonConvergence(iterations: nat, residual: seq<real>)

  /** The Newton iteration, which is not part of this model: `correct(G, y)` is
      the next iterate y + d with J_G(y) d = -G(y), or None when J_G(y) is
      singular; maxSteps is the iteration cap. */
  datatype NewtonSolver = NewtonSolver(
    correct: (seq<real> --> seq<real>, seq<real>) -> Option<seq<real>>,
    maxSteps: nat)
  {
    /** A correction keeps the size of the iterate. */
    ghost predicate Valid()
    {
      forall g: seq<real> --> seq<real>, y: seq<real> ::
        correct(g, y).Some? ==> |correct(g, y).value| == |y|
    }
  }

  /** Drives equ to a root in place, starting from the guess in y. Success is an
      exact root here; the source stops at a tolerance. */
  method Solve(solver: NewtonSolver, equ: seq<real> --> seq<real>, y: array<real>)
    returns (outcome: SolveOutcome)
    requires solver.Valid()
    requires forall z: seq<real> :: |z| == y.Length ==> equ.requires(z)
    modifies y
    ensures outcome.Converged? ==> equ(y[..]) == Zeros(y.Length)
    ensures outcome.NonConvergence? ==>
              outcome.iterations == solver.maxSteps && outcome.residual == equ(y[..])
  {
    for it := 0 to solver.maxSteps {
      if equ(y[..]) == Zeros(y.Length) {
        return Converged;
      }
      match solver.correct(equ, y[..])
      case None =>
        return SingularJacobian;
      case Some(next) =>
        Assign(y, next);
    }
    if equ(y[..]) == Zeros(y.Length) {
      return Converged;
    }
    return NonConvergence(solver.maxSteps, equ(y[..]));
  }
}
