// `MSS_Function<D>`: the mass-spring system seen as a right-hand side
// x -> f(x) of size D * (number of masses), and its `evaluate`, written as the
// source's four loops over the rows of f (gravity, springs, division by the
// masses, constraints). Each loop is a method proved against the fold in
// MassSpringForces that specifies it.

module MassSpringFunction {
  import opened Vectors
  import opened Nonlinear
  import opened MassSpring
  import opened MassSpringForces

  /** The gravity loop: row i becomes mass_i * gravity. */
  method GravityPass(st: SystemState) returns (F: seq<seq<real>>)
    requires st.Fits()
    ensures F == GravityRows(st)
  {
    var n := |st.masses|;
    F := seq(n, _ => Zeros(st.D));
    for i := 0 to n
      invariant |F| == n
      invariant forall j :: 0 <= j < i ==> F[j] == GravityRows(st)[j]
    {
      F := F[i := Scale(st.masses[i].mass, st.gravity)];
    }
  }

  /** The position of a connector as the loops read it. */
  method ReadEnd(st: SystemState, X: seq<seq<real>>, c: Connector) returns (p: seq<real>)
    requires st.Fits() && st.Refers(c) && Frame(st, X)
    ensures p == EndPoint(st, X, c)
  {
    if c.kind == FIX {
      p := st.fixes[c.nr].pos;
    } else {
      p := X[c.nr];
    }
  }

  /** One pass of the spring loop, with the source's early exit when the ends
      are at most Eps apart. */
  method SpringStep(st: SystemState, X: seq<seq<real>>, norm: seq<real> -> real,
                    F0: seq<seq<real>>, sp: Spring) returns (F: seq<seq<real>>)
    requires st.Fits() && Frame(st, X) && Frame(st, F0) && st.Refers(sp.c1) && st.Refers(sp.c2)
    ensures F == ApplySpring(st, X, norm, F0, sp)
  {
    F := F0;
    var p1 := ReadEnd(st, X, sp.c1);
    var p2 := ReadEnd(st, X, sp.c2);
    var diff := Sub(p2, p1);
    var dist := norm(diff);
    if dist <= Eps {
      return;
    }
    var fv := SpringForce(sp, diff, dist);
    if sp.c1.kind == MASS {
      F := F[sp.c1.nr := Add(F[sp.c1.nr], fv)];
    }
    if sp.c2.kind == MASS {
      F := F[sp.c2.nr := Sub(F[sp.c2.nr], fv)];
    }
  }

  /** The spring loop: each spring whose ends are more than Eps apart adds
      its force to a mass at c1 and subtracts it from a mass at c2. */
  method SpringPass(st: SystemState, X: seq<seq<real>>, norm: seq<real> -> real, F0: seq<seq<real>>)
    returns (F: seq<seq<real>>)
    requires st.Fits() && st.Connected() && Frame(st, X) && Frame(st, F0)
    ensures F == ApplySprings(st, X, norm, F0, |st.springs|)
  {
    F := F0;
    for k := 0 to |st.springs|
      invariant F == ApplySprings(st, X, norm, F0, k)
    {
      F := SpringStep(st, X, norm, F, st.springs[k]);
    }
  }

  /** The division loop: row i is multiplied by 1 / mass_i. */
  method DivisionPass(st: SystemState, F0: seq<seq<real>>) returns (F: seq<seq<real>>)
    requires Ready(st) && Frame(st, F0)
    ensures F == DivideByMass(st, F0)
  {
    F := F0;
    for i := 0 to |F0|
      invariant |F| == |F0|
      invariant forall j :: 0 <= j < i ==> F[j] == DivideByMass(st, F0)[j]
      invariant forall j :: i <= j < |F0| ==> F[j] == F0[j]
    {
      F := F[i := Scale(1.0 / st.masses[i].mass, F[i])];
    }
  }

  /** The loop that accumulates num = diff . (a2 - a1), entry by entry. */
  method RelativeProjection(diff: seq<real>, a1: seq<real>, a2: seq<real>) returns (num: real)
    requires |diff| == |a1| == |a2|
    ensures num == Dot(diff, Sub(a2, a1))
  {
    var rel := Sub(a2, a1);
    num := 0.0;
    for d := 0 to |diff|
      invariant num == DotTo(diff, rel, d)
    {
      num := num + diff[d] * rel[d];
    }
  }

  /** The first part of a pass of the constraint loop: the direction and
      the multiplier, with the source's two early exits (None). */
  method ConstraintMultiplier(st: SystemState, X: seq<seq<real>>, norm: seq<real> -> real,
                              F0: seq<seq<real>>, con: DistanceConstraint) returns (o: Option<Correction>)
    requires Ready(st) && Frame(st, X) && Frame(st, F0) && st.Refers(con.c1) && st.Refers(con.c2)
    ensures o == ConstraintCorrection(st, X, norm, F0, con)
  {
    var isMass1, isMass2 := con.c1.kind == MASS, con.c2.kind == MASS;
    var p1 := ReadEnd(st, X, con.c1);
    var p2 := ReadEnd(st, X, con.c2);
    var diff := Sub(p2, p1);
    var dist := norm(diff);
    if dist <= Eps {
      return None;
    }
    var invm1, invm2 := 0.0, 0.0;
    if isMass1 {
      invm1 := 1.0 / st.masses[con.c1.nr].mass;
    }
    if isMass2 {
      invm2 := 1.0 / st.masses[con.c2.nr].mass;
    }
    assert invm1 == InverseMass(st, con.c1) && invm2 == InverseMass(st, con.c2);
    var denom := Denominator(dist, invm1, invm2);
    if denom <= Eps {
      return None;
    }
    var a1, a2 := Zeros(st.D), Zeros(st.D);
    if isMass1 {
      a1 := F0[con.c1.nr];
    }
    if isMass2 {
      a2 := F0[con.c2.nr];
    }
    assert a1 == EndAcceleration(st, F0, con.c1) && a2 == EndAcceleration(st, F0, con.c2);
    var num := RelativeProjection(diff, a1, a2);
    var lambda := -num / denom;
    assert lambda == LagrangeMultiplier(num, denom);
    o := Some(MakeCorrection(lambda, diff, dist, invm1, invm2));
    CorrectionOfParts(st, X, norm, F0, con, diff, dist, invm1, invm2, a1, a2, num, denom);
  }

  /** One pass of the constraint loop: the ends move along dir by their shares
      (-lambda * invm1 and lambda * invm2). */
  method ConstraintStep(st: SystemState, X: seq<seq<real>>, norm: seq<real> -> real,
                        F0: seq<seq<real>>, con: DistanceConstraint) returns (F: seq<seq<real>>)
    requires Ready(st) && Frame(st, X) && Frame(st, F0) && st.Refers(con.c1) && st.Refers(con.c2)
    ensures F == ApplyConstraint(st, X, norm, F0, con)
  {
    F := F0;
    var o := ConstraintMultiplier(st, X, norm, F0, con);
    if o.None? {
      return;
    }
    var cr := o.value;
    if con.c1.kind == MASS {
      F := F[con.c1.nr := AddScaled(F[con.c1.nr], cr.share1, cr.dir)];
    }
    assert F == Nudge(st, F0, con.c1, cr.share1, cr.dir);
    if con.c2.kind == MASS {
      F := F[con.c2.nr := AddScaled(F[con.c2.nr], cr.share2, cr.dir)];
    }
  }

  /** The constraint loop. */
  method ConstraintPass(st: SystemState, X: seq<seq<real>>, norm: seq<real> -> real, F0: seq<seq<real>>)
    returns (F: seq<seq<real>>)
    requires Ready(st) && Frame(st, X) && Frame(st, F0)
    ensures F == ApplyConstraints(st, X, norm, F0, |st.constraints|)
  {
    F := F0;
    for k := 0 to |st.constraints|
      invariant F == ApplyConstraints(st, X, norm, F0, k)
    {
      F := ConstraintStep(st, X, norm, F, st.constraints[k]);
    }
  }

  /** `MSS_Function<D>`: a view of a mass-spring system as y' = f(y) on the
      packed positions of its masses. */
  class MssFunction {
    const mss: MassSpringSystem

    constructor (mss: MassSpringSystem)
      ensures this.mss == mss
    {
      this.mss := mss;
    }

    /** `dimX()`: D entries per mass, the size of the packed positions. */
    function DimX(): (n: nat)
      reads this, mss
      ensures mss.Valid() ==> n == |Flatten(Positions(mss.masses))|
    {
      var n := |mss.masses| * mss.D;
      if mss.Valid() then
        assert RowsFit(Positions(mss.masses), mss.D);
        FlattenLength(Positions(mss.masses), mss.D);
        n
      else n
    }

    /** `dimF()`: the accelerations have the size of the positions. */
    function DimF(): (n: nat)
      reads this, mss
      ensures n == DimX()
    {
      |mss.masses| * mss.D
    }

    /** The right-hand side as a value the steppers take: f(x) for packed
        positions x of the current system (inputs of another size give 0). */
    function Rhs(norm: seq<real> -> real): (rhs: NonlinearFunction)
      reads this, mss
      requires Ready(mss.State())
      ensures rhs.dimX == rhs.dimF == DimX() && rhs.Valid()
      ensures forall x :: |x| == DimX() ==> rhs.eval(x) == Flatten(AccelerationRows(mss.State(), x, norm))
    {
      var st := mss.State();
      var n := |st.masses| * st.D;
      var rhs := NonlinearFunction(n, n, x => if |x| == n then Flatten(AccelerationRows(st, x, norm)) else Zeros(n));
      assert rhs.Valid() by {
        forall x: seq<real> | |x| == n ensures |rhs.eval(x)| == n {
          FlattenLength(AccelerationRows(st, x, norm), st.D);
        }
      }
      assert n == DimX();
      rhs
    }

    /** `evaluate(x, f)`: f receives the accelerations of the masses at the
        packed positions x, row by row. */
    method Evaluate(x: array<real>, f: array<real>, norm: seq<real> -> real)
      requires Ready(mss.State()) && x.Length == DimX() && f.Length == DimF() && x != f
      modifies f
      ensures f[..] == Flatten(AccelerationRows(mss.State(), x[..], norm))
    {
      var st := mss.State();
      var n := |st.masses|;
      var X := Unflatten(x[..], n, st.D);
      var F := GravityPass(st);
      F := SpringPass(st, X, norm, F);
      F := DivisionPass(st, F);
      F := ConstraintPass(st, X, norm, F);
      FlattenLength(F, st.D);
      Assign(f, Flatten(F));
    }
  }
}
