// The right-hand side of the mass-spring system (`MSS_Function`): the
// acceleration of every mass from gravity, the spring forces and the
// distance-constraint corrections, for given positions x. The Euclidean norm
// is a parameter (`norm`), so the model fixes the structure of the force
// accumulation and not the values of square roots.

module MassSpringForces {
  import opened Vectors
  import opened MassSpring

  /** The threshold below which a spring or constraint is skipped (1e-12). */
  const Eps: real := 0.000000000001

  /** What `evaluate` relies on: D-vectors throughout, connectors that refer
      to existing elements, and masses it can divide by. */
  predicate Ready(st: SystemState)
  {
    st.Fits() && st.Connected()
    && forall i :: 0 <= i < |st.masses| ==> st.masses[i].mass != 0.0
  }

  /** One D-row per mass. */
  predicate Frame(st: SystemState, rows: seq<seq<real>>)
  {
    |rows| == |st.masses| && RowsFit(rows, st.D)
  }

  /** The position of a connector: a fix's stored position, or row nr of the
      positions X of the masses. */
  function EndPoint(st: SystemState, X: seq<seq<real>>, c: Connector): (p: seq<real>)
    requires st.Fits() && st.Refers(c) && Frame(st, X)
    ensures |p| == st.D
  {
    match c.kind
    case FIX => st.fixes[c.nr].pos
    case MASS => X[c.nr]
  }

  /** Row i is mass_i * gravity. */
  function GravityRows(st: SystemState): (rows: seq<seq<real>>)
    requires st.Fits()
    ensures Frame(st, rows)
  {
    seq(|st.masses|, i requires 0 <= i < |st.masses| => Scale(st.masses[i].mass, st.gravity))
  }

  /** The force vector a spring exerts on its first end, for the separation
      diff = p2 - p1 of length dist. */
  function SpringForce(sp: Spring, diff: seq<real>, dist: real): (F: seq<real>)
    requires dist != 0.0
    ensures |F| == |diff|
  {
    Scale(sp.stiffness * (dist - sp.length), Scale(1.0 / dist, diff))
  }

  /** The connector is the mass end numbered i. */
  predicate Touches(c: Connector, i: nat)
  {
    c.kind == MASS && c.nr == i
  }

  /** One pass of the spring loop: unless the ends (nearly) coincide, the
      force is added to the row of a mass at c1 and subtracted from the row of
      a mass at c2. */
  function ApplySpring(st: SystemState, X: seq<seq<real>>, norm: seq<real> -> real,
                       rows: seq<seq<real>>, sp: Spring): (r: seq<seq<real>>)
    requires st.Fits() && Frame(st, X) && Frame(st, rows) && st.Refers(sp.c1) && st.Refers(sp.c2)
    ensures Frame(st, r)
  {
    var diff := Sub(EndPoint(st, X, sp.c2), EndPoint(st, X, sp.c1));
    var dist := norm(diff);
    if dist <= Eps then rows
    else
      var F := SpringForce(sp, diff, dist);
      var r1 := if sp.c1.kind == MASS then rows[sp.c1.nr := Add(rows[sp.c1.nr], F)] else rows;
      if sp.c2.kind == MASS then r1[sp.c2.nr := Sub(r1[sp.c2.nr], F)] else r1
  }

  /** The first k passes of the spring loop. */
  function ApplySprings(st: SystemState, X: seq<seq<real>>, norm: seq<real> -> real,
                        rows: seq<seq<real>>, k: nat): (r: seq<seq<real>>)
    requires st.Fits() && st.Connected() && Frame(st, X) && Frame(st, rows) && k <= |st.springs|
    ensures Frame(st, r)
  {
    if k == 0 then rows
    else ApplySpring(st, X, norm, ApplySprings(st, X, norm, rows, k - 1), st.springs[k - 1])
  }

  /** Forces to accelerations: row i times 1 / mass_i. */
  function DivideByMass(st: SystemState, rows: seq<seq<real>>): (r: seq<seq<real>>)
    requires Ready(st) && Frame(st, rows)
    ensures Frame(st, r)
    ensures forall i, d :: 0 <= i < |rows| && 0 <= d < st.D ==> st.masses[i].mass * r[i][d] == rows[i][d]
  {
    var r := seq(|rows|, i requires 0 <= i < |rows| => Scale(1.0 / st.masses[i].mass, rows[i]));
    assert forall i, d :: 0 <= i < |rows| && 0 <= d < st.D ==> st.masses[i].mass * r[i][d] == rows[i][d] by {
      forall i, d | 0 <= i < |rows| && 0 <= d < st.D
        ensures st.masses[i].mass * r[i][d] == rows[i][d]
      {
        InverseTimes(st.masses[i].mass, rows[i][d]);
      }
    }
    r
  }

  /** m * ((1 / m) * x) = x. */
  lemma InverseTimes(m: real, x: real)
    requires m != 0.0
    ensures m * ((1.0 / m) * x) == x
  {
    InverseCancels(m);
    assert m * ((1.0 / m) * x) == (m * (1.0 / m)) * x;
  }

  /** 1 / mass for a mass end, 0 for a fixed end. */
  function InverseMass(st: SystemState, c: Connector): real
    requires Ready(st) && st.Refers(c)
  {
    if c.kind == MASS then 1.0 / st.masses[c.nr].mass else 0.0
  }

  /** The acceleration row of a mass end, 0 for a fixed end. */
  function EndAcceleration(st: SystemState, rows: seq<seq<real>>, c: Connector): (a: seq<real>)
    requires st.Fits() && Frame(st, rows) && st.Refers(c)
    ensures |a| == st.D
  {
    if c.kind == MASS then rows[c.nr] else Zeros(st.D)
  }

  /** An active constraint's multiplier lambda, its unit direction dir and
      the steps along dir of its two ends: share1 = -lambda * invm1 and
      share2 = lambda * invm2. */
  datatype Correction = Correction(lambda: real, dir: seq<real>, share1: real, share2: real)

  /** The constraint is skipped (None) when its ends coincide or when both are
      fixed; otherwise lambda = -(diff . (a2 - a1)) / (dist * (1/m1 + 1/m2))
      and dir = diff / dist. */
  function ConstraintCorrection(st: SystemState, X: seq<seq<real>>, norm: seq<real> -> real,
                                rows: seq<seq<real>>, con: DistanceConstraint): (o: Option<Correction>)
    requires Ready(st) && Frame(st, X) && Frame(st, rows) && st.Refers(con.c1) && st.Refers(con.c2)
    ensures o.Some? ==> |o.value.dir| == st.D
    ensures var dist := norm(Sub(EndPoint(st, X, con.c2), EndPoint(st, X, con.c1)));
            o.None? <==> dist <= Eps || Denominator(dist, InverseMass(st, con.c1), InverseMass(st, con.c2)) <= Eps
  {
    var diff := Sub(EndPoint(st, X, con.c2), EndPoint(st, X, con.c1));
    var dist := norm(diff);
    if dist <= Eps then None
    else
      var invm1, invm2 := InverseMass(st, con.c1), InverseMass(st, con.c2);
      var denom := Denominator(dist, invm1, invm2);
      if denom <= Eps then None
      else
        var num := Dot(diff, Sub(EndAcceleration(st, rows, con.c2), EndAcceleration(st, rows, con.c1)));
        Some(MakeCorrection(LagrangeMultiplier(num, denom), diff, dist, invm1, invm2))
  }

  /** denom = dist * (invm1 + invm2). */
  function Denominator(dist: real, i1: real, i2: real): real
  {
    dist * (i1 + i2)
  }

  /** lambda = -num / denom. */
  function LagrangeMultiplier(num: real, denom: real): real
    requires denom != 0.0
  {
    -num / denom
  }

  /** The correction with multiplier lambda along dir = diff / dist: the end
      at c1 steps by -lambda * i1 and the end at c2 by lambda * i2. */
  function MakeCorrection(lambda: real, diff: seq<real>, dist: real, i1: real, i2: real): (cr: Correction)
    requires dist != 0.0
    ensures |cr.dir| == |diff|
  {
    Correction(lambda, Scale(1.0 / dist, diff), -lambda * i1, lambda * i2)
  }

  /** ConstraintCorrection assembled from its parts, as the constraint loop
      computes them one after the other. */
  lemma CorrectionOfParts(st: SystemState, X: seq<seq<real>>, norm: seq<real> -> real,
                          rows: seq<seq<real>>, con: DistanceConstraint, diff: seq<real>, dist: real,
                          i1: real, i2: real, a1: seq<real>, a2: seq<real>, num: real, denom: real)
    requires Ready(st) && Frame(st, X) && Frame(st, rows) && st.Refers(con.c1) && st.Refers(con.c2)
    requires diff == Sub(EndPoint(st, X, con.c2), EndPoint(st, X, con.c1)) && dist == norm(diff)
    requires i1 == InverseMass(st, con.c1) && i2 == InverseMass(st, con.c2)
    requires a1 == EndAcceleration(st, rows, con.c1) && a2 == EndAcceleration(st, rows, con.c2)
    requires num == Dot(diff, Sub(a2, a1)) && denom == Denominator(dist, i1, i2)
    requires dist > Eps && denom > Eps
    ensures ConstraintCorrection(st, X, norm, rows, con)
            == Some(MakeCorrection(LagrangeMultiplier(num, denom), diff, dist, i1, i2))
  {
  }

  /** Moves the acceleration row of a mass end by k along dir; a fixed end
      has no row and is left alone. */
  function Nudge(st: SystemState, rows: seq<seq<real>>, c: Connector, k: real, dir: seq<real>)
    : (r: seq<seq<real>>)
    requires st.Fits() && Frame(st, rows) && st.Refers(c) && |dir| == st.D
    ensures Frame(st, r)
    ensures forall i :: 0 <= i < |rows| && !Touches(c, i) ==> r[i] == rows[i]
  {
    if c.kind == MASS then rows[c.nr := AddScaled(rows[c.nr], k, dir)] else rows
  }

  /** Moves the acceleration of a mass end at c1 by share1 along dir and that
      of a mass end at c2 by share2 along dir. */
  function Correct(st: SystemState, rows: seq<seq<real>>, con: DistanceConstraint, cr: Correction)
    : (r: seq<seq<real>>)
    requires Ready(st) && Frame(st, rows) && st.Refers(con.c1) && st.Refers(con.c2) && |cr.dir| == st.D
    ensures Frame(st, r)
  {
    Nudge(st, Nudge(st, rows, con.c1, cr.share1, cr.dir), con.c2, cr.share2, cr.dir)
  }

  /** One pass of the constraint loop. */
  function ApplyConstraint(st: SystemState, X: seq<seq<real>>, norm: seq<real> -> real,
                           rows: seq<seq<real>>, con: DistanceConstraint): (r: seq<seq<real>>)
    requires Ready(st) && Frame(st, X) && Frame(st, rows) && st.Refers(con.c1) && st.Refers(con.c2)
    ensures Frame(st, r)
    ensures forall i :: 0 <= i < |rows| && !Touches(con.c1, i) && !Touches(con.c2, i) ==> r[i] == rows[i]
  {
    match ConstraintCorrection(st, X, norm, rows, con)
    case None => rows
    case Some(cr) => Correct(st, rows, con, cr)
  }

  /** The first k passes of the constraint loop. */
  function ApplyConstraints(st: SystemState, X: seq<seq<real>>, norm: seq<real> -> real,
                            rows: seq<seq<real>>, k: nat): (r: seq<seq<real>>)
    requires Ready(st) && Frame(st, X) && Frame(st, rows) && k <= |st.constraints|
    ensures Frame(st, r)
  {
    if k == 0 then rows
    else ApplyConstraint(st, X, norm, ApplyConstraints(st, X, norm, rows, k - 1), st.constraints[k - 1])
  }

  /** The accelerations `evaluate` writes for packed positions x, as rows. */
  function AccelerationRows(st: SystemState, x: seq<real>, norm: seq<real> -> real): (rows: seq<seq<real>>)
    requires Ready(st) && |x| == |st.masses| * st.D
    ensures Frame(st, rows)
  {
    var X := Unflatten(x, |st.masses|, st.D);
    var forces := ApplySprings(st, X, norm, GravityRows(st), |st.springs|);
    ApplyConstraints(st, X, norm, DivideByMass(st, forces), |st.constraints|)
  }

  // ---------------------------------------------------------------------
  // Action and reaction

  /** The vector sum of the rows (the total force on the masses). */
  function RowSum(rows: seq<seq<real>>, D: nat): (t: seq<real>)
    requires RowsFit(rows, D)
    ensures |t| == D
  {
    if |rows| == 0 then Zeros(D) else Add(RowSum(rows[..|rows| - 1], D), rows[|rows| - 1])
  }

  /** Replacing row k by v changes the sum by v - rows[k]. */
  lemma {:induction false} RowSumUpdate(rows: seq<seq<real>>, D: nat, k: nat, v: seq<real>)
    requires RowsFit(rows, D) && k < |rows| && |v| == D
    ensures RowsFit(rows[k := v], D)
    ensures RowSum(rows[k := v], D) == Add(Sub(RowSum(rows, D), rows[k]), v)
  {
    var n := |rows| - 1;
    var init := rows[..n];
    var rows' := rows[k := v];
    assert rows'[..n] == if k == n then init else init[k := v];
    var S := RowSum(init, D);
    if k < n {
      RowSumUpdate(init, D, k, v);
    }
    var lhs, rhs := RowSum(rows', D), Add(Sub(RowSum(rows, D), rows[k]), v);
    forall i | 0 <= i < D ensures lhs[i] == rhs[i] {
      if k < n {
        assert lhs[i] == (S[i] - init[k][i] + v[i]) + rows[n][i];
      } else {
        assert lhs[i] == S[i] + v[i];
      }
    }
    assert lhs == rhs;
  }

  /** A spring between two different masses pushes them with opposite forces:
      what it adds to the row of c1 is what it takes from the row of c2, and
      the other rows stay. */
  lemma SpringActionReaction(st: SystemState, X: seq<seq<real>>, norm: seq<real> -> real,
                             rows: seq<seq<real>>, sp: Spring)
    requires st.Fits() && Frame(st, X) && Frame(st, rows) && st.Refers(sp.c1) && st.Refers(sp.c2)
    requires sp.c1.kind == MASS && sp.c2.kind == MASS && sp.c1.nr != sp.c2.nr
    ensures var r := ApplySpring(st, X, norm, rows, sp);
            Add(Sub(r[sp.c1.nr], rows[sp.c1.nr]), Sub(r[sp.c2.nr], rows[sp.c2.nr])) == Zeros(st.D)
            && forall i :: 0 <= i < |rows| && i != sp.c1.nr && i != sp.c2.nr ==> r[i] == rows[i]
  {
    var r := ApplySpring(st, X, norm, rows, sp);
    var a, b := sp.c1.nr, sp.c2.nr;
    var z := Add(Sub(r[a], rows[a]), Sub(r[b], rows[b]));
    var diff := Sub(EndPoint(st, X, sp.c2), EndPoint(st, X, sp.c1));
    var dist := norm(diff);
    if dist > Eps {
      var F := SpringForce(sp, diff, dist);
      assert r[a] == Add(rows[a], F) && r[b] == Sub(rows[b], F);
      forall i | 0 <= i < st.D ensures z[i] == 0.0 {
        assert z[i] == (rows[a][i] + F[i] - rows[a][i]) + (rows[b][i] - F[i] - rows[b][i]);
      }
    }
    assert z == Zeros(st.D);
  }

  /** A spring changes only the rows of its mass ends. */
  lemma SpringIsLocal(st: SystemState, X: seq<seq<real>>, norm: seq<real> -> real,
                      rows: seq<seq<real>>, sp: Spring, i: nat)
    requires st.Fits() && Frame(st, X) && Frame(st, rows) && st.Refers(sp.c1) && st.Refers(sp.c2)
    requires i < |rows| && !Touches(sp.c1, i) && !Touches(sp.c2, i)
    ensures ApplySpring(st, X, norm, rows, sp)[i] == rows[i]
  {
  }

  /** A spring between two masses leaves the total force unchanged. */
  lemma SpringConservesRowSum(st: SystemState, X: seq<seq<real>>, norm: seq<real> -> real,
                              rows: seq<seq<real>>, sp: Spring)
    requires st.Fits() && Frame(st, X) && Frame(st, rows) && st.Refers(sp.c1) && st.Refers(sp.c2)
    requires sp.c1.kind == MASS && sp.c2.kind == MASS
    ensures RowSum(ApplySpring(st, X, norm, rows, sp), st.D) == RowSum(rows, st.D)
  {
    var diff := Sub(EndPoint(st, X, sp.c2), EndPoint(st, X, sp.c1));
    var dist := norm(diff);
    if dist > Eps {
      var D := st.D;
      var F := SpringForce(sp, diff, dist);
      var a, b := sp.c1.nr, sp.c2.nr;
      var r1 := rows[a := Add(rows[a], F)];
      var r2 := r1[b := Sub(r1[b], F)];
      assert ApplySpring(st, X, norm, rows, sp) == r2;
      RowSumUpdate(rows, D, a, Add(rows[a], F));
      RowSumUpdate(r1, D, b, Sub(r1[b], F));
      var S, S2 := RowSum(rows, D), RowSum(r2, D);
      forall i | 0 <= i < D ensures S2[i] == S[i] {
        assert S2[i] == ((S[i] - rows[a][i] + (rows[a][i] + F[i])) - r1[b][i]) + (r1[b][i] - F[i]);
      }
      assert S2 == S;
    }
  }

  /** When every spring joins two masses, the spring loop leaves the total
      force unchanged: the spring forces are internal. */
  lemma SpringsConserveRowSum(st: SystemState, X: seq<seq<real>>, norm: seq<real> -> real,
                               rows: seq<seq<real>>, k: nat)
    requires st.Fits() && st.Connected() && Frame(st, X) && Frame(st, rows) && k <= |st.springs|
    requires forall j :: 0 <= j < |st.springs| ==> st.springs[j].c1.kind == MASS && st.springs[j].c2.kind == MASS
    ensures RowSum(ApplySprings(st, X, norm, rows, k), st.D) == RowSum(rows, st.D)
  {
    var j := 0;
    while j < k
      invariant j <= k
      invariant RowSum(ApplySprings(st, X, norm, rows, j), st.D) == RowSum(rows, st.D)
    {
      var next := j + 1;
      assert RowSum(ApplySprings(st, X, norm, rows, next), st.D) == RowSum(rows, st.D) by {
        SpringsStepConserves(st, X, norm, rows, next, j);
      }
      j := next;
    }
    assert j == k;
  }

  /** Pass k of the spring loop keeps the total force of the passes before it. */
  lemma SpringsStepConserves(st: SystemState, X: seq<seq<real>>, norm: seq<real> -> real,
                             rows: seq<seq<real>>, k: nat, prev: nat)
    requires st.Fits() && st.Connected() && Frame(st, X) && Frame(st, rows) && 0 < k <= |st.springs|
    requires prev == k - 1
    requires st.springs[prev].c1.kind == MASS && st.springs[prev].c2.kind == MASS
    ensures RowSum(ApplySprings(st, X, norm, rows, k), st.D) == RowSum(ApplySprings(st, X, norm, rows, prev), st.D)
  {
    ApplySpringsLast(st, X, norm, rows, k, prev);
    SpringConservesRowSum(st, X, norm, ApplySprings(st, X, norm, rows, prev), st.springs[prev]);
  }

  /** The first k passes are pass k applied after the first k - 1. */
  lemma ApplySpringsLast(st: SystemState, X: seq<seq<real>>, norm: seq<real> -> real,
                         rows: seq<seq<real>>, k: nat, prev: nat)
    requires st.Fits() && st.Connected() && Frame(st, X) && Frame(st, rows) && 0 < k <= |st.springs|
    requires prev == k - 1
    ensures ApplySprings(st, X, norm, rows, k)
            == ApplySpring(st, X, norm, ApplySprings(st, X, norm, rows, prev), st.springs[prev])
  {
  }


  /** Springs whose ends coincide (separation norm at most 1e-12) add nothing. */
  lemma {:induction false} CoincidentSpringsVanish(st: SystemState, X: seq<seq<real>>, norm: seq<real> -> real,
                                                   rows: seq<seq<real>>, k: nat)
    requires st.Fits() && st.Connected() && Frame(st, X) && Frame(st, rows) && k <= |st.springs|
    requires forall j :: 0 <= j < k ==>
               norm(Sub(EndPoint(st, X, st.springs[j].c2), EndPoint(st, X, st.springs[j].c1))) <= Eps
    ensures ApplySprings(st, X, norm, rows, k) == rows
  {
    if k > 0 {
      CoincidentSpringsVanish(st, X, norm, rows, k - 1);
    }
  }

  // ---------------------------------------------------------------------
  // Gravity alone

  lemma InverseCancels(m: real)
    requires m != 0.0
    ensures m * (1.0 / m) == 1.0
  {
  }

  /** Dividing by m undoes multiplying by m. */
  lemma Unscale(m: real, v: seq<real>)
    requires m != 0.0
    ensures Scale(1.0 / m, Scale(m, v)) == v
  {
    forall i | 0 <= i < |v| ensures Scale(1.0 / m, Scale(m, v))[i] == v[i] {
      InverseCancels(m);
      assert (1.0 / m) * (m * v[i]) == (m * (1.0 / m)) * v[i];
    }
  }

  /** Without springs and constraints every mass falls with the gravity
      vector: (mass * g) / mass = g. */
  lemma GravityOnly(st: SystemState, x: seq<real>, norm: seq<real> -> real)
    requires Ready(st) && |x| == |st.masses| * st.D
    requires st.springs == [] && st.constraints == []
    ensures AccelerationRows(st, x, norm) == seq(|st.masses|, i => st.gravity)
  {
    var rows := AccelerationRows(st, x, norm);
    var X := Unflatten(x, |st.masses|, st.D);
    var G := GravityRows(st);
    assert ApplySprings(st, X, norm, G, |st.springs|) == G;
    var A := DivideByMass(st, G);
    assert rows == ApplyConstraints(st, X, norm, A, 0) == A;
    forall i | 0 <= i < |st.masses| ensures rows[i] == st.gravity {
      var m := st.masses[i].mass;
      assert rows[i] == Scale(1.0 / m, Scale(m, st.gravity));
      Unscale(m, st.gravity);
    }
  }

  // ---------------------------------------------------------------------
  // Distance constraints

  /** cr is the correction for ends at distance dist along diff, with
      accelerations a1 and a2 and inverse masses i1 and i2. */
  predicate Multiplier(diff: seq<real>, a1: seq<real>, a2: seq<real>, i1: real, i2: real, dist: real, cr: Correction)
    requires |diff| == |a1| == |a2|
  {
    dist != 0.0 && dist * (i1 + i2) != 0.0
    && cr.lambda == -Dot(diff, Sub(a2, a1)) / (dist * (i1 + i2))
    && cr.dir == Scale(1.0 / dist, diff)
    && cr.share1 == -cr.lambda * i1 && cr.share2 == cr.lambda * i2
  }

  /** What an active constraint's correction is made of. */
  lemma CorrectionFacts(st: SystemState, X: seq<seq<real>>, norm: seq<real> -> real,
                        rows: seq<seq<real>>, con: DistanceConstraint)
    requires Ready(st) && Frame(st, X) && Frame(st, rows) && st.Refers(con.c1) && st.Refers(con.c2)
    requires ConstraintCorrection(st, X, norm, rows, con).Some?
    ensures var diff := Sub(EndPoint(st, X, con.c2), EndPoint(st, X, con.c1));
            var dist := norm(diff);
            var i1, i2 := InverseMass(st, con.c1), InverseMass(st, con.c2);
            var cr := ConstraintCorrection(st, X, norm, rows, con).value;
            dist > Eps && dist * (i1 + i2) > Eps
            && Multiplier(diff, EndAcceleration(st, rows, con.c1), EndAcceleration(st, rows, con.c2), i1, i2, dist, cr)
  {
  }

  /** The two shares carry equal and opposite momentum. */
  lemma SharesBalance(m1: real, m2: real, lambda: real)
    requires m1 != 0.0 && m2 != 0.0
    ensures m1 * (-lambda * (1.0 / m1)) + m2 * (lambda * (1.0 / m2)) == 0.0
  {
    calc {
      m1 * (-lambda * (1.0 / m1));
      { InverseCancels(m1); }
      -lambda;
    }
    calc {
      m2 * (lambda * (1.0 / m2));
      { InverseCancels(m2); }
      lambda;
    }
  }

  /** Balanced shares stay balanced along each coordinate. */
  lemma BalanceAlong(m1: real, m2: real, s1: real, s2: real, d: real)
    requires m1 * s1 + m2 * s2 == 0.0
    ensures m1 * (s1 * d) + m2 * (s2 * d) == 0.0
  {
    calc {
      m1 * (s1 * d) + m2 * (s2 * d);
      (m1 * s1 + m2 * s2) * d;
    }
  }

  /** A correction between two different masses whose shares balance
      conserves momentum. */
  lemma CorrectConservesMomentum(st: SystemState, rows: seq<seq<real>>, con: DistanceConstraint, cr: Correction)
    requires Ready(st) && Frame(st, rows) && st.Refers(con.c1) && st.Refers(con.c2) && |cr.dir| == st.D
    requires con.c1.kind == MASS && con.c2.kind == MASS && con.c1.nr != con.c2.nr
    requires st.masses[con.c1.nr].mass * cr.share1 + st.masses[con.c2.nr].mass * cr.share2 == 0.0
    ensures var r := Correct(st, rows, con, cr);
            var m1, m2 := st.masses[con.c1.nr].mass, st.masses[con.c2.nr].mass;
            Add(Scale(m1, Sub(r[con.c1.nr], rows[con.c1.nr])), Scale(m2, Sub(r[con.c2.nr], rows[con.c2.nr])))
            == Zeros(st.D)
  {
    var r := Correct(st, rows, con, cr);
    var a, b := con.c1.nr, con.c2.nr;
    var m1, m2 := st.masses[a].mass, st.masses[b].mass;
    var z := Add(Scale(m1, Sub(r[a], rows[a])), Scale(m2, Sub(r[b], rows[b])));
    var dir := cr.dir;
    forall i | 0 <= i < st.D ensures z[i] == 0.0 {
      assert Sub(r[a], rows[a])[i] == cr.share1 * dir[i];
      assert Sub(r[b], rows[b])[i] == cr.share2 * dir[i];
      BalanceAlong(m1, m2, cr.share1, cr.share2, dir[i]);
    }
    assert z == Zeros(st.D);
  }

  /** A constraint between two different masses conserves momentum: the
      mass-weighted changes of the two accelerations cancel. */
  lemma ConstraintConservesMomentum(st: SystemState, X: seq<seq<real>>, norm: seq<real> -> real,
                                    rows: seq<seq<real>>, con: DistanceConstraint)
    requires Ready(st) && Frame(st, X) && Frame(st, rows) && st.Refers(con.c1) && st.Refers(con.c2)
    requires con.c1.kind == MASS && con.c2.kind == MASS && con.c1.nr != con.c2.nr
    ensures var r := ApplyConstraint(st, X, norm, rows, con);
            var m1, m2 := st.masses[con.c1.nr].mass, st.masses[con.c2.nr].mass;
            Add(Scale(m1, Sub(r[con.c1.nr], rows[con.c1.nr])), Scale(m2, Sub(r[con.c2.nr], rows[con.c2.nr])))
            == Zeros(st.D)
  {
    var a, b := con.c1.nr, con.c2.nr;
    var m1, m2 := st.masses[a].mass, st.masses[b].mass;
    match ConstraintCorrection(st, X, norm, rows, con)
    case None =>
      var z := Add(Scale(m1, Sub(rows[a], rows[a])), Scale(m2, Sub(rows[b], rows[b])));
      forall i | 0 <= i < st.D ensures z[i] == 0.0 {
        assert Sub(rows[a], rows[a])[i] == 0.0 && Sub(rows[b], rows[b])[i] == 0.0;
      }
      assert z == Zeros(st.D);
    case Some(cr) =>
      assert m1 * cr.share1 + m2 * cr.share2 == 0.0 by {
        CorrectionFacts(st, X, norm, rows, con);
        SharesBalance(m1, m2, cr.lambda);
      }
      CorrectConservesMomentum(st, rows, con, cr);
  }

  /** A nudged end moves by k along dir (a fixed end only by a zero step). */
  lemma NudgeEnd(st: SystemState, rows: seq<seq<real>>, c: Connector, k: real, dir: seq<real>)
    requires st.Fits() && Frame(st, rows) && st.Refers(c) && |dir| == st.D
    requires c.kind == FIX ==> k == 0.0
    ensures EndAcceleration(st, Nudge(st, rows, c, k, dir), c) == AddScaled(EndAcceleration(st, rows, c), k, dir)
  {
    if c.kind == FIX {
      assert AddScaled(Zeros(st.D), 0.0, dir) == Zeros(st.D);
    }
  }

  /** Nudging one end leaves every other end's acceleration as it was. */
  lemma NudgeOther(st: SystemState, rows: seq<seq<real>>, c: Connector, k: real, dir: seq<real>, e: Connector)
    requires st.Fits() && Frame(st, rows) && st.Refers(c) && st.Refers(e) && |dir| == st.D
    requires c != e
    ensures EndAcceleration(st, Nudge(st, rows, c, k, dir), e) == EndAcceleration(st, rows, e)
  {
  }

  /** The ends' accelerations after a correction: each moves along dir by its
      share (a fixed end's share is 0, and its acceleration stays 0). */
  lemma CorrectEnds(st: SystemState, rows: seq<seq<real>>, con: DistanceConstraint, cr: Correction)
    requires Ready(st) && Frame(st, rows) && st.Refers(con.c1) && st.Refers(con.c2) && |cr.dir| == st.D
    requires con.c1 != con.c2
    requires (con.c1.kind == FIX ==> cr.share1 == 0.0) && (con.c2.kind == FIX ==> cr.share2 == 0.0)
    ensures var r := Correct(st, rows, con, cr);
            EndAcceleration(st, r, con.c1) == AddScaled(EndAcceleration(st, rows, con.c1), cr.share1, cr.dir)
            && EndAcceleration(st, r, con.c2) == AddScaled(EndAcceleration(st, rows, con.c2), cr.share2, cr.dir)
  {
    var r1 := Nudge(st, rows, con.c1, cr.share1, cr.dir);
    NudgeEnd(st, rows, con.c1, cr.share1, cr.dir);
    NudgeOther(st, r1, con.c2, cr.share2, cr.dir, con.c1);
    NudgeOther(st, rows, con.c1, cr.share1, cr.dir, con.c2);
    NudgeEnd(st, r1, con.c2, cr.share2, cr.dir);
  }

  /** The difference of two vectors moved along the same direction. */
  lemma RelativeMove(u1: seq<real>, u2: seq<real>, k1: real, k2: real, dir: seq<real>)
    requires |u1| == |u2| == |dir|
    ensures Sub(AddScaled(u2, k2, dir), AddScaled(u1, k1, dir)) == AddScaled(Sub(u2, u1), k2 - k1, dir)
  {
    forall i | 0 <= i < |dir|
      ensures Sub(AddScaled(u2, k2, dir), AddScaled(u1, k1, dir))[i] == AddScaled(Sub(u2, u1), k2 - k1, dir)[i]
    {
      assert (u2[i] + k2 * dir[i]) - (u1[i] + k1 * dir[i]) == (u2[i] - u1[i]) + (k2 - k1) * dir[i];
    }
  }

  /** The multiplier cancels the relative acceleration along the constraint. */
  lemma MultiplierCancels(num: real, dist: real, i1: real, i2: real, lambda: real, s1: real, s2: real,
                          k: real, inv: real, dd: real)
    requires dist != 0.0 && dist * (i1 + i2) != 0.0 && lambda == -num / (dist * (i1 + i2))
    requires s1 == -lambda * i1 && s2 == lambda * i2 && k == s2 - s1
    requires inv == 1.0 / dist && dd == dist * dist
    ensures num + k * (inv * dd) == 0.0
  {
    calc {
      k * (inv * dd);
      lambda * (i1 + i2) * ((1.0 / dist) * (dist * dist));
      { assert (1.0 / dist) * (dist * dist) == dist; }
      lambda * (i1 + i2) * dist;
      lambda * (dist * (i1 + i2));
      -num;
    }
  }

  /** The ends' accelerations after an active constraint. */
  lemma ConstraintEnds(st: SystemState, X: seq<seq<real>>, norm: seq<real> -> real,
                       rows: seq<seq<real>>, con: DistanceConstraint)
    requires Ready(st) && Frame(st, X) && Frame(st, rows) && st.Refers(con.c1) && st.Refers(con.c2)
    requires con.c1 != con.c2
    requires ConstraintCorrection(st, X, norm, rows, con).Some?
    ensures var cr := ConstraintCorrection(st, X, norm, rows, con).value;
            var r := ApplyConstraint(st, X, norm, rows, con);
            EndAcceleration(st, r, con.c1) == AddScaled(EndAcceleration(st, rows, con.c1), cr.share1, cr.dir)
            && EndAcceleration(st, r, con.c2) == AddScaled(EndAcceleration(st, rows, con.c2), cr.share2, cr.dir)
  {
    var cr := ConstraintCorrection(st, X, norm, rows, con).value;
    CorrectionFacts(st, X, norm, rows, con);
    assert ApplyConstraint(st, X, norm, rows, con) == Correct(st, rows, con, cr);
    CorrectEnds(st, rows, con, cr);
  }

  /** With a Euclidean norm, an active constraint leaves no relative
      acceleration of its ends along the line between them:
      (p2 - p1) . (a2 - a1) = 0 after the correction, so the distance is
      kept to first order. */
  lemma ConstraintStopsApproach(st: SystemState, X: seq<seq<real>>, norm: seq<real> -> real,
                                rows: seq<seq<real>>, con: DistanceConstraint)
    requires Ready(st) && Frame(st, X) && Frame(st, rows) && st.Refers(con.c1) && st.Refers(con.c2)
    requires con.c1 != con.c2
    requires ConstraintCorrection(st, X, norm, rows, con).Some?
    requires var diff := Sub(EndPoint(st, X, con.c2), EndPoint(st, X, con.c1));
             norm(diff) * norm(diff) == Dot(diff, diff)
    ensures var diff := Sub(EndPoint(st, X, con.c2), EndPoint(st, X, con.c1));
            var r := ApplyConstraint(st, X, norm, rows, con);
            Dot(diff, Sub(EndAcceleration(st, r, con.c2), EndAcceleration(st, r, con.c1))) == 0.0
  {
    var diff := Sub(EndPoint(st, X, con.c2), EndPoint(st, X, con.c1));
    var cr := ConstraintCorrection(st, X, norm, rows, con).value;
    var r := ApplyConstraint(st, X, norm, rows, con);
    CorrectionFacts(st, X, norm, rows, con);
    ConstraintEnds(st, X, norm, rows, con);
    StopsAlong(diff, EndAcceleration(st, rows, con.c1), EndAcceleration(st, rows, con.c2),
               EndAcceleration(st, r, con.c1), EndAcceleration(st, r, con.c2),
               InverseMass(st, con.c1), InverseMass(st, con.c2), norm(diff), cr);
  }

  /** The relative acceleration after both ends moved along dir, seen along diff. */
  lemma RelativeAlong(diff: seq<real>, a1: seq<real>, a2: seq<real>, e1: seq<real>, e2: seq<real>,
                      dir: seq<real>, s1: real, s2: real, k: real)
    requires |diff| == |a1| == |a2| == |dir|
    requires e1 == AddScaled(a1, s1, dir) && e2 == AddScaled(a2, s2, dir) && k == s2 - s1
    ensures Dot(diff, Sub(e2, e1)) == Dot(diff, Sub(a2, a1)) + k * Dot(diff, dir)
  {
    RelativeMove(a1, a2, s1, s2, dir);
    DotAddScaled(diff, Sub(a2, a1), k, dir);
  }

  /** The vector algebra behind ConstraintStopsApproach, free of the system. */
  lemma StopsAlong(diff: seq<real>, a1: seq<real>, a2: seq<real>, e1: seq<real>, e2: seq<real>,
                   i1: real, i2: real, dist: real, cr: Correction)
    requires |diff| == |a1| == |a2|
    requires Multiplier(diff, a1, a2, i1, i2, dist, cr) && dist * dist == Dot(diff, diff)
    requires e1 == AddScaled(a1, cr.share1, cr.dir) && e2 == AddScaled(a2, cr.share2, cr.dir)
    ensures Dot(diff, Sub(e2, e1)) == 0.0
  {
    var s1, s2, dir := cr.share1, cr.share2, cr.dir;
    var k, inv := s2 - s1, 1.0 / dist;
    var num, dd := Dot(diff, Sub(a2, a1)), Dot(diff, diff);
    RelativeAlong(diff, a1, a2, e1, e2, dir, s1, s2, k);
    DotScale(diff, inv);
    MultiplierCancels(num, dist, i1, i2, cr.lambda, s1, s2, k, inv, dd);
  }
}
