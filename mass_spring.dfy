// The mass-spring container: append-only lists of fixed points, point masses,
// springs and distance constraints, a gravity vector, and the row-major packing
// of the masses' positions, velocities and accelerations into flat state
// vectors. The space dimension D is a template parameter in the source; here it
// is a constant of the system, and every D-vector has length D.

module MassSpring {
  import opened Vectors

  /** Which kind of element a connector refers to (`FIX = 1`, `MASS = 2`). */
  datatype ConnectorType = FIX | MASS

  /** A handle: element number nr among the fixes or among the masses. */
  datatype Connector = Connector(kind: ConnectorType, nr: nat)

  /** A point mass; velocity and acceleration start at 0 in the source. */
  datatype Mass = Mass(mass: real, pos: seq<real>, vel: seq<real>, acc: seq<real>)

  /** A fixed point in space. */
  datatype Fix = Fix(pos: seq<real>)

  /** A spring of rest length `length` between two connectors. */
  datatype Spring = Spring(length: real, stiffness: real, c1: Connector, c2: Connector)

  /** Keeps the distance between two connectors at `length`. */
  datatype DistanceConstraint = DistanceConstraint(c1: Connector, c2: Connector, length: real)

  /** A mass with the default velocity and acceleration, `Mass<D>{m, pos}`. */
  function MassAt(mass: real, pos: seq<real>): (m: Mass)
    ensures m.mass == mass && m.pos == pos
    ensures m.vel == Zeros(|pos|) && m.acc == Zeros(|pos|)
  {
    Mass(mass, pos, Zeros(|pos|), Zeros(|pos|))
  }

  /** Every vector of the mass is a D-vector. */
  predicate MassFits(m: Mass, D: nat)
  {
    |m.pos| == D && |m.vel| == D && |m.acc| == D
  }

  // ---------------------------------------------------------------------
  // Row-major packing (`asMatrix(n, D)`)

  /** All of the first n rows have length D. */
  predicate RowsFit(rows: seq<seq<real>>, D: nat)
  {
    forall i :: 0 <= i < |rows| ==> |rows[i]| == D
  }

  /** The rows laid out one after another. */
  function Flatten(rows: seq<seq<real>>): seq<real>
  {
    if |rows| == 0 then [] else Flatten(rows[..|rows| - 1]) + rows[|rows| - 1]
  }

  /** Cutting a vector of n * D entries into its n rows of length D. */
  function Unflatten(x: seq<real>, n: nat, D: nat): (rows: seq<seq<real>>)
    requires |x| == n * D
    ensures |rows| == n && RowsFit(rows, D)
  {
    if n == 0 then []
    else Unflatten(x[..(n - 1) * D], n - 1, D) + [x[(n - 1) * D..]]
  }

  /** i * D grows with i. */
  lemma MulMono(i: nat, j: nat, D: nat)
    requires i <= j
    ensures i * D <= j * D
  {
  }

  /** The packed vector holds D entries per row. */
  lemma {:induction false} FlattenLength(rows: seq<seq<real>>, D: nat)
    requires RowsFit(rows, D)
    ensures |Flatten(rows)| == |rows| * D
  {
    if |rows| > 0 {
      FlattenLength(rows[..|rows| - 1], D);
    }
  }

  /** Packing is row-major: entry d of row i sits at i * D + d. */
  lemma {:induction false} FlattenAt(rows: seq<seq<real>>, D: nat, i: nat, d: nat)
    requires RowsFit(rows, D) && i < |rows| && d < D
    ensures i * D + d < |Flatten(rows)|
    ensures Flatten(rows)[i * D + d] == rows[i][d]
  {
    var n := |rows| - 1;
    var init := rows[..n];
    FlattenLength(init, D);
    FlattenLength(rows, D);
    if i < n {
      MulMono(i + 1, n, D);
      FlattenAt(init, D, i, d);
    }
  }

  /** Cutting a packed vector gives back the rows. */
  lemma {:induction false} UnflattenFlatten(rows: seq<seq<real>>, D: nat)
    requires RowsFit(rows, D)
    ensures |Flatten(rows)| == |rows| * D
    ensures Unflatten(Flatten(rows), |rows|, D) == rows
  {
    FlattenLength(rows, D);
    if |rows| > 0 {
      var n := |rows| - 1;
      var init := rows[..n];
      FlattenLength(init, D);
      UnflattenFlatten(init, D);
      var x := Flatten(rows);
      assert x == Flatten(init) + rows[n];
      assert x[..n * D] == Flatten(init);
      assert x[n * D..] == rows[n];
    }
  }

  /** Packing the rows of a vector gives back the vector. */
  lemma {:induction false} FlattenUnflatten(x: seq<real>, n: nat, D: nat)
    requires |x| == n * D
    ensures Flatten(Unflatten(x, n, D)) == x
  {
    if n > 0 {
      var rows := Unflatten(x, n, D);
      FlattenUnflatten(x[..(n - 1) * D], n - 1, D);
      assert rows[..n - 1] == Unflatten(x[..(n - 1) * D], n - 1, D);
      assert x == x[..(n - 1) * D] + x[(n - 1) * D..];
    }
  }

  /** The positions, velocities and accelerations of the masses as rows. */
  function Positions(ms: seq<Mass>): (rows: seq<seq<real>>)
    ensures |rows| == |ms| && forall i :: 0 <= i < |ms| ==> rows[i] == ms[i].pos
  {
    seq(|ms|, i requires 0 <= i < |ms| => ms[i].pos)
  }

  function Velocities(ms: seq<Mass>): (rows: seq<seq<real>>)
    ensures |rows| == |ms| && forall i :: 0 <= i < |ms| ==> rows[i] == ms[i].vel
  {
    seq(|ms|, i requires 0 <= i < |ms| => ms[i].vel)
  }

  function Accelerations(ms: seq<Mass>): (rows: seq<seq<real>>)
    ensures |rows| == |ms| && forall i :: 0 <= i < |ms| ==> rows[i] == ms[i].acc
  {
    seq(|ms|, i requires 0 <= i < |ms| => ms[i].acc)
  }

  /** The masses after `setState(x, dx, ddx)`: row i of each packed vector
      becomes the position, velocity and acceleration of mass i; the mass
      values stay. */
  function WithState(ms: seq<Mass>, D: nat, x: seq<real>, dx: seq<real>, ddx: seq<real>)
    : (r: seq<Mass>)
    requires |x| == |dx| == |ddx| == |ms| * D
    ensures |r| == |ms|
    ensures forall i :: 0 <= i < |ms| ==> r[i].mass == ms[i].mass && MassFits(r[i], D)
  {
    var X, DX, DDX := Unflatten(x, |ms|, D), Unflatten(dx, |ms|, D), Unflatten(ddx, |ms|, D);
    seq(|ms|, i requires 0 <= i < |ms| => ms[i].(pos := X[i], vel := DX[i], acc := DDX[i]))
  }

  /** `getState` after `setState` gives back the three vectors, and the mass
      values are untouched. */
  lemma GetAfterSet(ms: seq<Mass>, D: nat, x: seq<real>, dx: seq<real>, ddx: seq<real>)
    requires |x| == |dx| == |ddx| == |ms| * D
    ensures var r := WithState(ms, D, x, dx, ddx);
            Flatten(Positions(r)) == x && Flatten(Velocities(r)) == dx && Flatten(Accelerations(r)) == ddx
            && forall i :: 0 <= i < |ms| ==> r[i].mass == ms[i].mass && MassFits(r[i], D)
  {
    var r := WithState(ms, D, x, dx, ddx);
    assert Positions(r) == Unflatten(x, |ms|, D);
    assert Velocities(r) == Unflatten(dx, |ms|, D);
    assert Accelerations(r) == Unflatten(ddx, |ms|, D);
    FlattenUnflatten(x, |ms|, D);
    FlattenUnflatten(dx, |ms|, D);
    FlattenUnflatten(ddx, |ms|, D);
  }

  /** A mass added with the default velocity and acceleration packs as one
      more row: its position after the earlier positions, and D zeros after
      the earlier velocities and accelerations. */
  lemma NewMassAtRest(ms: seq<Mass>, mass: real, pos: seq<real>)
    ensures var ms' := ms + [MassAt(mass, pos)];
            Flatten(Positions(ms')) == Flatten(Positions(ms)) + pos
            && Flatten(Velocities(ms')) == Flatten(Velocities(ms)) + Zeros(|pos|)
            && Flatten(Accelerations(ms')) == Flatten(Accelerations(ms)) + Zeros(|pos|)
  {
    var ms' := ms + [MassAt(mass, pos)];
    assert Positions(ms')[..|ms|] == Positions(ms);
    assert Velocities(ms')[..|ms|] == Velocities(ms);
    assert Accelerations(ms')[..|ms|] == Accelerations(ms);
  }

  /** `setState` with what `getState` returned changes nothing. */
  lemma SetAfterGet(ms: seq<Mass>, D: nat)
    requires forall i :: 0 <= i < |ms| ==> MassFits(ms[i], D)
    ensures |Flatten(Positions(ms))| == |Flatten(Velocities(ms))| == |Flatten(Accelerations(ms))| == |ms| * D
    ensures WithState(ms, D, Flatten(Positions(ms)), Flatten(Velocities(ms)), Flatten(Accelerations(ms))) == ms
  {
    UnflattenFlatten(Positions(ms), D);
    UnflattenFlatten(Velocities(ms), D);
    UnflattenFlatten(Accelerations(ms), D);
  }

  // ---------------------------------------------------------------------
  // The container

  /** The contents of a mass-spring system at one moment. */
  datatype SystemState = SystemState(D: nat, fixes: seq<Fix>, masses: seq<Mass>, springs: seq<Spring>,
                                     constraints: seq<DistanceConstraint>, gravity: seq<real>)
  {
    /** Every stored vector is a D-vector (the source's `Vec<D>`). */
    predicate Fits()
    {
      |gravity| == D
      && (forall i :: 0 <= i < |fixes| ==> |fixes[i].pos| == D)
      && (forall i :: 0 <= i < |masses| ==> MassFits(masses[i], D))
    }

    /** The connector refers to an existing fix or mass. */
    predicate Refers(c: Connector)
    {
      match c.kind
      case FIX => c.nr < |fixes|
      case MASS => c.nr < |masses|
    }

    /** Every spring and every constraint joins existing elements. */
    predicate Connected()
    {
      (forall k :: 0 <= k < |springs| ==> Refers(springs[k].c1) && Refers(springs[k].c2))
      && (forall k :: 0 <= k < |constraints| ==> Refers(constraints[k].c1) && Refers(constraints[k].c2))
    }
  }

  /** `MassSpringSystem<D>`: the lists grow only by the add methods. */
  class MassSpringSystem {
    const D: nat
    var fixes: seq<Fix>
    var masses: seq<Mass>
    var springs: seq<Spring>
    var constraints: seq<DistanceConstraint>
    var gravity: seq<real>

    /** The current contents. */
    function State(): SystemState
      reads this
    {
      SystemState(D, fixes, masses, springs, constraints, gravity)
    }

    /** Every stored vector is a D-vector. */
    predicate Valid()
      reads this
    {
      State().Fits()
    }

    /** An empty system without gravity. */
    constructor (D: nat)
      ensures this.D == D && Valid()
      ensures fixes == [] && masses == [] && springs == [] && constraints == []
      ensures gravity == Zeros(D)
    {
      this.D := D;
      fixes, masses, springs, constraints := [], [], [], [];
      gravity := Zeros(D);
    }

    /** `addDistanceConstraint(c1, c2, length)`. */
    method AddDistanceConstraint(c1: Connector, c2: Connector, length: real)
      modifies this
      ensures constraints == old(constraints) + [DistanceConstraint(c1, c2, length)]
      ensures fixes == old(fixes) && masses == old(masses) && springs == old(springs)
      ensures gravity == old(gravity)
    {
      constraints := constraints + [DistanceConstraint(c1, c2, length)];
    }

    /** `setGravity(g)`. */
    method SetGravity(g: seq<real>)
      requires |g| == D
      modifies this
      ensures old(Valid()) ==> Valid()
      ensures GetGravity() == g
      ensures fixes == old(fixes) && masses == old(masses) && springs == old(springs)
      ensures constraints == old(constraints)
    {
      gravity := g;
    }

    /** `getGravity()`. */
    function GetGravity(): seq<real>
      reads this
    {
      gravity
    }

    /** `addFix(p)`: appends p and returns the handle of the new fix. */
    method AddFix(p: Fix) returns (c: Connector)
      requires |p.pos| == D
      modifies this
      ensures old(Valid()) ==> Valid()
      ensures fixes == old(fixes) + [p]
      ensures c == Connector(FIX, |old(fixes)|) && State().Refers(c) && fixes[c.nr] == p
      ensures masses == old(masses) && springs == old(springs) && constraints == old(constraints)
      ensures gravity == old(gravity)
    {
      fixes := fixes + [p];
      c := Connector(FIX, |fixes| - 1);
    }

    /** `addMass(m)`: appends m and returns the handle of the new mass. */
    method AddMass(m: Mass) returns (c: Connector)
      requires MassFits(m, D)
      modifies this
      ensures old(Valid()) ==> Valid()
      ensures masses == old(masses) + [m]
      ensures c == Connector(MASS, |old(masses)|) && State().Refers(c) && masses[c.nr] == m
      ensures fixes == old(fixes) && springs == old(springs) && constraints == old(constraints)
      ensures gravity == old(gravity)
    {
      masses := masses + [m];
      c := Connector(MASS, |masses| - 1);
    }

    /** `addSpring(s)`: appends s and returns its index. */
    method AddSpring(s: Spring) returns (k: nat)
      modifies this
      ensures springs == old(springs) + [s]
      ensures k == |old(springs)| && springs[k] == s
      ensures fixes == old(fixes) && masses == old(masses) && constraints == old(constraints)
      ensures gravity == old(gravity)
    {
      springs := springs + [s];
      k := |springs| - 1;
    }

    /** `getState(values, dvalues, ddvalues)`: row i of each packed vector
        receives the position, velocity and acceleration of mass i. */
    method GetState(values: array<real>, dvalues: array<real>, ddvalues: array<real>)
      requires Valid()
      requires values.Length == dvalues.Length == ddvalues.Length == |masses| * D
      requires values != dvalues && values != ddvalues && dvalues != ddvalues
      modifies values, dvalues, ddvalues
      ensures values[..] == Flatten(Positions(masses))
      ensures dvalues[..] == Flatten(Velocities(masses))
      ensures ddvalues[..] == Flatten(Accelerations(masses))
    {
      var n := |masses|;
      var P, V, Acc := Positions(masses), Velocities(masses), Accelerations(masses);
      for i := 0 to n
        invariant i * D <= n * D
        invariant values[..i * D] == Flatten(P[..i])
        invariant dvalues[..i * D] == Flatten(V[..i])
        invariant ddvalues[..i * D] == Flatten(Acc[..i])
      {
        MulMono(i + 1, n, D);
        var off := i * D;
        assert (i + 1) * D == off + D;
        FlattenSnoc(P, i);
        FlattenSnoc(V, i);
        FlattenSnoc(Acc, i);
        SetRow(values, i, D, masses[i].pos);
        SetRow(dvalues, i, D, masses[i].vel);
        SetRow(ddvalues, i, D, masses[i].acc);
      }
      assert P[..n] == P && V[..n] == V && Acc[..n] == Acc;
    }

    /** `setState(values, dvalues, ddvalues)`: mass i takes row i of each
        packed vector as its position, velocity and acceleration. */
    method SetState(values: array<real>, dvalues: array<real>, ddvalues: array<real>)
      requires values.Length == dvalues.Length == ddvalues.Length == |masses| * D
      modifies this
      ensures masses == WithState(old(masses), D, values[..], dvalues[..], ddvalues[..])
      ensures fixes == old(fixes) && springs == old(springs) && constraints == old(constraints)
      ensures gravity == old(gravity)
    {
      var n := |masses|;
      ghost var W := WithState(masses, D, values[..], dvalues[..], ddvalues[..]);
      ghost var ms0 := masses;
      var ms := masses;
      for i := 0 to n
        modifies {}
        invariant |ms| == n
        invariant forall k :: 0 <= k < i ==> ms[k] == W[k]
        invariant forall k :: i <= k < n ==> ms[k] == ms0[k]
      {
        var lo := i * D;
        WithStateAt(ms0, D, values[..], dvalues[..], ddvalues[..], i, lo);
        ms := ms[i := ms[i].(pos := values[lo..lo + D], vel := dvalues[lo..lo + D], acc := ddvalues[lo..lo + D])];
      }
      masses := ms;
      assert masses == W;
    }
  }

  /** Mass i after `setState` takes the slices at i * D. */
  lemma WithStateAt(ms: seq<Mass>, D: nat, x: seq<real>, dx: seq<real>, ddx: seq<real>, i: nat, lo: nat)
    requires |x| == |dx| == |ddx| == |ms| * D && i < |ms| && lo == i * D
    ensures lo + D <= |x|
    ensures WithState(ms, D, x, dx, ddx)[i]
            == ms[i].(pos := x[lo..lo + D], vel := dx[lo..lo + D], acc := ddx[lo..lo + D])
  {
    var n := |ms|;
    RowOfUnflatten(x, n, D, i);
    RowOfUnflatten(dx, n, D, i);
    RowOfUnflatten(ddx, n, D, i);
  }

  /** Packing one more row appends it. */
  lemma FlattenSnoc(rows: seq<seq<real>>, i: nat)
    requires i < |rows|
    ensures Flatten(rows[..i + 1]) == Flatten(rows[..i]) + rows[i]
  {
    assert rows[..i + 1][..i] == rows[..i];
  }

  /** Row i of the cut vector is the slice at i * D. */
  lemma {:induction false} RowOfUnflatten(x: seq<real>, n: nat, D: nat, i: nat)
    requires |x| == n * D && i < n
    ensures i * D + D <= |x|
    ensures Unflatten(x, n, D)[i] == x[i * D..i * D + D]
  {
    MulMono(i + 1, n, D);
    if i < n - 1 {
      MulMono(i + 1, n - 1, D);
      RowOfUnflatten(x[..(n - 1) * D], n - 1, D, i);
    }
  }

  /** Writes row i (entries i * D .. i * D + D - 1) of a packed buffer. */
  method SetRow(dst: array<real>, i: nat, D: nat, row: seq<real>)
    requires |row| == D && i * D + D <= dst.Length
    modifies dst
    ensures dst[..i * D] == old(dst[..i * D])
    ensures dst[..i * D + D] == old(dst[..i * D]) + row
    ensures dst[i * D + D..] == old(dst[i * D + D..])
  {
    for d := 0 to D
      invariant dst[..i * D] == old(dst[..i * D])
      invariant dst[i * D + D..] == old(dst[i * D + D..])
      invariant forall e :: 0 <= e < d ==> dst[i * D + e] == row[e]
    {
      dst[i * D + d] := row[d];
    }
    assert dst[..i * D + D] == dst[..i * D] + dst[i * D..i * D + D];
  }
}
