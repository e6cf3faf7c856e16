// Dense vectors over exact reals: the small part of the vector primitives
// (`Vector<>`, `VectorView<>`, `+=`, scalar `*`) that the steppers and the
// mass-spring system rely on.

module Vectors {

  datatype Option<T> = None | Some(value: T)

  /** The vector of length n whose entries are all 0.0 (`Vector<> v(n); v = 0.0`). */
  function Zeros(n: nat): (z: seq<real>)
    ensures |z| == n
    ensures forall i :: 0 <= i < n ==> z[i] == 0.0
  {
    seq(n, i => 0.0)
  }

  /** Entrywise sum x + y. */
  function Add(x: seq<real>, y: seq<real>): (r: seq<real>)
    requires |x| == |y|
    ensures |r| == |x|
    ensures forall i :: 0 <= i < |r| ==> r[i] == x[i] + y[i]
  {
    seq(|x|, i requires 0 <= i < |x| => x[i] + y[i])
  }

  /** Entrywise difference x - y. */
  function Sub(x: seq<real>, y: seq<real>): (r: seq<real>)
    requires |x| == |y|
    ensures |r| == |x|
    ensures forall i :: 0 <= i < |r| ==> r[i] == x[i] - y[i]
  {
    seq(|x|, i requires 0 <= i < |x| => x[i] - y[i])
  }

  /** The scalar multiple a * x. */
  function Scale(a: real, x: seq<real>): (r: seq<real>)
    ensures |r| == |x|
    ensures forall i :: 0 <= i < |r| ==> r[i] == a * x[i]
  {
    seq(|x|, i requires 0 <= i < |x| => a * x[i])
  }

  /** y + a * x, the value left in y by `y += a * x`. */
  function AddScaled(y: seq<real>, a: real, x: seq<real>): (r: seq<real>)
    requires |x| == |y|
    ensures |r| == |y|
    ensures forall i :: 0 <= i < |r| ==> r[i] == y[i] + a * x[i]
  {
    seq(|y|, i requires 0 <= i < |y| => y[i] + a * x[i])
  }

  /** The inner product of u and v, summed from the first entry to the last. */
  function Dot(u: seq<real>, v: seq<real>): real
    requires |u| == |v|
  {
    DotTo(u, v, |u|)
  }

  /** The sum of the first n products u[i] * v[i], in index order. */
  function DotTo(u: seq<real>, v: seq<real>, n: nat): real
    requires |u| == |v| && n <= |u|
  {
    if n == 0 then 0.0 else DotTo(u, v, n - 1) + u[n - 1] * v[n - 1]
  }

  /** Dot is linear in its second argument. */
  lemma DotAddScaled(u: seq<real>, v: seq<real>, a: real, w: seq<real>)
    requires |u| == |v| == |w|
    ensures Dot(u, AddScaled(v, a, w)) == Dot(u, v) + a * Dot(u, w)
  {
    DotToAddScaled(u, v, a, w, AddScaled(v, a, w), |u|);
  }

  /** DotAddScaled on the first n entries. */
  lemma {:induction false} DotToAddScaled(u: seq<real>, v: seq<real>, a: real, w: seq<real>, x: seq<real>, n: nat)
    requires |u| == |v| == |w| && n <= |u| && x == AddScaled(v, a, w)
    ensures DotTo(u, x, n) == DotTo(u, v, n) + a * DotTo(u, w, n)
  {
    if n > 0 {
      DotToAddScaled(u, v, a, w, x, n - 1);
      DistributeStep(DotTo(u, v, n - 1), DotTo(u, w, n - 1), DotTo(u, x, n - 1), a, u[n - 1], v[n - 1], w[n - 1], x[n - 1]);
    }
  }

  /** The induction step of DotToAddScaled, on the partial sums as plain numbers. */
  lemma DistributeStep(dv: real, dw: real, dx: real, a: real, un: real, vn: real, wn: real, xn: real)
    requires dx == dv + a * dw && xn == vn + a * wn
    ensures dx + un * xn == (dv + un * vn) + a * (dw + un * wn)
  {
  }

  /** Dot(u, a * u) scales Dot(u, u). */
  lemma DotScale(u: seq<real>, a: real)
    ensures Dot(u, Scale(a, u)) == a * Dot(u, u)
  {
    DotToScale(u, a, Scale(a, u), |u|);
  }

  /** DotScale on the first n entries. */
  lemma {:induction false} DotToScale(u: seq<real>, a: real, x: seq<real>, n: nat)
    requires n <= |u| && x == Scale(a, u)
    ensures DotTo(u, x, n) == a * DotTo(u, u, n)
  {
    if n > 0 {
      DotToScale(u, a, x, n - 1);
      ScaleStep(DotTo(u, u, n - 1), DotTo(u, x, n - 1), a, u[n - 1], x[n - 1]);
    }
  }

  /** The induction step of DotToScale, on the partial sums as plain numbers. */
  lemma ScaleStep(du: real, dx: real, a: real, un: real, xn: real)
    requires dx == a * du && xn == a * un
    ensures dx + un * xn == a * (du + un * un)
  {
  }

  /** Scaling twice scales by the product. */
  lemma ScaleScale(a: real, b: real, x: seq<real>)
    ensures Scale(a, Scale(b, x)) == Scale(b * a, x)
  {
    forall i | 0 <= i < |x| ensures Scale(a, Scale(b, x))[i] == Scale(b * a, x)[i] {
      assert a * (b * x[i]) == (b * a) * x[i];
    }
  }

  /** `dst = src`: copies a vector of the same length into a buffer. */
  method Assign(dst: array<real>, src: seq<real>)
    requires dst.Length == |src|
    modifies dst
    ensures dst[..] == src
  {
    for i := 0 to dst.Length
      invariant forall k :: 0 <= k < i ==> dst[k] == src[k]
    {
      dst[i] := src[i];
    }
  }

  /** `y += a * x` on a buffer. */
  method AddScaledInPlace(y: array<real>, a: real, x: seq<real>)
    requires y.Length == |x|
    modifies y
    ensures y[..] == AddScaled(old(y[..]), a, x)
  {
    for i := 0 to y.Length
      invariant forall k :: 0 <= k < i ==> y[k] == old(y[k]) + a * x[k]
      invariant forall k :: i <= k < y.Length ==> y[k] == old(y[k])
    {
      y[i] := y[i] + a * x[i];
    }
  }
}
