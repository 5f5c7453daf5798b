/** Three-dimensional real vectors, the row type of every (N, 3) tensor of the
    simulator, and the exact square root that the model uses in place of
    `torch.sqrt`. */
module Vectors {

  datatype Vec3 = Vec3(x: real, y: real, z: real) {

    /** Component `d` of the vector (column `d` of a tensor row). */
    function At(d: nat): real
      requires d < 3
    {
      if d == 0 then x else if d == 1 then y else z
    }

    /** The vector with component `d` replaced by `v`; the others are kept. */
    function With(d: nat, v: real): (r: Vec3)
      requires d < 3
      ensures r.At(d) == v
      ensures forall e :: 0 <= e < 3 && e != d ==> r.At(e) == At(e)
    {
      if d == 0 then Vec3(v, y, z) else if d == 1 then Vec3(x, v, z) else Vec3(x, y, v)
    }
  }

  const Zero := Vec3(0.0, 0.0, 0.0)

  function Add(a: Vec3, b: Vec3): Vec3 {
    Vec3(a.x + b.x, a.y + b.y, a.z + b.z)
  }

  function Sub(a: Vec3, b: Vec3): Vec3 {
    Vec3(a.x - b.x, a.y - b.y, a.z - b.z)
  }

  /** Scalar times vector, `vec * c` of a tensor. */
  function Scale(a: Vec3, c: real): Vec3 {
    Vec3(a.x * c, a.y * c, a.z * c)
  }

  /** Vector divided component-wise by a scalar, `vec / c` of a tensor. */
  function Div(a: Vec3, c: real): Vec3
    requires c != 0.0
  {
    Vec3(a.x / c, a.y / c, a.z / c)
  }

  function Dot(a: Vec3, b: Vec3): real {
    a.x * b.x + a.y * b.y + a.z * b.z
  }

  function Min(a: int, b: int): int {
    if a <= b then a else b
  }

  function MaxReal(a: real, b: real): real {
    if a >= b then a else b
  }

  /** `sqrt` is an exact square root on the non-negative reals. Every
      square root of the simulator is a call of such a function. */
  ghost predicate IsSqrtFn(sqrt: real -> real) {
    forall x: real {:trigger sqrt(x)} :: x >= 0.0 ==> sqrt(x) >= 0.0 && sqrt(x) * sqrt(x) == x
  }

  /** Euclidean length, `torch.norm` over the last dimension. */
  function Norm(a: Vec3, sqrt: real -> real): (r: real)
    ensures IsSqrtFn(sqrt) ==> r >= 0.0
  {
    DotSelfNonNegative(a);
    sqrt(Dot(a, a))
  }

  function Sq(v: real): real {
    v * v
  }

  /** A square is non-negative, and positive unless its root is zero. */
  lemma SqNonNegative(v: real)
    ensures Sq(v) >= 0.0
    ensures v != 0.0 ==> Sq(v) > 0.0
  {
    if v < 0.0 {
      var w := -v;
      assert w * w > 0.0;
      calc { Sq(v); == v * v; == w * w; > 0.0; }
    } else if v > 0.0 {
      calc { Sq(v); == v * v; > 0.0; }
    } else {
      calc { Sq(v); == 0.0 * 0.0; == 0.0; }
    }
  }

  /** The squared length is non-negative, and zero only for the zero vector. */
  lemma DotSelfNonNegative(a: Vec3)
    ensures Dot(a, a) >= 0.0
    ensures a != Zero ==> Dot(a, a) > 0.0
  {
    SqNonNegative(a.x);
    SqNonNegative(a.y);
    SqNonNegative(a.z);
    assert Dot(a, a) == Sq(a.x) + Sq(a.y) + Sq(a.z);
  }

  lemma SqrtOfZero(sqrt: real -> real)
    requires IsSqrtFn(sqrt)
    ensures sqrt(0.0) == 0.0
  {
    var s := sqrt(0.0);
    assert s >= 0.0 && s * s == 0.0;
    if s > 0.0 {
      calc { 0.0; == s * s; > 0.0; }
    }
  }

  lemma SqrtOfPositive(sqrt: real -> real, a: real)
    requires IsSqrtFn(sqrt) && a > 0.0
    ensures sqrt(a) > 0.0
  {
    var s := sqrt(a);
    assert s >= 0.0 && s * s == a;
    calc { s * s; == a; > 0.0; }
  }

  lemma SqrtOfOne(sqrt: real -> real)
    requires IsSqrtFn(sqrt)
    ensures sqrt(1.0) == 1.0
  {
    var s := sqrt(1.0);
    assert s >= 0.0 && s * s == 1.0;
    var d, t := s - 1.0, s + 1.0;
    calc { d * t; == s * s - 1.0; == 0.0; }
    calc { d; == (d * t) / t; == 0.0 / t; == 0.0; }
  }

  /** A vector has length zero exactly when it is the zero vector. */
  lemma NormZeroIff(a: Vec3, sqrt: real -> real)
    requires IsSqrtFn(sqrt)
    ensures Norm(a, sqrt) == 0.0 <==> a == Zero
  {
    DotSelfNonNegative(a);
    if a == Zero {
      assert Dot(a, a) == 0.0;
      SqrtOfZero(sqrt);
    } else {
      SqrtOfPositive(sqrt, Dot(a, a));
    }
  }

  /** The sum of a sequence of reals, `torch.sum` over one dimension. */
  function Sum(xs: seq<real>): real {
    if xs == [] then 0.0 else xs[0] + Sum(xs[1..])
  }

  /** Every entry multiplied by `k`. */
  function ScaleReals(xs: seq<real>, k: real): (r: seq<real>)
    ensures |r| == |xs|
  {
    seq(|xs|, i requires 0 <= i < |xs| => k * xs[i])
  }

  lemma {:induction false} SumNonNegative(xs: seq<real>)
    requires forall i :: 0 <= i < |xs| ==> xs[i] >= 0.0
    ensures Sum(xs) >= 0.0
  {
    if xs != [] {
      SumNonNegative(xs[1..]);
    }
  }

  lemma {:induction false} SumOfZeros(xs: seq<real>)
    requires forall i :: 0 <= i < |xs| ==> xs[i] == 0.0
    ensures Sum(xs) == 0.0
  {
    if xs != [] {
      SumOfZeros(xs[1..]);
    }
  }

  /** Multiplying every entry by `k` multiplies the sum by `k`. */
  lemma {:induction false} SumScaled(xs: seq<real>, k: real)
    ensures Sum(ScaleReals(xs, k)) == k * Sum(xs)
  {
    if xs != [] {
      var ys, zs := ScaleReals(xs, k), ScaleReals(xs[1..], k);
      forall i | 0 <= i < |zs| ensures ys[1..][i] == zs[i] {
        assert ys[1..][i] == ys[i + 1] == k * xs[i + 1];
        assert zs[i] == k * xs[1..][i];
      }
      assert ys[1..] == zs;
      SumScaled(xs[1..], k);
    }
  }
}
