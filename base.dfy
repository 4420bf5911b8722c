// Shared value types of the Grafiquitas rasterizer: optional values, small
// vectors, colours, the symbolic matrix algebra, the pipeline enums, and the
// C++ arithmetic conventions (truncating division and float-to-int casts).

module Base {

  datatype Option<T> = None | Some(value: T)

  /** The end of an operation: done, or a fatal error (RePiLog at eERROR throws). */
  datatype Outcome = Done | Fatal(message: string)

  /** Integer pixel coordinate (RePiInt2). */
  datatype Int2 = Int2(x: int, y: int)

  /** Float vectors; floats are modelled as mathematical reals. */
  datatype Float2 = Float2(x: real, y: real)
  datatype Float3 = Float3(x: real, y: real, z: real)
  datatype Float4 = Float4(x: real, y: real, z: real, w: real)

  const ZeroFloat4 := Float4(0.0, 0.0, 0.0, 0.0)

  /** An 8-bit-per-channel colour (RePiColor). */
  datatype Color = Color(r: bv8, g: bv8, b: bv8, a: bv8)

  /** The colour library's opaque black, assumed fully opaque. */
  const Black := Color(0, 0, 0, 255)

  /** Primitive topology of an index buffer (RePiTopology). */
  datatype Topology =
    | Undefined
    | PointList
    | LineList
    | LineStrip
    | TriangleList
    | TriangleStrip

  /** Winding of a triangle in screen space. */
  datatype Orientation = CW | CCW | Collinear

  /** Rasterizer cull mode. */
  datatype CullMode = CullNone | CullFront | CullBack

  /** An interpolation fraction (t - t0) / (t1 - t0), kept unevaluated. */
  datatype Fraction = Fraction(t: real, t0: real, t1: real)

  /** A 3-vector: either literal or the symbolic lerp of two others. */
  datatype Vector3 =
    | Vec(v: Float3)
    | Lerp(from: Vector3, to: Vector3, f: Fraction)

  /** A rotation quaternion: literal or the symbolic slerp of two others. */
  datatype Quaternion =
    | Quat(q: Float4)
    | Slerp(from: Quaternion, to: Quaternion, f: Fraction)

  /**
   * A 4x4 matrix as a term of the matrix algebra.  The product `Mul` and the
   * constructors from scale, rotation and translation are left uninterpreted:
   * the rasterizer's bookkeeping only routes matrices, it never inspects them.
   */
  datatype Matrix =
    | Entries(m: seq<real>)
    | Identity
    | Mul(lhs: Matrix, rhs: Matrix)
    | ScaleM(s: Vector3)
    | RotationM(q: Quaternion)
    | TranslationM(t: Vector3)

  const ZeroMatrix := Entries(seq(16, _ => 0.0))

  function Abs(x: int): (r: nat)
    ensures r == x || r == -x
  {
    if x < 0 then -x else x
  }

  function Min(a: int, b: int): (r: int)
    ensures r <= a && r <= b && (r == a || r == b)
  {
    if a < b then a else b
  }

  function Max(a: int, b: int): (r: int)
    ensures r >= a && r >= b && (r == a || r == b)
  {
    if a > b then a else b
  }

  /** C++ integer division: the quotient is truncated toward zero. */
  function TDiv(p: int, q: int): (r: int)
    requires q != 0
    ensures p >= 0 && q > 0 ==> r == p / q
  {
    if (p >= 0) == (q > 0) then Abs(p) / Abs(q) else -(Abs(p) / Abs(q))
  }

  /** A C++ cast of a float to an integer: truncation toward zero. */
  function Trunc(x: real): (r: int)
    ensures x >= 0.0 ==> r as real <= x < r as real + 1.0
    ensures x < 0.0 ==> r as real - 1.0 < x <= r as real
  {
    if x >= 0.0 then x.Floor else -((-x).Floor)
  }

  /** C's fmod(x, m) for m > 0: the remainder takes the sign of x. */
  function FMod(x: real, m: real): (r: real)
    requires m > 0.0
    ensures x >= 0.0 ==> 0.0 <= r < m
    ensures x < 0.0 ==> -m < r <= 0.0
  {
    var q := x / m;
    var k := Trunc(q);
    FModBounds(x, m, q, k);
    x - k as real * m
  }

  lemma FModBounds(x: real, m: real, q: real, k: int)
    requires m > 0.0 && q == x / m && k == Trunc(q)
    ensures x >= 0.0 ==> 0.0 <= x - k as real * m < m
    ensures x < 0.0 ==> -m < x - k as real * m <= 0.0
  {
    assert q * m == x;
    if x >= 0.0 {
      if q < 0.0 { MulLtReal(q, 0.0, m); }
      FModNonnegative(x, m, q, k as real);
    } else {
      if q >= 0.0 { MulLeReal(0.0, q, m); }
      FModNegative(x, m, q, k as real);
    }
  }

  lemma FModNonnegative(x: real, m: real, q: real, kr: real)
    requires m > 0.0 && q * m == x && kr <= q < kr + 1.0
    ensures 0.0 <= x - kr * m < m
  {
    var f := q - kr;
    assert x - kr * m == f * m;
    MulLeReal(0.0, f, m);
    assert 0.0 <= f * m;
    MulLtReal(f, 1.0, m);
    assert f * m < m;
  }

  lemma FModNegative(x: real, m: real, q: real, kr: real)
    requires m > 0.0 && q * m == x && kr - 1.0 < q <= kr
    ensures -m < x - kr * m <= 0.0
  {
    var f := kr - q;
    assert x - kr * m == -(f * m);
    MulLeReal(0.0, f, m);
    assert 0.0 <= f * m;
    MulLtReal(f, 1.0, m);
    assert f * m < m;
  }

  lemma MulLeReal(a: real, b: real, m: real)
    requires m > 0.0 && a <= b
    ensures a * m <= b * m
  {
  }

  lemma MulLtReal(a: real, b: real, m: real)
    requires m > 0.0 && a < b
    ensures a * m < b * m
  {
  }

  /** Float division; a zero divisor yields 0 instead of an IEEE infinity. */
  function FDiv(a: real, b: real): (r: real)
    ensures b != 0.0 ==> r * b == a
  {
    if b == 0.0 then 0.0 else a / b
  }

  // Small facts of multiplication, stated once so that callers need not ask
  // the solver for nonlinear reasoning in a large context.  They are used by
  // the pixel-offset, BMP row and decode proofs of Imaging, the sample-index
  // bounds of Texturing, the intersection bounds of Clipping and the step
  // count of Lines.

  lemma MulLe(a: int, b: int, c: nat)
    requires a <= b
    ensures a * c <= b * c
  {
  }

  lemma MulSucc(a: int, c: int)
    ensures (a + 1) * c == a * c + c
  {
  }

  lemma MulComm(a: int, b: int)
    ensures a * b == b * a
  {
  }
}
