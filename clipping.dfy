// Viewport mapping, region codes and Cohen-Sutherland line clipping of the
// rasterizer stage (RePiRasterizerStage.cpp).

module Clipping {
  import opened Base

  // ---------------------------------------------------------------------
  // Clip space to pixels.
  // ---------------------------------------------------------------------

  /** Clip-space x, y in [-1, 1] to texture coordinates, y pointing down. */
  function ClipToUV(clip: Float4): (uv: Float2)
    ensures -1.0 <= clip.x <= 1.0 ==> 0.0 <= uv.x <= 1.0
    ensures -1.0 <= clip.y <= 1.0 ==> 0.0 <= uv.y <= 1.0
    ensures clip.x == -1.0 ==> uv.x == 0.0
    ensures clip.y == 1.0 ==> uv.y == 0.0
  {
    Float2(0.5 * (clip.x + 1.0), 0.5 * (1.0 - clip.y))
  }

  /**
   * Clip space to a pixel: the texture coordinates scaled by size - 1 and
   * cast to int32 (truncation toward zero).
   */
  function ClipToXY(clip: Float4, size: Int2): Int2
  {
    var uv := ClipToUV(clip);
    Int2(Trunc(uv.x * (size.x - 1) as real), Trunc(uv.y * (size.y - 1) as real))
  }

  /** A clip-space point inside [-1, 1] lands on a pixel of a nonempty viewport. */
  lemma ClipToXYInViewport(clip: Float4, size: Int2)
    requires -1.0 <= clip.x <= 1.0 && -1.0 <= clip.y <= 1.0
    requires size.x >= 1 && size.y >= 1
    ensures var p := ClipToXY(clip, size);
            0 <= p.x <= size.x - 1 && 0 <= p.y <= size.y - 1
  {
    var uv := ClipToUV(clip);
    assert 0.0 <= uv.x <= 1.0 && 0.0 <= uv.y <= 1.0;
    ScaledInRange(uv.x, size.x - 1);
    ScaledInRange(uv.y, size.y - 1);
  }

  /** A coordinate in [0, 1] scaled by n and truncated lies in 0..n. */
  lemma ScaledInRange(u: real, n: int)
    requires 0.0 <= u <= 1.0 && n >= 0
    ensures 0 <= Trunc(u * n as real) <= n
  {
    ScaleUnit(u, n as real);
    TruncBelow(u * n as real, n);
  }

  lemma TruncBelow(v: real, n: int)
    requires 0.0 <= v <= n as real
    ensures 0 <= Trunc(v) <= n
  {
  }

  lemma ScaleUnit(u: real, m: real)
    requires 0.0 <= u <= 1.0 && m >= 0.0
    ensures 0.0 <= u * m <= m
  {
    MulLeReal(0.0, u, m + 1.0);
    assert u * m <= 1.0 * m by {
      if m > 0.0 { MulLeReal(u, 1.0, m); }
    }
  }

  // ---------------------------------------------------------------------
  // Region codes.
  // ---------------------------------------------------------------------

  const Inside: bv32 := 0
  const Left: bv32 := 1
  const Right: bv32 := 2
  const Bottom: bv32 := 4
  const Top: bv32 := 8

  /** p lies in the closed rectangle [lo, hi]. */
  predicate InBox(p: Int2, lo: Int2, hi: Int2)
  {
    lo.x <= p.x <= hi.x && lo.y <= p.y <= hi.y
  }

  /**
   * The region code of p: LEFT or else RIGHT for x, BOTTOM or else TOP for
   * y; zero exactly inside the closed rectangle.
   */
  function RegionCode(p: Int2, lo: Int2, hi: Int2): (code: bv32)
    ensures code & Left != 0 <==> p.x < lo.x
    ensures code & Right != 0 <==> !(p.x < lo.x) && p.x > hi.x
    ensures code & Bottom != 0 <==> p.y < lo.y
    ensures code & Top != 0 <==> !(p.y < lo.y) && p.y > hi.y
    ensures code & !(Left | Right | Bottom | Top) == 0
    ensures code == Inside <==> InBox(p, lo, hi)
  {
    var code := Inside;
    var code := if p.x < lo.x then code | Left else if p.x > hi.x then code | Right else code;
    if p.y < lo.y then code | Bottom else if p.y > hi.y then code | Top else code
  }

  /** Both points lie beyond the same edge of the rectangle. */
  predicate SharedSide(p: Int2, q: Int2, lo: Int2, hi: Int2)
  {
    || (p.x < lo.x && q.x < lo.x)
    || (p.x > hi.x && q.x > hi.x)
    || (p.y < lo.y && q.y < lo.y)
    || (p.y > hi.y && q.y > hi.y)
  }

  /** Two region codes share a bit exactly when the points share a side. */
  lemma SharedBits(p: Int2, q: Int2, lo: Int2, hi: Int2)
    requires lo.x <= hi.x && lo.y <= hi.y
    ensures RegionCode(p, lo, hi) & RegionCode(q, lo, hi) != 0 <==> SharedSide(p, q, lo, hi)
  {
  }

  // ---------------------------------------------------------------------
  // One clipping step.
  // ---------------------------------------------------------------------

  /** A state in which ClipLine moves an endpoint: codes disjoint, not both zero. */
  predicate Clipping(p0: Int2, p1: Int2, lo: Int2, hi: Int2)
  {
    && lo.x <= hi.x && lo.y <= hi.y
    && RegionCode(p0, lo, hi) | RegionCode(p1, lo, hi) != 0
    && RegionCode(p0, lo, hi) & RegionCode(p1, lo, hi) == 0
  }

  /** The code of the endpoint that is moved: p0's when nonzero, else p1's. */
  function OutCode(p0: Int2, p1: Int2, lo: Int2, hi: Int2): bv32
  {
    var code0 := RegionCode(p0, lo, hi);
    if code0 != 0 then code0 else RegionCode(p1, lo, hi)
  }

  /**
   * The intersection of the segment with the edge named by the out code's
   * highest-priority bit (TOP, BOTTOM, LEFT, RIGHT), with C++ truncating
   * division.  The divisor is never zero: the out code's bit is absent from
   * the other endpoint's code.
   */
  function Intersection(p0: Int2, p1: Int2, lo: Int2, hi: Int2): (n: Int2)
    requires Clipping(p0, p1, lo, hi)
  {
    var codeOut := OutCode(p0, p1, lo, hi);
    if codeOut & Top != 0 then
      Int2(p0.x + TDiv((p1.x - p0.x) * (hi.y - p0.y), p1.y - p0.y), hi.y)
    else if codeOut & Bottom != 0 then
      Int2(p0.x + TDiv((p1.x - p0.x) * (lo.y - p0.y), p1.y - p0.y), lo.y)
    else if codeOut & Left != 0 then
      Int2(lo.x, p0.y + TDiv((p1.y - p0.y) * (lo.x - p0.x), p1.x - p0.x))
    else if codeOut & Right != 0 then
      Int2(hi.x, p0.y + TDiv((p1.y - p0.y) * (hi.x - p0.x), p1.x - p0.x))
    else
      Int2(0, 0)
  }

  predicate Between(v: int, a: int, b: int)
  {
    (a <= v <= b) || (b <= v <= a)
  }

  /** A truncated fraction b / c in [0, 1] of a lies between 0 and a. */
  lemma ScaledBetween(a: int, b: int, c: int)
    requires c != 0 && (0 <= b <= c || c <= b <= 0)
    ensures Between(TDiv(a * b, c), 0, a)
  {
    var p := a * b;
    AbsMul(a, b);
    ProductBounded(Abs(a), Abs(b), Abs(c));
    ProductSign(a, b, c);
  }

  lemma AbsMul(a: int, b: int)
    ensures Abs(a * b) == Abs(a) * Abs(b)
  {
    if a < 0 && b < 0 { assert a * b == (-a) * (-b); }
    else if a < 0 { assert -(a * b) == (-a) * b; }
    else if b < 0 { assert -(a * b) == a * (-b); }
  }

  /** (a * b) / c <= a when b <= c. */
  lemma ProductBounded(a: nat, b: nat, c: nat)
    requires 0 < c && b <= c
    ensures (a * b) / c <= a
  {
    MulLe(b, c, a);
    MulComm(b, a);
    MulComm(c, a);
    DivLe(a * b, a * c, c);
    MulDivCancel(a, c);
  }

  lemma MulDivCancel(a: nat, c: nat)
    requires c > 0
    ensures (a * c) / c == a
  {
    var q := (a * c) / c;
    if q < a {
      MulLe(q + 1, a, c);
      MulSucc(q, c);
    } else if q > a {
      MulLe(a + 1, q, c);
      MulSucc(a, c);
    }
  }

  lemma MulSign(a: int, b: int)
    ensures (a > 0 && b > 0) || (a < 0 && b < 0) ==> a * b > 0
    ensures (a > 0 && b < 0) || (a < 0 && b > 0) ==> a * b < 0
    ensures a == 0 || b == 0 ==> a * b == 0
  {
  }

  /** The quotient's sign: nonnegative when a >= 0, nonpositive when a < 0. */
  lemma ProductSign(a: int, b: int, c: int)
    requires c != 0 && (0 <= b <= c || c <= b <= 0)
    ensures a >= 0 ==> TDiv(a * b, c) >= 0
    ensures a < 0 ==> TDiv(a * b, c) <= 0
  {
    MulSign(a, b);
    TDivSign(a * b, c);
  }

  lemma TDivSign(p: int, c: int)
    requires c != 0
    ensures (p >= 0) == (c > 0) ==> TDiv(p, c) >= 0
    ensures p == 0 ==> TDiv(p, c) == 0
    ensures (p >= 0) != (c > 0) ==> TDiv(p, c) <= 0
  {
    DivNonneg(Abs(p), Abs(c));
  }

  lemma DivNonneg(x: nat, y: nat)
    requires y > 0
    ensures x / y >= 0
    ensures x == 0 ==> x / y == 0
  {
  }

  lemma DivLe(p: nat, m: nat, c: nat)
    requires c > 0 && p <= m
    ensures p / c <= m / c
  {
    var qp := p / c;
    var qm := m / c;
    if qp > qm {
      MulLe(qm + 1, qp, c);
      MulSucc(qm, c);
    }
  }

  /**
   * The new point lies on the chosen edge and, in both coordinates,
   * between the two endpoints.
   */
  lemma IntersectionBetween(p0: Int2, p1: Int2, lo: Int2, hi: Int2)
    requires Clipping(p0, p1, lo, hi)
    ensures var n := Intersection(p0, p1, lo, hi);
            var o := if OutCode(p0, p1, lo, hi) == RegionCode(p0, lo, hi) then p0 else p1;
            && Between(n.x, p0.x, p1.x) && Between(n.y, p0.y, p1.y)
            && (|| (o.y > hi.y && n.y == hi.y)
                || (o.y < lo.y && n.y == lo.y)
                || (o.x < lo.x && n.x == lo.x)
                || (o.x > hi.x && n.x == hi.x))
  {
    var codeOut := OutCode(p0, p1, lo, hi);
    if codeOut & Top != 0 {
      ScaledBetween(p1.x - p0.x, hi.y - p0.y, p1.y - p0.y);
    } else if codeOut & Bottom != 0 {
      ScaledBetween(p1.x - p0.x, lo.y - p0.y, p1.y - p0.y);
    } else if codeOut & Left != 0 {
      ScaledBetween(p1.y - p0.y, lo.x - p0.x, p1.x - p0.x);
    } else {
      ScaledBetween(p1.y - p0.y, hi.x - p0.x, p1.x - p0.x);
    }
  }

  // ---------------------------------------------------------------------
  // Termination of the clipping loop.
  // ---------------------------------------------------------------------

  /** The number of bits in a point's region code. */
  function Outside(p: Int2, lo: Int2, hi: Int2): nat
  {
    (if p.x < lo.x || p.x > hi.x then 1 else 0) + (if p.y < lo.y || p.y > hi.y then 1 else 0)
  }

  /**
   * The loop's variant: each step removes a code bit, or moves the point
   * onto a side the other endpoint is already beyond, after which the loop
   * rejects.
   */
  function Measure(p0: Int2, p1: Int2, lo: Int2, hi: Int2): nat
  {
    2 * (Outside(p0, lo, hi) + Outside(p1, lo, hi)) + (if SharedSide(p0, p1, lo, hi) then 0 else 1)
  }

  lemma MovedPoint(o: Int2, q: Int2, n: Int2, lo: Int2, hi: Int2)
    requires lo.x <= hi.x && lo.y <= hi.y
    requires Between(n.x, o.x, q.x) && Between(n.y, o.y, q.y)
    requires || (o.y > hi.y && n.y == hi.y)
             || (o.y < lo.y && n.y == lo.y)
             || (o.x < lo.x && n.x == lo.x)
             || (o.x > hi.x && n.x == hi.x)
    ensures Outside(n, lo, hi) < Outside(o, lo, hi)
         || (Outside(n, lo, hi) <= Outside(o, lo, hi) && SharedSide(n, q, lo, hi))
  {
  }

  /** One clipping step decreases the variant. */
  lemma StepDecreases(p0: Int2, p1: Int2, lo: Int2, hi: Int2)
    requires Clipping(p0, p1, lo, hi)
    ensures var n := Intersection(p0, p1, lo, hi);
            if OutCode(p0, p1, lo, hi) == RegionCode(p0, lo, hi)
            then Measure(n, p1, lo, hi) < Measure(p0, p1, lo, hi)
            else Measure(p0, n, lo, hi) < Measure(p0, p1, lo, hi)
  {
    var n := Intersection(p0, p1, lo, hi);
    IntersectionBetween(p0, p1, lo, hi);
    SharedBits(p0, p1, lo, hi);
    if OutCode(p0, p1, lo, hi) == RegionCode(p0, lo, hi) {
      MovedPoint(p0, p1, n, lo, hi);
    } else {
      MovedPoint(p1, p0, n, lo, hi);
    }
  }

  // ---------------------------------------------------------------------
  // The clipping loop.
  // ---------------------------------------------------------------------

  datatype ClipResult = ClipResult(accepted: bool, p0: Int2, p1: Int2)

  /**
   * Cohen-Sutherland clipping: accept when both codes are zero, reject when
   * they share a bit, otherwise move the outside endpoint to the edge and
   * repeat.  An accepted segment lies in the rectangle; a rejected one has
   * both endpoints beyond one edge.
   */
  function ClipSpec(p0: Int2, p1: Int2, lo: Int2, hi: Int2): (r: ClipResult)
    requires lo.x <= hi.x && lo.y <= hi.y
    ensures r.accepted ==> InBox(r.p0, lo, hi) && InBox(r.p1, lo, hi)
    ensures !r.accepted ==> SharedSide(r.p0, r.p1, lo, hi)
    ensures RegionCode(p0, lo, hi) | RegionCode(p1, lo, hi) == 0 ==> r == ClipResult(true, p0, p1)
    ensures RegionCode(p0, lo, hi) & RegionCode(p1, lo, hi) != 0 ==> r == ClipResult(false, p0, p1)
    decreases Measure(p0, p1, lo, hi)
  {
    var code0 := RegionCode(p0, lo, hi);
    var code1 := RegionCode(p1, lo, hi);
    SharedBits(p0, p1, lo, hi);
    if code0 | code1 == 0 then
      ClipResult(true, p0, p1)
    else if code0 & code1 != 0 then
      ClipResult(false, p0, p1)
    else
      var n := Intersection(p0, p1, lo, hi);
      StepDecreases(p0, p1, lo, hi);
      if OutCode(p0, p1, lo, hi) == code0 then ClipSpec(n, p1, lo, hi) else ClipSpec(p0, n, lo, hi)
  }

  /**
   * ClipLine: the endpoints are updated in place until the codes are both
   * zero (accept) or share a bit (reject).
   */
  method ClipLine(xy0: Int2, xy1: Int2, lo: Int2, hi: Int2) returns (accepted: bool, p0: Int2, p1: Int2)
    requires lo.x <= hi.x && lo.y <= hi.y
    ensures ClipResult(accepted, p0, p1) == ClipSpec(xy0, xy1, lo, hi)
    ensures accepted ==> InBox(p0, lo, hi) && InBox(p1, lo, hi)
  {
    p0, p1 := xy0, xy1;
    var code0 := RegionCode(p0, lo, hi);
    var code1 := RegionCode(p1, lo, hi);
    while code0 | code1 != 0 && code0 & code1 == 0
      invariant code0 == RegionCode(p0, lo, hi) && code1 == RegionCode(p1, lo, hi)
      invariant ClipSpec(p0, p1, lo, hi) == ClipSpec(xy0, xy1, lo, hi)
      decreases Measure(p0, p1, lo, hi)
    {
      var codeOut := if code0 != 0 then code0 else code1;
      var n := Intersection(p0, p1, lo, hi);
      StepDecreases(p0, p1, lo, hi);
      if codeOut == code0 {
        p0 := n;
        code0 := RegionCode(p0, lo, hi);
      } else {
        p1 := n;
        code1 := RegionCode(p1, lo, hi);
      }
    }
    accepted := code0 | code1 == 0;
  }
}
