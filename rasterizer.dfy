// The rasterizer stage RePiRasterizerStage (RePiRasterizerStage.cpp): it
// takes bound triangle and line lists, maps clip-space positions to pixels,
// clips and walks lines with Bresenham's algorithm, splits triangles into
// flat-bottom and flat-top halves and fills them row by row, writing into
// the bound target texture.
//
// Every drawing method is specified by the list of pixel writes it makes
// (a `PixelWrite` per call of the target's WriteColor); `Paint` applies such
// a list to the target's buffer.

module Rasterizer {
  import opened Base
  import opened Primitives
  import opened Imaging
  import opened Texturing
  import Clipping
  import Lines

  /** The settings the stage reads: the cull mode and the wireframe switch. */
  datatype Settings = Settings(cullMode: CullMode, wireframe: bool)

  /** RasteriserSettings(): back-face culling, wireframe on. */
  const DefaultSettings := Settings(CullBack, true)

  /** The colour DrawLine writes. */
  const Green := Color(0, 255, 0, 255)

  /** One call of the target's WriteColor. */
  datatype PixelWrite = PixelWrite(xy: Int2, color: Color)

  /**
   * The pixel shader with the material and constant buffer it is given:
   * an interpolated vertex in, a colour out.
   */
  type Shader = Vertex -> Color

  // ---------------------------------------------------------------------
  // Applying writes to a target.
  // ---------------------------------------------------------------------

  /** The buffer after the writes, applied first to last. */
  function Paint(buf: seq<bv8>, w: nat, h: nat, bpp: nat, writes: seq<PixelWrite>): (r: seq<bv8>)
    ensures |r| == |buf|
  {
    if |writes| == 0 then buf
    else
      var last := writes[|writes| - 1];
      WritePixel(Paint(buf, w, h, bpp, writes[..|writes| - 1]), w, h, bpp, last.color, last.xy.x, last.xy.y)
  }

  /** Painting two lists one after the other is painting their concatenation. */
  lemma {:induction false} PaintConcat(buf: seq<bv8>, w: nat, h: nat, bpp: nat, a: seq<PixelWrite>, b: seq<PixelWrite>)
    ensures Paint(Paint(buf, w, h, bpp, a), w, h, bpp, b) == Paint(buf, w, h, bpp, a + b)
    decreases |b|
  {
    if |b| == 0 {
      assert a + b == a;
    } else {
      var b' := b[..|b| - 1];
      assert (a + b)[..|a + b| - 1] == a + b';
      assert (a + b)[|a + b| - 1] == b[|b| - 1];
      PaintConcat(buf, w, h, bpp, a, b');
    }
  }

  /** One more write on top of a painted buffer. */
  lemma PaintSnoc(buf: seq<bv8>, w: nat, h: nat, bpp: nat, ws: seq<PixelWrite>, last: PixelWrite)
    ensures Paint(buf, w, h, bpp, ws + [last])
         == WritePixel(Paint(buf, w, h, bpp, ws), w, h, bpp, last.color, last.xy.x, last.xy.y)
  {
    assert (ws + [last])[..|ws|] == ws;
  }

  /** A write followed by more writes. */
  lemma PaintCons(buf: seq<bv8>, w: nat, h: nat, bpp: nat, first: PixelWrite, rest: seq<PixelWrite>)
    ensures Paint(buf, w, h, bpp, [first] + rest)
         == Paint(WritePixel(buf, w, h, bpp, first.color, first.xy.x, first.xy.y), w, h, bpp, rest)
  {
    PaintConcat(buf, w, h, bpp, [first], rest);
    assert [first][..0] == [];
  }

  /** The colour of the last write at p, if any. */
  function LastWriteAt(writes: seq<PixelWrite>, p: Int2): Option<Color>
  {
    if |writes| == 0 then None
    else if writes[|writes| - 1].xy == p then Some(writes[|writes| - 1].color)
    else LastWriteAt(writes[..|writes| - 1], p)
  }

  /**
   * A pixel of the painted buffer holds the colour of the last write to it
   * (alpha 255 in a 3-byte image), or what it held before when nothing
   * wrote to it; writes outside the image are dropped.
   */
  lemma {:induction false} PaintLastWriteWins(buf: seq<bv8>, w: nat, h: nat, bpp: nat,
                                              writes: seq<PixelWrite>, x: nat, y: nat)
    requires |buf| == w * bpp * h && bpp >= 3 && InImage(w, h, x, y)
    ensures ReadPixel(Paint(buf, w, h, bpp, writes), w, h, bpp, x, y)
         == match LastWriteAt(writes, Int2(x, y))
            case Some(c) => (if bpp >= 4 then c else c.(a := 255))
            case None => ReadPixel(buf, w, h, bpp, x, y)
    decreases |writes|
  {
    if |writes| > 0 {
      var rest := writes[..|writes| - 1];
      var last := writes[|writes| - 1];
      var before := Paint(buf, w, h, bpp, rest);
      PaintLastWriteWins(buf, w, h, bpp, rest, x, y);
      if last.xy == Int2(x, y) {
        ReadAfterWrite(before, w, h, bpp, last.color, x, y);
      } else if InImage(w, h, last.xy.x, last.xy.y) {
        ReadOtherAfterWrite(before, w, h, bpp, last.color, last.xy.x, last.xy.y, x, y);
      }
    }
  }

  // ---------------------------------------------------------------------
  // Lines.
  // ---------------------------------------------------------------------

  /**
   * The segment DrawLine walks: both ends mapped to pixels, then clipped
   * against (0, 0)-(width, height); None when the clip rejects the line.
   */
  function ClippedSegment(l: Line, size: Int2): (s: Option<Lines.Segment>)
    requires size.x >= 0 && size.y >= 0
    ensures s.Some? ==> (Clipping.InBox(s.value.from, Int2(0, 0), size)
                         && Clipping.InBox(s.value.to, Int2(0, 0), size))
  {
    var p0 := Clipping.ClipToXY(l.v0.position, size);
    var p1 := Clipping.ClipToXY(l.v1.position, size);
    var r := Clipping.ClipSpec(p0, p1, Int2(0, 0), size);
    if r.accepted then Some(Lines.Segment(r.p0, r.p1)) else None
  }

  /** The loop body's two updates make up one Lines.Step. */
  lemma StepIs(s: Lines.Segment, p: Lines.Pen, mid: Lines.Pen, q: Lines.Pen)
    requires mid == if 2 * p.err > -(Lines.Dy(s) as int) then Lines.Pen(p.x + Lines.Sx(s), p.y, p.err - Lines.Dy(s)) else p
    requires q == if 2 * p.err < Lines.Dx(s) then Lines.Pen(mid.x, mid.y + Lines.Sy(s), mid.err + Lines.Dx(s)) else mid
    ensures q == Lines.Step(s, p)
  {
  }

  /** Writing the points from i on is writing point i, then the points after it. */
  lemma ColoredFrom(points: seq<Int2>, i: nat)
    requires i < |points|
    ensures Colored(points[i..]) == [PixelWrite(points[i], Green)] + Colored(points[i + 1..])
  {
  }

  /** The points, each written green. */
  function Colored(points: seq<Int2>): (ws: seq<PixelWrite>)
  {
    seq(|points|, i requires 0 <= i < |points| => PixelWrite(points[i], Green))
  }

  /**
   * The writes of DrawLine: the Bresenham points of the clipped segment in
   * green when the constant buffer and the shader are bound (`on`), else
   * none.
   */
  function LineWrites(l: Line, size: Int2, on: bool): seq<PixelWrite>
    requires size.x >= 0 && size.y >= 0
  {
    if !on then []
    else
      match ClippedSegment(l, size)
      case None => []
      case Some(s) => Colored(Lines.LinePoints(s))
  }

  /**
   * What DrawLine writes: nothing when the clip rejects the line or the
   * line is switched off; otherwise max(|dx|, |dy|) green pixels of the
   * clipped segment, starting at its first end, stopping short of its
   * second, each a unit step from the one before, all in the clip box
   * (0, 0)-(width, height), which includes column `width` and row `height`.
   */
  lemma LineWritesShape(l: Line, size: Int2, on: bool)
    requires size.x >= 0 && size.y >= 0
    ensures var ws := LineWrites(l, size, on);
            && (!on || ClippedSegment(l, size).None? ==> ws == [])
            && AllGreen(ws) && InColumns(ws, 0, size.x) && InRows(ws, 0, size.y)
            && (on && ClippedSegment(l, size).Some? ==>
                 var s := ClippedSegment(l, size).value;
                 && |ws| == Max(Lines.Dx(s), Lines.Dy(s))
                 && (s.from != s.to ==> ws[0].xy == s.from)
                 && (forall i :: 0 <= i < |ws| ==> ws[i].xy != s.to)
                 && (forall i :: 0 <= i < |ws| - 1 ==> Lines.UnitStep(s, ws[i].xy, ws[i + 1].xy)))
  {
    var ws := LineWrites(l, size, on);
    if on && ClippedSegment(l, size).Some? {
      var s := ClippedSegment(l, size).value;
      var t := Lines.LinePoints(s);
      Lines.PointsShape(s);
      Lines.PointsCount(s);
      assert ws == Colored(t);
      forall i | 0 <= i < |ws|
        ensures 0 <= ws[i].xy.x <= size.x && 0 <= ws[i].xy.y <= size.y && ws[i].xy != s.to
      {
        assert ws[i].xy == t[i];
        assert Lines.Between(t[i].x, s.from.x, s.to.x) && Lines.Between(t[i].y, s.from.y, s.to.y);
      }
      forall w | w in ws
        ensures 0 <= w.xy.x <= size.x && 0 <= w.xy.y <= size.y
      {
        var i :| 0 <= i < |ws| && ws[i] == w;
      }
    }
  }

  // ---------------------------------------------------------------------
  // Flat-bottom and flat-top fills.
  // ---------------------------------------------------------------------

  /** The running edge values of a fill: x at the two edges, and (u, v) at each. */
  datatype Edges = Edges(xs: real, xe: real, us: real, vs: real, ue: real, ve: real)

  /** The edges one row further down. */
  function Advance(e: Edges, d: Edges): Edges
  {
    Edges(e.xs + d.xs, e.xe + d.xe, e.us + d.us, e.vs + d.vs, e.ue + d.ue, e.ve + d.ve)
  }

  /** A fill as set up: its first and last row, its edges there, and their per-row increments. */
  datatype Fill = Fill(firstRow: int, lastRow: int, start: Edges, step: Edges)

  /** The vertex handed to the shader: zero position, texture coordinate (u, v). */
  function TexelVertex(u: real, v: real): Vertex
  {
    NewVertex(ZeroFloat3, Float2(u, v), ZeroFloat3, ZeroFloat3, ZeroFloat3)
  }

  /** The writes of columns x to last of row y, (u, v) advancing by (du, dv) per column. */
  function RowWrites(shader: Shader, y: int, x: int, last: int, u: real, v: real, du: real, dv: real): seq<PixelWrite>
    decreases if x <= last then last - x + 1 else 0
  {
    if x > last then []
    else [PixelWrite(Int2(x, y), shader(TexelVertex(u, v)))] + RowWrites(shader, y, x + 1, last, u + du, v + dv, du, dv)
  }

  /** The writes go to (x, y), (x + 1, y), (x + 2, y), ... in this order. */
  predicate Consecutive(ws: seq<PixelWrite>, x: int, y: int)
  {
    forall i :: 0 <= i < |ws| ==> ws[i].xy == Int2(x + i, y)
  }

  /** Every write lies in columns lo..hi. */
  predicate InColumns(ws: seq<PixelWrite>, lo: int, hi: int)
  {
    forall w :: w in ws ==> lo <= w.xy.x <= hi
  }

  /** Every write lies in rows lo..hi. */
  predicate InRows(ws: seq<PixelWrite>, lo: int, hi: int)
  {
    forall w :: w in ws ==> lo <= w.xy.y <= hi
  }

  /** Every write is green. */
  predicate AllGreen(ws: seq<PixelWrite>)
  {
    forall w :: w in ws ==> w.color == Green
  }

  /** A row writes every column from x to last once, in order, and nothing else. */
  lemma {:induction false} RowWritesColumns(shader: Shader, y: int, x: int, last: int, u: real, v: real, du: real, dv: real)
    ensures |RowWrites(shader, y, x, last, u, v, du, dv)| == Max(0, last - x + 1)
    ensures Consecutive(RowWrites(shader, y, x, last, u, v, du, dv), x, y)
    decreases if x <= last then last - x + 1 else 0
  {
    if x <= last {
      RowWritesColumns(shader, y, x + 1, last, u + du, v + dv, du, dv);
      var ws := RowWrites(shader, y, x, last, u, v, du, dv);
      var rest := RowWrites(shader, y, x + 1, last, u + du, v + dv, du, dv);
      assert ws == [ws[0]] + rest;
      forall i | 0 <= i < |ws|
        ensures ws[i].xy == Int2(x + i, y)
      {
        if i > 0 {
          assert ws[i] == rest[i - 1];
        }
      }
    }
  }

  /** int(xs) and int(xe), swapped into order. */
  function Ends(e: Edges): (r: (int, int))
    ensures r.0 <= r.1
    ensures (r.0 == Trunc(e.xs) && r.1 == Trunc(e.xe)) || (r.0 == Trunc(e.xe) && r.1 == Trunc(e.xs))
  {
    var left, right := Trunc(e.xs), Trunc(e.xe);
    if left > right then (right, left) else (left, right)
  }

  /**
   * The writes of row y: columns max(0, left) to min(width - 1, right),
   * (u, v) running from the left edge's toward the right edge's over the
   * right - left + 1 columns of the span.
   */
  function RowOf(shader: Shader, y: int, e: Edges, width: int): seq<PixelWrite>
  {
    var (left, right) := Ends(e);
    var n := (right - left + 1) as real;
    RowWrites(shader, y, Max(0, left), Min(width - 1, right), e.us, e.vs, (e.ue - e.us) / n, (e.ve - e.vs) / n)
  }

  /**
   * A row writes exactly the columns max(0, left)..min(width - 1, right)
   * of its span, from left to right, all in row y.
   */
  lemma RowOfColumns(shader: Shader, y: int, e: Edges, width: int)
    ensures |RowOf(shader, y, e, width)| == Max(0, Min(width - 1, Ends(e).1) - Max(0, Ends(e).0) + 1)
    ensures Consecutive(RowOf(shader, y, e, width), Max(0, Ends(e).0), y)
    ensures InColumns(RowOf(shader, y, e, width), 0, width - 1)
    ensures InRows(RowOf(shader, y, e, width), y, y)
  {
    var (left, right) := Ends(e);
    var n := (right - left + 1) as real;
    var first, last := Max(0, left), Min(width - 1, right);
    RowWritesColumns(shader, y, first, last, e.us, e.vs, (e.ue - e.us) / n, (e.ve - e.vs) / n);
    var ws := RowOf(shader, y, e, width);
    forall w | w in ws
      ensures 0 <= w.xy.x <= width - 1 && y <= w.xy.y <= y
    {
      var i :| 0 <= i < |ws| && ws[i] == w;
      assert w.xy == Int2(first + i, y);
    }
  }

  /** The writes of rows y to f.lastRow, starting from edges e. */
  function SpanWrites(shader: Shader, f: Fill, y: int, e: Edges, width: int): seq<PixelWrite>
    decreases if y <= f.lastRow then f.lastRow - y + 1 else 0
  {
    if y > f.lastRow then []
    else RowOf(shader, y, e, width) + SpanWrites(shader, f, y + 1, Advance(e, f.step), width)
  }

  /** The rows from y on are row y followed by the rows after it. */
  lemma SpanUnfold(shader: Shader, f: Fill, y: int, e: Edges, width: int)
    requires y <= f.lastRow
    ensures SpanWrites(shader, f, y, e, width)
         == RowOf(shader, y, e, width) + SpanWrites(shader, f, y + 1, Advance(e, f.step), width)
  {
  }

  /** The writes of a fill. */
  function FillWrites(shader: Shader, f: Fill, width: int): seq<PixelWrite>
  {
    SpanWrites(shader, f, f.firstRow, f.start, width)
  }

  /** Every write from row y on lies in rows y..lastRow and columns 0..width - 1. */
  lemma {:induction false} SpanWritesInside(shader: Shader, f: Fill, y: int, e: Edges, width: int)
    ensures InColumns(SpanWrites(shader, f, y, e, width), 0, width - 1)
    ensures InRows(SpanWrites(shader, f, y, e, width), y, f.lastRow)
    decreases if y <= f.lastRow then f.lastRow - y + 1 else 0
  {
    if y <= f.lastRow {
      var row := RowOf(shader, y, e, width);
      var rest := SpanWrites(shader, f, y + 1, Advance(e, f.step), width);
      RowOfColumns(shader, y, e, width);
      SpanWritesInside(shader, f, y + 1, Advance(e, f.step), width);
      assert SpanWrites(shader, f, y, e, width) == row + rest;
    }
  }

  /** A fill writes only in its rows and in columns 0..width - 1. */
  lemma FillWritesInside(shader: Shader, f: Fill, width: int)
    ensures InColumns(FillWrites(shader, f, width), 0, width - 1)
    ensures InRows(FillWrites(shader, f, width), f.firstRow, f.lastRow)
  {
    SpanWritesInside(shader, f, f.firstRow, f.start, width);
  }

  lemma SlopeReaches(a: real, b: real, h: real)
    requires h > 0.0
    ensures a + h * ((b - a) / h) == b
  {
  }

  /**
   * DrawBottomTri's set-up: v1 on top, v2 and v3 swapped so that v2 is on
   * the left; nothing is drawn when int(v3.y - v1.y) <= 0.  Otherwise rows
   * int(v1.y)..int(v3.y) are filled, both edges starting at v1 and reaching
   * v2 and v3 after `height` rows.
   */
  function BottomFill(t: Triangle): (f: Option<Fill>)
    ensures t.v1.position.y == t.v2.position.y ==>
              (f.None? <==> Trunc(t.v2.position.y - t.v0.position.y) <= 0)
    ensures f.Some? ==>
              var h := Trunc(Max2Y(t) - t.v0.position.y) as real;
              && h >= 1.0
              && f.value.firstRow == Trunc(t.v0.position.y)
              && f.value.start.xs == f.value.start.xe == t.v0.position.x
              && f.value.start.xs + h * f.value.step.xs == LeftOf(t.v1, t.v2).position.x
              && f.value.start.xe + h * f.value.step.xe == RightOf(t.v1, t.v2).position.x
  {
    var v1 := t.v0;
    var (v2, v3) := if t.v2.position.x < t.v1.position.x then (t.v2, t.v1) else (t.v1, t.v2);
    var height := Trunc(v3.position.y - v1.position.y);
    if height <= 0 then None
    else
      var h := height as real;
      var p1, p2, p3 := v1.position, v2.position, v3.position;
      var c1, c2, c3 := v1.texCoord, v2.texCoord, v3.texCoord;
      SlopeReaches(p1.x, p2.x, h);
      SlopeReaches(p1.x, p3.x, h);
      Some(Fill(Trunc(p1.y), Trunc(p3.y),
                Edges(p1.x, p1.x, c1.x, c1.y, c1.x, c1.y),
                Edges((p2.x - p1.x) / h, (p3.x - p1.x) / h,
                      (c2.x - c1.x) / h, (c2.y - c1.y) / h,
                      (c3.x - c1.x) / h, (c3.y - c1.y) / h)))
  }

  /** The y of whichever of v1, v2 ends up third in DrawBottomTri. */
  function Max2Y(t: Triangle): real
  {
    if t.v2.position.x < t.v1.position.x then t.v1.position.y else t.v2.position.y
  }

  /** The one of two vertices with the smaller x (the first on a tie). */
  function LeftOf(a: Vertex, b: Vertex): Vertex
  {
    if b.position.x < a.position.x then b else a
  }

  /** The one of two vertices with the larger x (the second on a tie). */
  function RightOf(a: Vertex, b: Vertex): Vertex
  {
    if b.position.x < a.position.x then a else b
  }

  /**
   * DrawTopTri's set-up: v1 and v2 swapped so that v1 is on the left, v3
   * at the bottom; nothing is drawn when int(v3.y - v1.y) <= 0.  Otherwise
   * rows int(v1.y)..int(v3.y) are filled, the edges starting at v1 and v2
   * and both reaching v3 after `height` rows.
   */
  function TopFill(t: Triangle): (f: Option<Fill>)
    ensures t.v0.position.y == t.v1.position.y ==>
              (f.None? <==> Trunc(t.v2.position.y - t.v0.position.y) <= 0)
    ensures f.Some? ==>
              var v1 := LeftOf(t.v0, t.v1);
              var h := Trunc(t.v2.position.y - v1.position.y) as real;
              && h >= 1.0
              && f.value.firstRow == Trunc(v1.position.y)
              && f.value.lastRow == Trunc(t.v2.position.y)
              && f.value.start.xs == v1.position.x
              && f.value.start.xe == RightOf(t.v0, t.v1).position.x
              && f.value.start.xs + h * f.value.step.xs == t.v2.position.x
              && f.value.start.xe + h * f.value.step.xe == t.v2.position.x
  {
    var (v1, v2) := if t.v1.position.x < t.v0.position.x then (t.v1, t.v0) else (t.v0, t.v1);
    var v3 := t.v2;
    var height := Trunc(v3.position.y - v1.position.y);
    if height <= 0 then None
    else
      var h := height as real;
      var p1, p2, p3 := v1.position, v2.position, v3.position;
      var c1, c2, c3 := v1.texCoord, v2.texCoord, v3.texCoord;
      SlopeReaches(p1.x, p3.x, h);
      SlopeReaches(p2.x, p3.x, h);
      Some(Fill(Trunc(p1.y), Trunc(p3.y),
                Edges(p1.x, p2.x, c1.x, c1.y, c2.x, c2.y),
                Edges((p3.x - p1.x) / h, (p3.x - p2.x) / h,
                      (c3.x - c1.x) / h, (c3.y - c1.y) / h,
                      (c3.x - c2.x) / h, (c3.y - c2.y) / h)))
  }

  // ---------------------------------------------------------------------
  // Triangles.
  // ---------------------------------------------------------------------

  /** Whether the cull mode lets a triangle of this winding through. */
  predicate Drawn(cull: CullMode, o: Orientation)
  {
    (cull == CullFront && o == CW) || (cull == CullBack && o == CCW)
  }

  /** The vertex with x and y replaced by its pixel (ClipToXY); z and w kept. */
  function Project(v: Vertex, size: Int2): Vertex
  {
    var p := Clipping.ClipToXY(v.position, size);
    v.(position := Float4(p.x as real, p.y as real, v.position.z, v.position.w))
  }

  /** The three conditional swaps of DrawTriangle. */
  function SortByY(a: Vertex, b: Vertex, c: Vertex): (r: (Vertex, Vertex, Vertex))
    ensures r.0.position.y <= r.1.position.y <= r.2.position.y
  {
    var (v1, v2) := if a.position.y > b.position.y then (b, a) else (a, b);
    var (v1, v3) := if v1.position.y > c.position.y then (c, v1) else (v1, c);
    var (v2, v3) := if v2.position.y > v3.position.y then (v3, v2) else (v2, v3);
    (v1, v2, v3)
  }

  /** The swaps only reorder the corners. */
  lemma SortByYPermutes(a: Vertex, b: Vertex, c: Vertex)
    ensures var r := SortByY(a, b, c);
            multiset{r.0, r.1, r.2} == multiset{a, b, c}
  {
  }

  /** The three conditional swaps, in place on the corners. */
  method SortCorners(a: Vertex, b: Vertex, c: Vertex) returns (v1: Vertex, v2: Vertex, v3: Vertex)
    ensures (v1, v2, v3) == SortByY(a, b, c)
  {
    v1, v2, v3 := a, b, c;
    if v1.position.y > v2.position.y {
      v1, v2 := v2, v1;
    }
    if v1.position.y > v3.position.y {
      v1, v3 := v3, v1;
    }
    if v2.position.y > v3.position.y {
      v2, v3 := v3, v2;
    }
  }

  /**
   * The vertex splitting a triangle at v2's row: on the long edge v1-v3,
   * x = int(v1.x + int(0.5 + (v2.y - v1.y) (v3.x - v1.x) / (v3.y - v1.y))),
   * (u, v) interpolated the same way without rounding.
   */
  function SplitVertex(v1: Vertex, v2: Vertex, v3: Vertex): (n: Vertex)
    requires v1.position.y < v3.position.y
    ensures n.position.y == v2.position.y && n.position.w == 1.0
  {
    var p1, p2, p3 := v1.position, v2.position, v3.position;
    var dy := p3.y - p1.y;
    var newX := Trunc(p1.x + Trunc(0.5 + (p2.y - p1.y) * (p3.x - p1.x) / dy) as real);
    var newU := v1.texCoord.x + (p2.y - p1.y) * (v3.texCoord.x - v1.texCoord.x) / dy;
    var newV := v1.texCoord.y + (p2.y - p1.y) * (v3.texCoord.y - v1.texCoord.y) / dy;
    NewVertex(Float3(newX as real, p2.y, 0.0), Float2(newU, newV), ZeroFloat3, ZeroFloat3, ZeroFloat3)
  }

  /** A half handed to one of the two fills. */
  datatype Part = BottomPart(t: Triangle) | TopPart(t: Triangle)

  predicate FlatPart(p: Part)
  {
    match p
    case BottomPart(t) => t.v0.position.y <= t.v1.position.y == t.v2.position.y
    case TopPart(t) => t.v0.position.y == t.v1.position.y <= t.v2.position.y
  }

  function Top(p: Part): real { p.t.v0.position.y }
  function Bottom(p: Part): real { p.t.v2.position.y }

  /**
   * The dispatch of a sorted triangle: a flat-bottom fill when y2 == y3,
   * else a flat-top fill when y1 == y2, else a flat-bottom fill down to
   * v2's row and a flat-top fill below it.  Every part is flat where its
   * fill expects it, the parts run from v1's row to v3's, and two parts
   * meet at v2's row.
   */
  function Parts(v1: Vertex, v2: Vertex, v3: Vertex): (ps: seq<Part>)
    requires v1.position.y <= v2.position.y <= v3.position.y
    ensures 1 <= |ps| <= 2
    ensures forall i :: 0 <= i < |ps| ==> FlatPart(ps[i])
    ensures Top(ps[0]) == v1.position.y && Bottom(ps[|ps| - 1]) == v3.position.y
    ensures |ps| == 2 ==> ps[0].BottomPart? && ps[1].TopPart?
                          && Bottom(ps[0]) == Top(ps[1]) == v2.position.y
    ensures |ps| == 2 <==> v1.position.y < v2.position.y < v3.position.y
  {
    if v2.position.y == v3.position.y then [BottomPart(NewTriangle(v1, v2, v3))]
    else if v1.position.y == v2.position.y then [TopPart(NewTriangle(v1, v2, v3))]
    else
      var n := SplitVertex(v1, v2, v3);
      [BottomPart(NewTriangle(v1, n, v2)), TopPart(NewTriangle(v2, n, v3))]
  }

  function PartWrites(p: Part, width: int, shader: Shader): seq<PixelWrite>
  {
    var f := match p
             case BottomPart(t) => BottomFill(t)
             case TopPart(t) => TopFill(t);
    match f
    case None => []
    case Some(fill) => FillWrites(shader, fill, width)
  }

  function PartsWrites(ps: seq<Part>, width: int, shader: Shader): seq<PixelWrite>
  {
    if |ps| == 0 then [] else PartWrites(ps[0], width, shader) + PartsWrites(ps[1..], width, shader)
  }

  /** The writes of the wireframe mode: the edges v0-v1, v1-v2 and v2-v0, in this order. */
  function EdgeWrites(t: Triangle, size: Int2, lineOn: bool): seq<PixelWrite>
    requires size.x >= 0 && size.y >= 0
  {
    LineWrites(NewLine(t.v0, t.v1), size, lineOn)
    + LineWrites(NewLine(t.v1, t.v2), size, lineOn)
    + LineWrites(NewLine(t.v2, t.v0), size, lineOn)
  }

  /** The writes of the filled mode: the fills of the projected triangle, its corners sorted by y. */
  function SolidWrites(t: Triangle, size: Int2, shader: Shader): seq<PixelWrite>
    requires size.x >= 0 && size.y >= 0
  {
    SortedWrites(SortByY(Project(t.v0, size), Project(t.v1, size), Project(t.v2, size)), size.x, shader)
  }

  /** The fills of a triangle whose corners are sorted by y. */
  function SortedWrites(vs: (Vertex, Vertex, Vertex), width: int, shader: Shader): seq<PixelWrite>
    requires vs.0.position.y <= vs.1.position.y <= vs.2.position.y
  {
    PartsWrites(Parts(vs.0, vs.1, vs.2), width, shader)
  }

  /**
   * The writes of DrawTriangle: nothing for a culled triangle, the edges in
   * wireframe mode, the fills otherwise.
   */
  function TriangleWrites(t: Triangle, settings: Settings, size: Int2, shader: Shader, lineOn: bool): seq<PixelWrite>
    requires size.x >= 0 && size.y >= 0
  {
    if !Drawn(settings.cullMode, t.orientation) then []
    else if settings.wireframe then EdgeWrites(t, size, lineOn)
    else SolidWrites(t, size, shader)
  }

  lemma PartsWritesOne(ps: seq<Part>, width: int, shader: Shader)
    requires |ps| == 1
    ensures PartsWrites(ps, width, shader) == PartWrites(ps[0], width, shader)
  {
    assert PartsWrites(ps[1..], width, shader) == [];
  }

  lemma PartsWritesTwo(ps: seq<Part>, width: int, shader: Shader)
    requires |ps| == 2
    ensures PartsWrites(ps, width, shader) == PartWrites(ps[0], width, shader) + PartWrites(ps[1], width, shader)
  {
    assert PartsWrites(ps[1..], width, shader) == PartWrites(ps[1], width, shader) + PartsWrites(ps[2..], width, shader);
    assert PartsWrites(ps[2..], width, shader) == [];
  }

  /**
   * Culling: a triangle is drawn only when the cull mode is front and it
   * winds clockwise, or the cull mode is back and it winds
   * counter-clockwise; any other triangle writes nothing.
   */
  lemma CulledWritesNothing(t: Triangle, settings: Settings, size: Int2, shader: Shader, lineOn: bool)
    requires size.x >= 0 && size.y >= 0
    requires settings.cullMode == CullNone || t.orientation == Collinear
          || (settings.cullMode == CullFront && t.orientation != CW)
          || (settings.cullMode == CullBack && t.orientation != CCW)
    ensures TriangleWrites(t, settings, size, shader, lineOn) == []
  {
  }

  lemma {:induction false} PartsWritesInside(ps: seq<Part>, width: int, shader: Shader)
    ensures InColumns(PartsWrites(ps, width, shader), 0, width - 1)
  {
    if |ps| > 0 {
      var head := PartWrites(ps[0], width, shader);
      var rest := PartsWrites(ps[1..], width, shader);
      PartsWritesInside(ps[1..], width, shader);
      var f := match ps[0]
               case BottomPart(t) => BottomFill(t)
               case TopPart(t) => TopFill(t);
      if f.Some? {
        FillWritesInside(shader, f.value, width);
        assert head == FillWrites(shader, f.value, width);
      } else {
        assert head == [];
      }
      assert PartsWrites(ps, width, shader) == head + rest;
    }
  }

  /** The three edges of a wireframe triangle write only green pixels in (0, 0)-(width, height). */
  lemma EdgesInside(t: Triangle, size: Int2, lineOn: bool)
    requires size.x >= 0 && size.y >= 0
    ensures var ws := LineWrites(NewLine(t.v0, t.v1), size, lineOn)
                      + LineWrites(NewLine(t.v1, t.v2), size, lineOn)
                      + LineWrites(NewLine(t.v2, t.v0), size, lineOn);
            AllGreen(ws) && InColumns(ws, 0, size.x) && InRows(ws, 0, size.y)
  {
    LineWritesShape(NewLine(t.v0, t.v1), size, lineOn);
    LineWritesShape(NewLine(t.v1, t.v2), size, lineOn);
    LineWritesShape(NewLine(t.v2, t.v0), size, lineOn);
  }

  /**
   * A filled triangle writes only columns 0..width - 1; a wireframe
   * triangle writes only green pixels in (0, 0)-(width, height).
   */
  lemma TriangleWritesInside(t: Triangle, settings: Settings, size: Int2, shader: Shader, lineOn: bool)
    requires size.x >= 0 && size.y >= 0
    ensures !settings.wireframe ==> InColumns(TriangleWrites(t, settings, size, shader, lineOn), 0, size.x - 1)
    ensures settings.wireframe ==>
              var ws := TriangleWrites(t, settings, size, shader, lineOn);
              AllGreen(ws) && InColumns(ws, 0, size.x) && InRows(ws, 0, size.y)
  {
    if Drawn(settings.cullMode, t.orientation) {
      if settings.wireframe {
        EdgesInside(t, size, lineOn);
      } else {
        var vs := SortByY(Project(t.v0, size), Project(t.v1, size), Project(t.v2, size));
        PartsWritesInside(Parts(vs.0, vs.1, vs.2), size.x, shader);
      }
    }
  }

  // ---------------------------------------------------------------------
  // The whole stage.
  // ---------------------------------------------------------------------

  /**
   * The size Execute settles on and whether it goes on to draw: the depth
   * texture's size if one is bound (else zero); then, if a target is bound,
   * an abort when that size is nonzero and differs from the target's, and
   * otherwise the target's size.
   */
  function ResolveSize(depthSize: Option<Int2>, targetSize: Option<Int2>): (r: (Int2, bool))
    ensures !r.1 <==> depthSize.Some? && targetSize.Some?
                      && depthSize.value != Int2(0, 0) && depthSize.value != targetSize.value
    ensures r.1 && targetSize.Some? ==> r.0 == targetSize.value
    ensures targetSize.None? ==> r.0 == (if depthSize.Some? then depthSize.value else Int2(0, 0))
    ensures !r.1 ==> r.0 == depthSize.value
  {
    var size := if depthSize.Some? then depthSize.value else Int2(0, 0);
    if targetSize.Some? then
      if size != Int2(0, 0) && size != targetSize.value then (size, false)
      else (targetSize.value, true)
    else (size, true)
  }

  function ListOr<T>(list: Option<seq<T>>): seq<T>
  {
    if list.Some? then list.value else []
  }

  /** The writes of the triangles, in list order. */
  function TrianglesWrites(ts: seq<Triangle>, settings: Settings, size: Int2, shader: Shader, lineOn: bool): seq<PixelWrite>
    requires size.x >= 0 && size.y >= 0
  {
    if |ts| == 0 then []
    else TrianglesWrites(ts[..|ts| - 1], settings, size, shader, lineOn)
         + TriangleWrites(ts[|ts| - 1], settings, size, shader, lineOn)
  }

  /** The writes of the lines, in list order. */
  function LinesWrites(ls: seq<Line>, size: Int2, lineOn: bool): seq<PixelWrite>
    requires size.x >= 0 && size.y >= 0
  {
    if |ls| == 0 then []
    else LinesWrites(ls[..|ls| - 1], size, lineOn) + LineWrites(ls[|ls| - 1], size, lineOn)
  }

  /**
   * What Execute writes once it draws: every triangle, then every line;
   * points write nothing.
   */
  function FrameWrites(ts: seq<Triangle>, ls: seq<Line>, settings: Settings, size: Int2,
                       shader: Shader, lineOn: bool): seq<PixelWrite>
    requires size.x >= 0 && size.y >= 0
  {
    TrianglesWrites(ts, settings, size, shader, lineOn) + LinesWrites(ls, size, lineOn)
  }

  class RasterizerStage {
    var triangleList: Option<seq<Triangle>>
    var lineList: Option<seq<Line>>
    var pointList: Option<seq<Vertex>>
    var settings: Settings
    var target: Texture?
    var depth: Texture?
    var constantBufferBound: bool
    var pixelShader: Option<Shader>
    var size: Int2

    /** The image the stage draws into, when a target is bound. */
    function Frame(): set<object>
      reads this
    {
      if target == null then {} else {target.image}
    }

    ghost predicate Valid()
      reads this, Frame()
    {
      size.x >= 0 && size.y >= 0 && (target != null ==> target.image.Valid())
    }

    /** Whether DrawLine writes: the constant buffer and the pixel shader are bound. */
    predicate LineOn()
      reads this
    {
      constantBufferBound && pixelShader.Some?
    }

    /** A default stage: nothing bound, default settings, size zero. */
    constructor()
      ensures Valid()
      ensures triangleList == None && lineList == None && pointList == None
      ensures settings == DefaultSettings && target == null && depth == null
      ensures !constantBufferBound && pixelShader == None && size == Int2(0, 0)
    {
      triangleList, lineList, pointList := None, None, None;
      settings := DefaultSettings;
      target, depth := null, null;
      constantBufferBound := false;
      pixelShader := None;
      size := Int2(0, 0);
    }

    method BindTriangleList(list: Option<seq<Triangle>>)
      modifies this`triangleList
      ensures triangleList == list
    {
      triangleList := list;
    }

    method BindLineList(list: Option<seq<Line>>)
      modifies this`lineList
      ensures lineList == list
    {
      lineList := list;
    }

    method BindPointList(list: Option<seq<Vertex>>)
      modifies this`pointList
      ensures pointList == list
    {
      pointList := list;
    }

    method BindRasteriserSettings(s: Settings)
      modifies this`settings
      ensures settings == s
    {
      settings := s;
    }

    method BindTarget(t: Texture?)
      requires t != null ==> t.image.Valid()
      modifies this`target
      ensures target == t
    {
      target := t;
    }

    method BindDepth(d: Texture?)
      modifies this`depth
      ensures depth == d
    {
      depth := d;
    }

    method BindConstantBuffer(bound: bool)
      modifies this`constantBufferBound
      ensures constantBufferBound == bound
    {
      constantBufferBound := bound;
    }

    method BindPixelShader(shader: Option<Shader>)
      modifies this`pixelShader
      ensures pixelShader == shader
    {
      pixelShader := shader;
    }

    /** The size Execute settles on, and whether it goes ahead. */
    function Resolved(): (Int2, bool)
      reads this, Frame(), if depth != null then {depth.image} else {}
    {
      ResolveSize(if depth != null then Some(depth.GetSize()) else None,
                  if target != null then Some(target.GetSize()) else None)
    }

    /**
     * Settles the size, then, when a pixel shader is bound, draws every
     * bound triangle, then every bound line, then every bound point.
     */
    method Execute()
      requires Valid()
      modifies this`size, Frame()
      ensures Valid()
      ensures size == old(Resolved()).0
      ensures target != null ==>
                && target.image.width == old(target.image.width)
                && target.image.height == old(target.image.height)
                && target.image.bitsPerPixel == old(target.image.bitsPerPixel)
                && target.image.buffer
                   == Paint(old(target.image.buffer), target.image.width, target.image.height,
                            target.image.BytesPerPixel(),
                            if old(Resolved()).1 && pixelShader.Some?
                            then FrameWrites(ListOr(triangleList), ListOr(lineList), settings, size,
                                             pixelShader.value, LineOn())
                            else [])
    {
      ghost var r := Resolved();
      size := Int2(0, 0);
      if depth != null {
        size := depth.GetSize();
      }
      if target != null {
        if size != Int2(0, 0) && size != target.GetSize() {
          return;
        }
        size := target.GetSize();
      }
      assert size == r.0 && r.1;
      if pixelShader.Some? {
        DrawFrame();
        if pointList.Some? {
          var ps := pointList.value;
          for i := 0 to |ps|
            modifies {}
          {
            DrawPoint(ps[i]);
          }
        }
      }
    }

    /** The drawing half of Execute: every bound triangle, then every bound line. */
    method DrawFrame()
      requires Valid() && pixelShader.Some?
      modifies Frame()
      ensures Valid()
      ensures target != null ==>
                && target.image.width == old(target.image.width)
                && target.image.height == old(target.image.height)
                && target.image.bitsPerPixel == old(target.image.bitsPerPixel)
                && target.image.buffer
                   == Paint(old(target.image.buffer), target.image.width, target.image.height,
                            target.image.BytesPerPixel(),
                            FrameWrites(ListOr(triangleList), ListOr(lineList), settings, size,
                                        pixelShader.value, LineOn()))
    {
      ghost var W, H, B, before := 0, 0, 0, [];
      if target != null {
        W, H, B, before := target.image.width, target.image.height, target.image.BytesPerPixel(), target.image.buffer;
      }
      ghost var tw: seq<PixelWrite> := [];
      if triangleList.Some? {
        DrawTriangles(triangleList.value);
        tw := TrianglesWrites(triangleList.value, settings, size, pixelShader.value, LineOn());
      }
      ghost var lw: seq<PixelWrite> := [];
      if lineList.Some? {
        DrawLines(lineList.value);
        lw := LinesWrites(lineList.value, size, LineOn());
      }
      if target != null {
        PaintConcat(before, W, H, B, tw, lw);
      }
    }

    /** The triangle loop of Execute: every triangle in list order. */
    method DrawTriangles(ts: seq<Triangle>)
      requires Valid() && pixelShader.Some?
      modifies Frame()
      ensures Valid()
      ensures target != null ==>
                && target.image.width == old(target.image.width)
                && target.image.height == old(target.image.height)
                && target.image.bitsPerPixel == old(target.image.bitsPerPixel)
                && target.image.buffer
                   == Paint(old(target.image.buffer), target.image.width, target.image.height,
                            target.image.BytesPerPixel(), TrianglesWrites(ts, settings, size, pixelShader.value, LineOn()))
    {
      ghost var W, H, B, before := 0, 0, 0, [];
      if target != null {
        W, H, B, before := target.image.width, target.image.height, target.image.BytesPerPixel(), target.image.buffer;
      }
      for i := 0 to |ts|
        invariant Valid()
        invariant target != null ==>
                    && target.image.width == W && target.image.height == H
                    && target.image.bitsPerPixel == old(target.image.bitsPerPixel)
                    && target.image.buffer
                       == Paint(before, W, H, B, TrianglesWrites(ts[..i], settings, size, pixelShader.value, LineOn()))
      {
        ghost var prefix := TrianglesWrites(ts[..i], settings, size, pixelShader.value, LineOn());
        DrawTriangle(ts[i]);
        assert ts[..i + 1][..i] == ts[..i];
        if target != null {
          PaintConcat(before, W, H, B, prefix, TriangleWrites(ts[i], settings, size, pixelShader.value, LineOn()));
        }
      }
      assert ts[..|ts|] == ts;
    }

    /** The line loop of Execute: every line in list order. */
    method DrawLines(ls: seq<Line>)
      requires Valid()
      modifies Frame()
      ensures Valid()
      ensures target != null ==>
                && target.image.width == old(target.image.width)
                && target.image.height == old(target.image.height)
                && target.image.bitsPerPixel == old(target.image.bitsPerPixel)
                && target.image.buffer
                   == Paint(old(target.image.buffer), target.image.width, target.image.height,
                            target.image.BytesPerPixel(), LinesWrites(ls, size, LineOn()))
    {
      ghost var W, H, B, before := 0, 0, 0, [];
      if target != null {
        W, H, B, before := target.image.width, target.image.height, target.image.BytesPerPixel(), target.image.buffer;
      }
      for i := 0 to |ls|
        invariant Valid()
        invariant target != null ==>
                    && target.image.width == W && target.image.height == H
                    && target.image.bitsPerPixel == old(target.image.bitsPerPixel)
                    && target.image.buffer == Paint(before, W, H, B, LinesWrites(ls[..i], size, LineOn()))
      {
        ghost var prefix := LinesWrites(ls[..i], size, LineOn());
        DrawLine(ls[i]);
        assert ls[..i + 1][..i] == ls[..i];
        if target != null {
          PaintConcat(before, W, H, B, prefix, LineWrites(ls[i], size, LineOn()));
        }
      }
      assert ls[..|ls|] == ls;
    }

    /** Drawing a point does nothing. */
    method DrawPoint(p: Vertex)
    {
    }

    /**
     * DrawLine: maps both ends to pixels, clips them against
     * (0, 0)-(width, height), and walks from the first end toward the
     * second, writing green at every pixel before the second end when the
     * target, the constant buffer and the pixel shader are bound.
     */
    method DrawLine(l: Line)
      requires Valid()
      modifies Frame()
      ensures Valid()
      ensures target != null ==>
                && target.image.width == old(target.image.width)
                && target.image.height == old(target.image.height)
                && target.image.bitsPerPixel == old(target.image.bitsPerPixel)
                && target.image.buffer
                   == Paint(old(target.image.buffer), target.image.width, target.image.height,
                            target.image.BytesPerPixel(), LineWrites(l, size, LineOn()))
    {
      var p0 := Clipping.ClipToXY(l.v0.position, size);
      var p1 := Clipping.ClipToXY(l.v1.position, size);
      var accepted, q0, q1 := Clipping.ClipLine(p0, p1, Int2(0, 0), Int2(size.x, size.y));
      if !accepted {
        return;
      }
      assert ClippedSegment(l, size) == Some(Lines.Segment(q0, q1));
      DrawSegment(q0, q1);
    }

    /**
     * The walk of DrawLine from q0 toward q1: Bresenham's loop, writing
     * green at every pixel before q1 when the target, the constant buffer
     * and the pixel shader are bound.
     */
    method DrawSegment(q0: Int2, q1: Int2)
      requires Valid()
      modifies Frame()
      ensures Valid()
      ensures target != null ==>
                && target.image.width == old(target.image.width)
                && target.image.height == old(target.image.height)
                && target.image.bitsPerPixel == old(target.image.bitsPerPixel)
                && target.image.buffer
                   == Paint(old(target.image.buffer), target.image.width, target.image.height,
                            target.image.BytesPerPixel(),
                            if LineOn() then Colored(Lines.LinePoints(Lines.Segment(q0, q1))) else [])
    {
      ghost var s := Lines.Segment(q0, q1);
      var dx: int := Abs(q1.x - q0.x);
      var dy: int := Abs(q1.y - q0.y);
      var sx := if q0.x < q1.x then 1 else -1;
      var sy := if q0.y < q1.y then 1 else -1;
      var err := dx - dy;
      var x, y := q0.x, q0.y;
      ghost var on := LineOn();
      ghost var W, H, B, before := 0, 0, 0, [];
      if target != null {
        W, H, B, before := target.image.width, target.image.height, target.image.BytesPerPixel(), target.image.buffer;
      }
      ghost var points := Lines.LinePoints(s);
      ghost var i: nat := 0;
      while x != q1.x || y != q1.y
        invariant dx == Lines.Dx(s) && dy == Lines.Dy(s) && sx == Lines.Sx(s) && sy == Lines.Sy(s)
        invariant i <= |points| && Lines.Pen(x, y, err) == Lines.Iterate(s, i)
        invariant Valid()
        invariant target != null ==>
                    && target.image.width == W && target.image.height == H
                    && target.image.bitsPerPixel == old(target.image.bitsPerPixel)
                    && Paint(target.image.buffer, W, H, B, if on then Colored(points[i..]) else [])
                       == Paint(before, W, H, B, if on then Colored(points) else [])
        decreases |points| - i
      {
        Lines.PenAt(s, i);
        ColoredFrom(points, i);
        if target != null {
          PaintCons(target.image.buffer, W, H, B, PixelWrite(Int2(x, y), Green), Colored(points[i + 1..]));
        }
        if target != null && constantBufferBound && pixelShader.Some? {
          target.WriteColor(Int2(x, y), Green);
        }
        ghost var pen := Lines.Pen(x, y, err);
        var e2 := 2 * err;
        if e2 > -dy {
          err := err - dy;
          x := x + sx;
        }
        ghost var mid := Lines.Pen(x, y, err);
        if e2 < dx {
          err := err + dx;
          y := y + sy;
        }
        StepIs(s, pen, mid, Lines.Pen(x, y, err));
        i := i + 1;
      }
      Lines.PenAt(s, i);
      assert points[i..] == [];
    }

    /**
     * DrawTriangle: culls by winding, draws the three edges in wireframe
     * mode, and otherwise projects the corners to pixels, sorts them by y
     * and hands the halves to the flat-bottom and flat-top fills.
     */
    method DrawTriangle(t: Triangle)
      requires Valid() && pixelShader.Some?
      modifies Frame()
      ensures Valid()
      ensures target != null ==>
                && target.image.width == old(target.image.width)
                && target.image.height == old(target.image.height)
                && target.image.bitsPerPixel == old(target.image.bitsPerPixel)
                && target.image.buffer
                   == Paint(old(target.image.buffer), target.image.width, target.image.height,
                            target.image.BytesPerPixel(),
                            TriangleWrites(t, settings, size, pixelShader.value, LineOn()))
    {
      var draw := false;
      if settings.cullMode == CullFront {
        draw := t.orientation == CW;
      } else if settings.cullMode == CullBack {
        draw := t.orientation == CCW;
      }
      assert draw == Drawn(settings.cullMode, t.orientation);
      if !draw {
        assert TriangleWrites(t, settings, size, pixelShader.value, LineOn()) == [];
        return;
      }
      if settings.wireframe {
        DrawEdges(t);
      } else {
        DrawSolid(t);
      }
    }

    /** The wireframe half of DrawTriangle: the edges v0-v1, v1-v2 and v2-v0. */
    method DrawEdges(t: Triangle)
      requires Valid()
      modifies Frame()
      ensures Valid()
      ensures target != null ==>
                && target.image.width == old(target.image.width)
                && target.image.height == old(target.image.height)
                && target.image.bitsPerPixel == old(target.image.bitsPerPixel)
                && target.image.buffer
                   == Paint(old(target.image.buffer), target.image.width, target.image.height,
                            target.image.BytesPerPixel(), EdgeWrites(t, size, LineOn()))
    {
      ghost var W, H, B, before := 0, 0, 0, [];
      if target != null {
        W, H, B, before := target.image.width, target.image.height, target.image.BytesPerPixel(), target.image.buffer;
      }
      ghost var a := LineWrites(NewLine(t.v0, t.v1), size, LineOn());
      ghost var b := LineWrites(NewLine(t.v1, t.v2), size, LineOn());
      ghost var c := LineWrites(NewLine(t.v2, t.v0), size, LineOn());
      DrawLine(NewLine(t.v0, t.v1));
      DrawLine(NewLine(t.v1, t.v2));
      if target != null {
        PaintConcat(before, W, H, B, a, b);
      }
      DrawLine(NewLine(t.v2, t.v0));
      if target != null {
        PaintConcat(before, W, H, B, a + b, c);
      }
    }

    /**
     * The filled half of DrawTriangle: the corners are mapped to pixels and
     * put in order of y by three swaps.
     */
    method DrawSolid(t: Triangle)
      requires Valid() && pixelShader.Some?
      modifies Frame()
      ensures Valid()
      ensures target != null ==>
                && target.image.width == old(target.image.width)
                && target.image.height == old(target.image.height)
                && target.image.bitsPerPixel == old(target.image.bitsPerPixel)
                && target.image.buffer
                   == Paint(old(target.image.buffer), target.image.width, target.image.height,
                            target.image.BytesPerPixel(), SolidWrites(t, size, pixelShader.value))
    {
      var v1, v2, v3 := SortCorners(Project(t.v0, size), Project(t.v1, size), Project(t.v2, size));
      DrawSorted(v1, v2, v3);
    }

    /**
     * The filled half of DrawTriangle, once the corners are sorted by y: a
     * flat-bottom fill when v2 and v3 share a row, a flat-top fill when v1
     * and v2 do, and otherwise both, split at v2's row.
     */
    method DrawSorted(v1: Vertex, v2: Vertex, v3: Vertex)
      requires Valid() && pixelShader.Some?
      requires v1.position.y <= v2.position.y <= v3.position.y
      modifies Frame()
      ensures Valid()
      ensures target != null ==>
                && target.image.width == old(target.image.width)
                && target.image.height == old(target.image.height)
                && target.image.bitsPerPixel == old(target.image.bitsPerPixel)
                && target.image.buffer
                   == Paint(old(target.image.buffer), target.image.width, target.image.height,
                            target.image.BytesPerPixel(), SortedWrites((v1, v2, v3), size.x, pixelShader.value))
    {
      ghost var W, H, B, before := 0, 0, 0, [];
      if target != null {
        W, H, B, before := target.image.width, target.image.height, target.image.BytesPerPixel(), target.image.buffer;
      }
      ghost var shader := pixelShader.value;
      ghost var ps := Parts(v1, v2, v3);
      if v2.position.y == v3.position.y {
        assert ps == [BottomPart(NewTriangle(v1, v2, v3))];
        PartsWritesOne(ps, size.x, shader);
        DrawBottomTri(NewTriangle(v1, v2, v3));
      } else if v1.position.y == v2.position.y {
        assert ps == [TopPart(NewTriangle(v1, v2, v3))];
        PartsWritesOne(ps, size.x, shader);
        DrawTopTri(NewTriangle(v1, v2, v3));
      } else {
        var n := SplitVertex(v1, v2, v3);
        assert ps == [BottomPart(NewTriangle(v1, n, v2)), TopPart(NewTriangle(v2, n, v3))];
        ghost var a := PartWrites(ps[0], size.x, shader);
        ghost var b := PartWrites(ps[1], size.x, shader);
        PartsWritesTwo(ps, size.x, shader);
        DrawBottomTri(NewTriangle(v1, n, v2));
        DrawTopTri(NewTriangle(v2, n, v3));
        if target != null {
          PaintConcat(before, W, H, B, a, b);
        }
      }
    }

    /** DrawBottomTri: the flat-bottom fill of a triangle. */
    method DrawBottomTri(t: Triangle)
      requires Valid() && pixelShader.Some?
      modifies Frame()
      ensures Valid()
      ensures target != null ==>
                && target.image.width == old(target.image.width)
                && target.image.height == old(target.image.height)
                && target.image.bitsPerPixel == old(target.image.bitsPerPixel)
                && target.image.buffer
                   == Paint(old(target.image.buffer), target.image.width, target.image.height,
                            target.image.BytesPerPixel(), PartWrites(BottomPart(t), size.x, pixelShader.value))
    {
      var f := BottomFill(t);
      if f.None? {
        return;
      }
      DrawFill(f.value);
    }

    /** DrawTopTri: the flat-top fill of a triangle. */
    method DrawTopTri(t: Triangle)
      requires Valid() && pixelShader.Some?
      modifies Frame()
      ensures Valid()
      ensures target != null ==>
                && target.image.width == old(target.image.width)
                && target.image.height == old(target.image.height)
                && target.image.bitsPerPixel == old(target.image.bitsPerPixel)
                && target.image.buffer
                   == Paint(old(target.image.buffer), target.image.width, target.image.height,
                            target.image.BytesPerPixel(), PartWrites(TopPart(t), size.x, pixelShader.value))
    {
      var f := TopFill(t);
      if f.None? {
        return;
      }
      DrawFill(f.value);
    }

    /**
     * The row loop both fills share: for y from the first row to the last,
     * the columns max(0, left)..min(width - 1, right) of the span between
     * the edges receive the shader's colour, (u, v) stepping across the
     * span; then the edges advance.
     */
    method DrawFill(f: Fill)
      requires Valid() && pixelShader.Some?
      modifies Frame()
      ensures Valid()
      ensures target != null ==>
                && target.image.width == old(target.image.width)
                && target.image.height == old(target.image.height)
                && target.image.bitsPerPixel == old(target.image.bitsPerPixel)
                && target.image.buffer
                   == Paint(old(target.image.buffer), target.image.width, target.image.height,
                            target.image.BytesPerPixel(), FillWrites(pixelShader.value, f, size.x))
    {
      if target == null {
        return;
      }
      var shader := pixelShader.value;
      var image := target.image;
      ghost var W, H, B := image.width, image.height, image.BytesPerPixel();
      ghost var before := image.buffer;
      var e := f.start;
      var y := f.firstRow;
      while y <= f.lastRow
        invariant image.Valid()
        invariant image.width == W && image.height == H && image.bitsPerPixel == old(image.bitsPerPixel)
        invariant Paint(image.buffer, W, H, B, SpanWrites(shader, f, y, e, size.x))
               == Paint(before, W, H, B, FillWrites(shader, f, size.x))
        decreases if y <= f.lastRow then f.lastRow - y + 1 else 0
      {
        ghost var current := image.buffer;
        ghost var row := RowOf(shader, y, e, size.x);
        SpanUnfold(shader, f, y, e, size.x);
        PaintConcat(current, W, H, B, row, SpanWrites(shader, f, y + 1, Advance(e, f.step), size.x));
        DrawSpan(target, shader, y, e, size.x);
        e := Advance(e, f.step);
        y := y + 1;
      }
      assert SpanWrites(shader, f, y, e, size.x) == [];
    }
  }

  /**
   * One row of a fill: the span between the edges, its ends put in order,
   * clamped to columns 0..width - 1, (u, v) stepping by the span's
   * difference over its right - left + 1 columns.
   */
  method DrawSpan(target: Texture, shader: Shader, y: int, e: Edges, width: int)
    requires target.image.Valid()
    modifies target.image
    ensures target.image.Valid()
    ensures target.image.width == old(target.image.width) && target.image.height == old(target.image.height)
    ensures target.image.bitsPerPixel == old(target.image.bitsPerPixel)
    ensures target.image.buffer
         == Paint(old(target.image.buffer), target.image.width, target.image.height,
                  target.image.BytesPerPixel(), RowOf(shader, y, e, width))
  {
    var left, right := Trunc(e.xs), Trunc(e.xe);
    if left > right {
      left, right := right, left;
    }
    var du := (e.ue - e.us) / (right - left + 1) as real;
    var dv := (e.ve - e.vs) / (right - left + 1) as real;
    DrawRow(target, shader, y, Max(0, left), Min(width - 1, right), e.us, e.vs, du, dv);
  }

  /**
   * The inner loop of the fills: columns x to last of row y receive the
   * shader's colour at (u, v), which advances by (du, dv) per column.
   */
  method DrawRow(target: Texture, shader: Shader, y: int, x0: int, last: int, u0: real, v0: real, du: real, dv: real)
    requires target.image.Valid()
    modifies target.image
    ensures target.image.Valid()
    ensures target.image.width == old(target.image.width) && target.image.height == old(target.image.height)
    ensures target.image.bitsPerPixel == old(target.image.bitsPerPixel)
    ensures target.image.buffer
         == Paint(old(target.image.buffer), target.image.width, target.image.height,
                  target.image.BytesPerPixel(), RowWrites(shader, y, x0, last, u0, v0, du, dv))
  {
    var image := target.image;
    ghost var W, H, B := image.width, image.height, image.BytesPerPixel();
    ghost var all := RowWrites(shader, y, x0, last, u0, v0, du, dv);
    ghost var before := image.buffer;
    var x, u, v := x0, u0, v0;
    while x <= last
      invariant image.Valid()
      invariant image.width == W && image.height == H && image.bitsPerPixel == old(image.bitsPerPixel)
      invariant Paint(image.buffer, W, H, B, RowWrites(shader, y, x, last, u, v, du, dv)) == Paint(before, W, H, B, all)
      decreases if x <= last then last - x + 1 else 0
    {
      var w := PixelWrite(Int2(x, y), shader(TexelVertex(u, v)));
      var x', u', v' := x + 1, u + du, v + dv;
      ghost var rest := RowWrites(shader, y, x', last, u', v', du, dv);
      assert RowWrites(shader, y, x, last, u, v, du, dv) == [w] + rest;
      ghost var current := image.buffer;
      PaintCons(current, W, H, B, w, rest);
      target.WriteColor(w.xy, w.color);
      assert image.BytesPerPixel() == B;
      assert image.buffer == WritePixel(current, W, H, B, w.color, w.xy.x, w.xy.y);
      x, u, v := x', u', v';
    }
    assert B == image.BytesPerPixel();
  }
}
