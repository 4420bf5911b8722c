// The geometry stage RePiGeometryStage (RePiGeometryStage.cpp): it walks
// the bound index buffer with a stride set by the topology, runs the vertex
// shader on the indexed vertices, divides by w, and assembles point, line
// or triangle lists, classifying each triangle's winding.

module Geometry {
  import opened Base
  import opened Primitives

  /** The constant buffer handed to the vertex shader (GeometryConstantBuffer). */
  datatype Constants = Constants(world: Matrix, view: Matrix, projection: Matrix, bones: seq<Matrix>)

  /** The vertex shader: a vertex and the constant buffer in, a clip-space vertex out. */
  type VertexShader = (Vertex, Constants) -> Vertex

  // ---------------------------------------------------------------------
  // Per-vertex and per-triangle operations.
  // ---------------------------------------------------------------------

  /**
   * ClipVertex: x, y, z and w are each divided by the original w.  With
   * w != 0 the result has w = 1 and scales back to the input; nothing but
   * the position changes.
   */
  function ClipVertex(v: Vertex): (r: Vertex)
    ensures r.position.w == (if v.position.w == 0.0 then 0.0 else 1.0)
    ensures v.position.w != 0.0 ==>
              && r.position.x * v.position.w == v.position.x
              && r.position.y * v.position.w == v.position.y
              && r.position.z * v.position.w == v.position.z
    ensures r.(position := v.position) == v
  {
    var p := v.position;
    v.(position := Float4(FDiv(p.x, p.w), FDiv(p.y, p.w), FDiv(p.z, p.w), FDiv(p.w, p.w)))
  }

  /** The z component of (v1 - v0) x (v2 - v0), in screen x and y. */
  function Cross(a: Float4, b: Float4, c: Float4): real
  {
    (b.x - a.x) * (c.y - a.y) - (b.y - a.y) * (c.x - a.x)
  }

  /** GetTriangleOrientation: clockwise for a positive cross product, counter-clockwise for a negative one. */
  function GetTriangleOrientation(t: Triangle): (o: Orientation)
  {
    var z := Cross(t.v0.position, t.v1.position, t.v2.position);
    if z > 0.0 then CW else if z < 0.0 then CCW else Collinear
  }

  function Reversed(o: Orientation): Orientation
  {
    match o
    case CW => CCW
    case CCW => CW
    case Collinear => Collinear
  }

  lemma CrossSwap(a: Float4, b: Float4, c: Float4)
    ensures Cross(a, c, b) == -Cross(a, b, c)
  {
    var p, q := (b.x - a.x) * (c.y - a.y), (b.y - a.y) * (c.x - a.x);
    assert (c.x - a.x) * (b.y - a.y) == q;
    assert (c.y - a.y) * (b.x - a.x) == p;
  }

  lemma CrossRotate(a: Float4, b: Float4, c: Float4)
    ensures Cross(b, c, a) == Cross(a, b, c)
  {
    var px, py, qx, qy := b.x - a.x, b.y - a.y, c.x - a.x, c.y - a.y;
    assert Cross(b, c, a) == (qx - px) * (-py) - (qy - py) * (-px);
    assert (qx - px) * (-py) == px * py - qx * py;
    assert (qy - py) * (-px) == px * py - px * qy;
  }

  /** Swapping the second and third corners reverses the winding; a degenerate triangle stays degenerate. */
  lemma OrientationSwap(t: Triangle)
    ensures GetTriangleOrientation(t.(v1 := t.v2, v2 := t.v1)) == Reversed(GetTriangleOrientation(t))
  {
    CrossSwap(t.v0.position, t.v1.position, t.v2.position);
  }

  /** Starting the corners at v1 instead of v0 keeps the winding. */
  lemma OrientationRotate(t: Triangle)
    ensures GetTriangleOrientation(t.(v0 := t.v1, v1 := t.v2, v2 := t.v0)) == GetTriangleOrientation(t)
  {
    CrossRotate(t.v0.position, t.v1.position, t.v2.position);
  }

  // ---------------------------------------------------------------------
  // Assembly.
  // ---------------------------------------------------------------------

  /** The index step per primitive; 0 for the strip and undefined topologies. */
  function Stride(topology: Topology): (n: nat)
    ensures n <= 3
    ensures n == 0 <==> !(topology.PointList? || topology.LineList? || topology.TriangleList?)
  {
    match topology
    case PointList => 1
    case LineList => 2
    case TriangleList => 3
    case _ => 0
  }

  /** The three output lists. */
  datatype Outputs = Outputs(points: seq<Vertex>, lines: seq<Line>, triangles: seq<Triangle>)

  const NoOutputs := Outputs([], [], [])

  /** What Execute reads: the shader, the constant buffer, the vertices and the indices. */
  datatype Input = Input(shader: VertexShader, constants: Constants, vertices: seq<Vertex>, indices: seq<nat>)

  /**
   * Vertex j of the index buffer after the shader and the divide by w, or
   * None where vector::at throws: j past the index buffer, or the index
   * past the vertex buffer.
   */
  function ShadedAt(inp: Input, j: nat): (r: Option<Vertex>)
    ensures r.Some? <==> j < |inp.indices| && inp.indices[j] < |inp.vertices|
  {
    if j < |inp.indices| && inp.indices[j] < |inp.vertices| then
      Some(ClipVertex(inp.shader(inp.vertices[inp.indices[j]], inp.constants)))
    else None
  }

  /** The triangle built from the shaded vertices a, b and c, its winding classified. */
  function MakeTriangle(a: Vertex, b: Vertex, c: Vertex): (t: Triangle)
    ensures t.v0 == a && t.v1 == b && t.v2 == c
    ensures t.orientation == GetTriangleOrientation(NewTriangle(a, b, c))
  {
    var t := NewTriangle(a, b, c);
    t.(orientation := GetTriangleOrientation(t))
  }

  /**
   * One pass of the loop at index i: push a point, a line or a triangle,
   * or None when a vertex fetch throws.  The strip and undefined
   * topologies push nothing.
   */
  function Emit(inp: Input, topology: Topology, i: nat, o: Outputs): Option<Outputs>
  {
    match topology
    case PointList =>
      var a := ShadedAt(inp, i);
      if a.None? then None else Some(o.(points := o.points + [a.value]))
    case LineList =>
      var a, b := ShadedAt(inp, i), ShadedAt(inp, i + 1);
      if a.None? || b.None? then None else Some(o.(lines := o.lines + [NewLine(a.value, b.value)]))
    case TriangleList =>
      var a, b, c := ShadedAt(inp, i), ShadedAt(inp, i + 1), ShadedAt(inp, i + 2);
      if a.None? || b.None? || c.None? then None
      else Some(o.(triangles := o.triangles + [MakeTriangle(a.value, b.value, c.value)]))
    case _ => Some(o)
  }

  /**
   * The loop from index i on, with the lists o built so far: the lists it
   * ends with and whether it ran to the end (false when at() throws).
   */
  function AssembleFrom(inp: Input, topology: Topology, i: nat, o: Outputs): (Outputs, bool)
    requires Stride(topology) > 0
    decreases |inp.indices| - i
  {
    if i >= |inp.indices| then (o, true)
    else
      match Emit(inp, topology, i, o)
      case None => (o, false)
      case Some(o') => AssembleFrom(inp, topology, i + Stride(topology), o')
  }

  /** Every index names a vertex. */
  predicate IndicesValid(inp: Input)
  {
    forall j :: 0 <= j < |inp.indices| ==> inp.indices[j] < |inp.vertices|
  }

  /** Indices i to i + s - 1 exist and name vertices. */
  predicate Fetchable(inp: Input, i: nat, s: nat)
  {
    forall j :: i <= j < i + s ==> j < |inp.indices| && inp.indices[j] < |inp.vertices|
  }

  /** One pass succeeds exactly when all of its stride's vertices can be fetched. */
  lemma EmitDefined(inp: Input, topology: Topology, i: nat, o: Outputs)
    requires Stride(topology) > 0
    ensures Emit(inp, topology, i, o).Some? <==> Fetchable(inp, i, Stride(topology))
  {
    var s := Stride(topology);
    if Emit(inp, topology, i, o).Some? {
      forall j | i <= j < i + s
        ensures j < |inp.indices| && inp.indices[j] < |inp.vertices|
      {
        assert ShadedAt(inp, i + (j - i)).Some?;
      }
    } else {
      var j: nat :| i <= j < i + s && ShadedAt(inp, j).None?;
    }
  }

  lemma ModStep(a: nat, s: nat)
    requires 0 < s <= a && s <= 3
    ensures a % s == (a - s) % s
  {
    if s == 1 {
    } else if s == 2 {
    } else {
    }
  }

  /**
   * The loop runs to the end exactly when the index count is a multiple of
   * the stride and every index names a vertex; otherwise at() throws.
   */
  lemma {:induction false} AssembleSucceeds(inp: Input, topology: Topology, i: nat, o: Outputs)
    requires Stride(topology) > 0 && i <= |inp.indices|
    ensures AssembleFrom(inp, topology, i, o).1
        <==> (|inp.indices| - i) % Stride(topology) == 0 && Fetchable(inp, i, |inp.indices| - i)
    decreases |inp.indices| - i
  {
    var n, s := |inp.indices|, Stride(topology);
    if i < n {
      EmitDefined(inp, topology, i, o);
      var e := Emit(inp, topology, i, o);
      if e.Some? {
        assert i + s <= n;
        AssembleSucceeds(inp, topology, i + s, e.value);
        ModStep(n - i, s);
        assert Fetchable(inp, i, n - i) <==> Fetchable(inp, i + s, n - (i + s));
      } else {
        var j: nat :| i <= j < i + s && !(j < n && inp.indices[j] < |inp.vertices|);
        if j >= n {
          assert 0 < n - i < s;
        }
      }
    }
  }

  /** The points of indices i, i + 1, ... */
  function PointsFrom(inp: Input, i: nat): (ps: seq<Vertex>)
    requires IndicesValid(inp)
    ensures |ps| == if i < |inp.indices| then |inp.indices| - i else 0
    decreases |inp.indices| - i
  {
    if i >= |inp.indices| then [] else [ShadedAt(inp, i).value] + PointsFrom(inp, i + 1)
  }

  /** The lines of index pairs (i, i + 1), (i + 2, i + 3), ... */
  function LinesFrom(inp: Input, i: nat): (ls: seq<Line>)
    requires IndicesValid(inp)
    decreases |inp.indices| - i
  {
    if i + 2 > |inp.indices| then []
    else [NewLine(ShadedAt(inp, i).value, ShadedAt(inp, i + 1).value)] + LinesFrom(inp, i + 2)
  }

  /** The triangles of index triples (i, i + 1, i + 2), (i + 3, i + 4, i + 5), ... */
  function TrianglesFrom(inp: Input, i: nat): (ts: seq<Triangle>)
    requires IndicesValid(inp)
    decreases |inp.indices| - i
  {
    if i + 3 > |inp.indices| then []
    else
      [MakeTriangle(ShadedAt(inp, i).value, ShadedAt(inp, i + 1).value, ShadedAt(inp, i + 2).value)]
      + TrianglesFrom(inp, i + 3)
  }

  /** For a triangle list, the loop appends TrianglesFrom(i) and touches no other list. */
  lemma {:induction false} AssembleTriangles(inp: Input, i: nat, o: Outputs)
    requires i <= |inp.indices| && IndicesValid(inp) && (|inp.indices| - i) % 3 == 0
    ensures AssembleFrom(inp, TriangleList, i, o) == (o.(triangles := o.triangles + TrianglesFrom(inp, i)), true)
    decreases |inp.indices| - i
  {
    if i < |inp.indices| {
      var e := Emit(inp, TriangleList, i, o);
      assert e.Some? && e.value == o.(triangles := o.triangles + [TrianglesFrom(inp, i)[0]]);
      assert AssembleFrom(inp, TriangleList, i, o) == AssembleFrom(inp, TriangleList, i + 3, e.value);
      AssembleTriangles(inp, i + 3, e.value);
      assert o.triangles + TrianglesFrom(inp, i) == e.value.triangles + TrianglesFrom(inp, i + 3);
    } else {
      assert o.triangles + TrianglesFrom(inp, i) == o.triangles;
    }
  }

  /** For a line list, the loop appends LinesFrom(i) and touches no other list. */
  lemma {:induction false} AssembleLines(inp: Input, i: nat, o: Outputs)
    requires i <= |inp.indices| && IndicesValid(inp) && (|inp.indices| - i) % 2 == 0
    ensures AssembleFrom(inp, LineList, i, o) == (o.(lines := o.lines + LinesFrom(inp, i)), true)
    decreases |inp.indices| - i
  {
    if i < |inp.indices| {
      var e := Emit(inp, LineList, i, o);
      assert e.Some? && e.value == o.(lines := o.lines + [LinesFrom(inp, i)[0]]);
      assert AssembleFrom(inp, LineList, i, o) == AssembleFrom(inp, LineList, i + 2, e.value);
      AssembleLines(inp, i + 2, e.value);
      assert o.lines + LinesFrom(inp, i) == e.value.lines + LinesFrom(inp, i + 2);
    } else {
      assert o.lines + LinesFrom(inp, i) == o.lines;
    }
  }

  /** For a point list, the loop appends PointsFrom(i) and touches no other list. */
  lemma {:induction false} AssemblePoints(inp: Input, i: nat, o: Outputs)
    requires i <= |inp.indices| && IndicesValid(inp)
    ensures AssembleFrom(inp, PointList, i, o) == (o.(points := o.points + PointsFrom(inp, i)), true)
    decreases |inp.indices| - i
  {
    if i < |inp.indices| {
      var e := Emit(inp, PointList, i, o);
      assert e.Some? && e.value == o.(points := o.points + [PointsFrom(inp, i)[0]]);
      assert AssembleFrom(inp, PointList, i, o) == AssembleFrom(inp, PointList, i + 1, e.value);
      AssemblePoints(inp, i + 1, e.value);
      assert o.points + PointsFrom(inp, i) == e.value.points + PointsFrom(inp, i + 1);
    } else {
      assert o.points + PointsFrom(inp, i) == o.points;
    }
  }

  /** n - i indices give (n - i) / 3 triangles; triangle k uses indices i + 3k, i + 3k + 1 and i + 3k + 2. */
  lemma {:induction false} TrianglesFromShape(inp: Input, i: nat)
    requires IndicesValid(inp) && i <= |inp.indices| && (|inp.indices| - i) % 3 == 0
    ensures var ts := TrianglesFrom(inp, i);
            && |ts| == (|inp.indices| - i) / 3
            && forall k :: 0 <= k < |ts| ==>
                 ts[k] == MakeTriangle(ShadedAt(inp, i + 3 * k).value, ShadedAt(inp, i + 3 * k + 1).value,
                                       ShadedAt(inp, i + 3 * k + 2).value)
    decreases |inp.indices| - i
  {
    if i < |inp.indices| {
      TrianglesFromShape(inp, i + 3);
      var ts := TrianglesFrom(inp, i);
      var rest := TrianglesFrom(inp, i + 3);
      forall k | 0 <= k < |ts|
        ensures ts[k] == MakeTriangle(ShadedAt(inp, i + 3 * k).value, ShadedAt(inp, i + 3 * k + 1).value,
                                      ShadedAt(inp, i + 3 * k + 2).value)
      {
        if k > 0 {
          assert ts[k] == rest[k - 1];
          assert i + 3 + 3 * (k - 1) == i + 3 * k;
        }
      }
    }
  }

  /** n - i indices give (n - i) / 2 lines; line k joins indices i + 2k and i + 2k + 1. */
  lemma {:induction false} LinesFromShape(inp: Input, i: nat)
    requires IndicesValid(inp) && i <= |inp.indices| && (|inp.indices| - i) % 2 == 0
    ensures var ls := LinesFrom(inp, i);
            && |ls| == (|inp.indices| - i) / 2
            && forall k :: 0 <= k < |ls| ==>
                 ls[k] == NewLine(ShadedAt(inp, i + 2 * k).value, ShadedAt(inp, i + 2 * k + 1).value)
    decreases |inp.indices| - i
  {
    if i < |inp.indices| {
      LinesFromShape(inp, i + 2);
      var ls := LinesFrom(inp, i);
      var rest := LinesFrom(inp, i + 2);
      forall k | 0 <= k < |ls|
        ensures ls[k] == NewLine(ShadedAt(inp, i + 2 * k).value, ShadedAt(inp, i + 2 * k + 1).value)
      {
        if k > 0 {
          assert ls[k] == rest[k - 1];
          assert i + 2 + 2 * (k - 1) == i + 2 * k;
        }
      }
    }
  }

  /** Point k is index i + k. */
  lemma {:induction false} PointsFromShape(inp: Input, i: nat)
    requires IndicesValid(inp) && i <= |inp.indices|
    ensures forall k :: 0 <= k < |PointsFrom(inp, i)| ==> PointsFrom(inp, i)[k] == ShadedAt(inp, i + k).value
    decreases |inp.indices| - i
  {
    if i < |inp.indices| {
      PointsFromShape(inp, i + 1);
      var ps := PointsFrom(inp, i);
      var rest := PointsFrom(inp, i + 1);
      assert ps == [ShadedAt(inp, i).value] + rest;
      forall k | 0 <= k < |ps|
        ensures ps[k] == ShadedAt(inp, i + k).value
      {
        if k > 0 {
          assert ps[k] == rest[k - 1];
          assert rest[k - 1] == ShadedAt(inp, i + 1 + (k - 1)).value;
        }
      }
    }
  }

  /**
   * A triangle list of 3m valid indices yields m triangles, triangle k from
   * indices 3k, 3k + 1 and 3k + 2, and no points or lines.
   */
  lemma TriangleListAssembly(inp: Input)
    requires IndicesValid(inp) && |inp.indices| % 3 == 0
    ensures var (out, ok) := AssembleFrom(inp, TriangleList, 0, NoOutputs);
            && ok && out.points == [] && out.lines == []
            && |out.triangles| == |inp.indices| / 3
            && forall k :: 0 <= k < |out.triangles| ==>
                 out.triangles[k] == MakeTriangle(ShadedAt(inp, 3 * k).value, ShadedAt(inp, 3 * k + 1).value,
                                                  ShadedAt(inp, 3 * k + 2).value)
  {
    AssembleTriangles(inp, 0, NoOutputs);
    TrianglesFromShape(inp, 0);
    assert [] + TrianglesFrom(inp, 0) == TrianglesFrom(inp, 0);
  }

  /** A line list of 2m valid indices yields m lines, line k from indices 2k and 2k + 1, and nothing else. */
  lemma LineListAssembly(inp: Input)
    requires IndicesValid(inp) && |inp.indices| % 2 == 0
    ensures var (out, ok) := AssembleFrom(inp, LineList, 0, NoOutputs);
            && ok && out.points == [] && out.triangles == []
            && |out.lines| == |inp.indices| / 2
            && forall k :: 0 <= k < |out.lines| ==>
                 out.lines[k] == NewLine(ShadedAt(inp, 2 * k).value, ShadedAt(inp, 2 * k + 1).value)
  {
    AssembleLines(inp, 0, NoOutputs);
    LinesFromShape(inp, 0);
    assert [] + LinesFrom(inp, 0) == LinesFrom(inp, 0);
  }

  /** A point list of n valid indices yields n points, point k from index k, and nothing else. */
  lemma PointListAssembly(inp: Input)
    requires IndicesValid(inp)
    ensures var (out, ok) := AssembleFrom(inp, PointList, 0, NoOutputs);
            && ok && out.lines == [] && out.triangles == []
            && |out.points| == |inp.indices|
            && forall k :: 0 <= k < |out.points| ==> out.points[k] == ShadedAt(inp, k).value
  {
    AssemblePoints(inp, 0, NoOutputs);
    PointsFromShape(inp, 0);
    assert [] + PointsFrom(inp, 0) == PointsFrom(inp, 0);
  }

  // ---------------------------------------------------------------------
  // The stage.
  // ---------------------------------------------------------------------

  class GeometryStage {
    var vertexBuffer: Option<seq<Vertex>>
    var indexBuffer: Option<seq<nat>>
    var constantBuffer: Option<Constants>
    var topology: Topology
    var shader: Option<VertexShader>
    var pointList: seq<Vertex>
    var lineList: seq<Line>
    var triangleList: seq<Triangle>

    /** Empty output lists; nothing bound. */
    constructor()
      ensures pointList == [] && lineList == [] && triangleList == []
      ensures vertexBuffer == None && indexBuffer == None && constantBuffer == None
      ensures shader == None && topology == Undefined
    {
      pointList, lineList, triangleList := [], [], [];
      vertexBuffer, indexBuffer, constantBuffer := None, None, None;
      shader := None;
      topology := Undefined;
    }

    method BindVertexBuffer(b: Option<seq<Vertex>>)
      modifies this`vertexBuffer
      ensures vertexBuffer == b
    {
      vertexBuffer := b;
    }

    method BindIndexBuffer(b: Option<seq<nat>>)
      modifies this`indexBuffer
      ensures indexBuffer == b
    {
      indexBuffer := b;
    }

    method BindConstantBuffer(b: Option<Constants>)
      modifies this`constantBuffer
      ensures constantBuffer == b
    {
      constantBuffer := b;
    }

    method BindVertexShader(s: Option<VertexShader>)
      modifies this`shader
      ensures shader == s
    {
      shader := s;
    }

    method BindTopology(t: Topology)
      modifies this`topology
      ensures topology == t
    {
      topology := t;
    }

    /** Shader, vertex buffer, index buffer and constant buffer are all bound. */
    predicate Ready()
      reads this
    {
      shader.Some? && vertexBuffer.Some? && indexBuffer.Some? && constantBuffer.Some?
    }

    function CurrentInput(): Input
      reads this
      requires Ready()
    {
      Input(shader.value, constantBuffer.value, vertexBuffer.value, indexBuffer.value)
    }

    function Lists(): Outputs
      reads this
    {
      Outputs(pointList, lineList, triangleList)
    }

    /**
     * Execute.  When everything is bound the lists are cleared and refilled
     * by the loop; a strip or undefined topology leaves them empty when the
     * index buffer is empty and otherwise never ends, so callers must not
     * do that.  When a vertex fetch throws, the lists hold what was pushed
     * before it and the bindings are not reset (ok is false).  Otherwise the
     * vertex and index buffers are unbound and the topology is undefined;
     * the shader and constant buffer stay bound.  Without everything bound
     * the lists keep their contents.
     */
    method Execute() returns (ok: bool)
      requires Ready() && |indexBuffer.value| > 0 ==> Stride(topology) > 0
      modifies this
      ensures shader == old(shader) && constantBuffer == old(constantBuffer)
      ensures !old(Ready()) ==> ok && Lists() == old(Lists())
      ensures old(Ready()) && Stride(old(topology)) == 0 ==> ok && Lists() == NoOutputs
      ensures old(Ready()) && Stride(old(topology)) > 0 ==>
                (Lists(), ok) == AssembleFrom(old(CurrentInput()), old(topology), 0, NoOutputs)
      ensures ok ==> vertexBuffer == None && indexBuffer == None && topology == Undefined
      ensures !ok ==> vertexBuffer == old(vertexBuffer) && indexBuffer == old(indexBuffer)
                      && topology == old(topology)
    {
      ok := true;
      if Ready() {
        pointList, lineList, triangleList := [], [], [];
        var inp := CurrentInput();
        var incremental := Stride(topology);
        if incremental > 0 {
          var i := 0;
          while i < |inp.indices|
            invariant incremental == Stride(topology) > 0
            invariant AssembleFrom(inp, topology, i, Lists()) == AssembleFrom(inp, topology, 0, NoOutputs)
            invariant shader == old(shader) && constantBuffer == old(constantBuffer)
            invariant vertexBuffer == old(vertexBuffer) && indexBuffer == old(indexBuffer)
            invariant topology == old(topology) && inp == old(CurrentInput())
            decreases |inp.indices| - i
          {
            var o := Lists();
            var e := Emit(inp, topology, i, o);
            if e.None? {
              return false;
            }
            pointList, lineList, triangleList := e.value.points, e.value.lines, e.value.triangles;
            i := i + incremental;
          }
        }
      }
      vertexBuffer, indexBuffer := None, None;
      topology := Undefined;
    }
  }
}
