// Vertex, line and triangle values (RePi3DModel.h).

module Primitives {
  import opened Base

  /** Four bone-index slots (uint32_t BoneIndex[4]). */
  type Indices4 = s: seq<nat> | |s| == 4 witness [0, 0, 0, 0]

  /** Four bone weights (the x, y, z, w of a RePiFloat4). */
  type Weights4 = s: seq<real> | |s| == 4 witness [0.0, 0.0, 0.0, 0.0]

  datatype Vertex = Vertex(
    boneIndex: Indices4,
    boneWeight: Weights4,
    position: Float4,
    texCoord: Float2,
    normal: Float3,
    binormal: Float3,
    tangent: Float3)

  datatype Line = Line(v0: Vertex, v1: Vertex)

  datatype Triangle = Triangle(v0: Vertex, v1: Vertex, v2: Vertex, orientation: Orientation)

  const ZeroFloat3 := Float3(0.0, 0.0, 0.0)
  const ZeroFloat2 := Float2(0.0, 0.0)

  /**
   * The vertex constructor: the position is extended with w = 1, and the
   * vertex starts with no bone influence.
   */
  function NewVertex(p: Float3, uv: Float2, n: Float3, b: Float3, t: Float3): (v: Vertex)
    ensures v.position == Float4(p.x, p.y, p.z, 1.0)
    ensures v.texCoord == uv && v.normal == n && v.binormal == b && v.tangent == t
    ensures forall i :: 0 <= i < 4 ==> v.boneIndex[i] == 0 && v.boneWeight[i] == 0.0
  {
    Vertex([0, 0, 0, 0], [0.0, 0.0, 0.0, 0.0], Float4(p.x, p.y, p.z, 1.0), uv, n, b, t)
  }

  /** The default vertex: every attribute zero, except w = 1. */
  function DefaultVertex(): (v: Vertex)
    ensures v.position == Float4(0.0, 0.0, 0.0, 1.0)
  {
    NewVertex(ZeroFloat3, ZeroFloat2, ZeroFloat3, ZeroFloat3, ZeroFloat3)
  }

  /** The line constructor keeps its endpoints in argument order. */
  function NewLine(a: Vertex, b: Vertex): (l: Line)
    ensures l.v0 == a && l.v1 == b
  {
    Line(a, b)
  }

  /**
   * The triangle constructor keeps its corners in argument order; the
   * winding is unknown (collinear) until the geometry stage classifies it.
   */
  function NewTriangle(a: Vertex, b: Vertex, c: Vertex): (t: Triangle)
    ensures t.v0 == a && t.v1 == b && t.v2 == c
    ensures t.orientation == Collinear
  {
    Triangle(a, b, c, Collinear)
  }
}
