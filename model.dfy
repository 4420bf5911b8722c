// Meshes and models (RePi3DModel.cpp): growable vertex and index buffers,
// and a model's transform, mesh list and copy of its animator's palette.

module Models {
  import opened Base
  import opened Primitives
  import opened Skeletal

  /** A material handle; None stands for an empty reference. */
  type MaterialRef = Option<nat>

  /** The unsigned 32-bit count a size is cast to. */
  function U32(n: nat): (r: nat)
    ensures r < 0x1_0000_0000
    ensures n < 0x1_0000_0000 ==> r == n
  {
    n % 0x1_0000_0000
  }

  class Mesh {
    var vertices: seq<Vertex>
    var indices: seq<nat>
    var material: MaterialRef
    var topology: Topology

    /** A new mesh: empty buffers, no material, undefined topology. */
    constructor()
      ensures vertices == [] && indices == [] && material.None? && topology == Undefined
    {
      vertices := [];
      indices := [];
      material := None;
      topology := Undefined;
    }

    /** addVertex: one vertex appended; the earlier ones stay in place. */
    method AddVertex(v: Vertex)
      modifies this`vertices
      ensures vertices == old(vertices) + [v]
      ensures |vertices| == |old(vertices)| + 1 && vertices[..|old(vertices)|] == old(vertices)
    {
      vertices := vertices + [v];
    }

    /** addIndex: one index appended; the earlier ones stay in place. */
    method AddIndex(index: nat)
      modifies this`indices
      ensures indices == old(indices) + [index]
      ensures |indices| == |old(indices)| + 1 && indices[..|old(indices)|] == old(indices)
    {
      indices := indices + [index];
    }

    method SetTopology(t: Topology)
      modifies this`topology
      ensures GetTopology() == t
    {
      topology := t;
    }

    function GetTopology(): Topology
      reads this
    {
      topology
    }

    method SetMaterial(m: MaterialRef)
      modifies this`material
      ensures GetMaterial() == m
    {
      material := m;
    }

    function GetMaterial(): MaterialRef
      reads this
    {
      material
    }
  }

  class Model {
    /** MaxBoneCapacity of the bone palette. */
    const capacity: nat
    /** m_boneTransform: the model's copy of its animator's skinning palette. */
    const bones: array<Matrix>
    var transform: Matrix
    var meshes: seq<Mesh?>
    /** The bound animator; null when none is bound or it has gone away. */
    var animator: Animator?

    predicate Valid()
      reads this, animator
    {
      && bones.Length == capacity
      && (animator != null ==> animator.Valid() && animator.capacity == capacity && animator.palette != bones)
    }

    /** A new model: identity transform, no meshes, no animator. */
    constructor(capacity: nat)
      ensures Valid() && this.capacity == capacity && fresh(bones)
      ensures transform == Identity && meshes == [] && animator == null
    {
      this.capacity := capacity;
      bones := new Matrix[capacity](_ => Identity);
      transform := Identity;
      meshes := [];
      animator := null;
    }

    method SetTransform(m: Matrix)
      modifies this`transform
      ensures GetTransform() == m
    {
      transform := m;
    }

    function GetTransform(): Matrix
      reads this
    {
      transform
    }

    /** AddMesh: the mesh reference is appended; the count grows by one. */
    method AddMesh(mesh: Mesh?)
      modifies this`meshes
      ensures meshes == old(meshes) + [mesh]
      ensures |old(meshes)| + 1 < 0x1_0000_0000 ==> GetMeshCount() == old(GetMeshCount()) + 1
    {
      meshes := meshes + [mesh];
    }

    /** The mesh count as an unsigned 32-bit value. */
    function GetMeshCount(): (n: nat)
      reads this
      ensures n < 0x1_0000_0000
      ensures |meshes| < 0x1_0000_0000 ==> n == |meshes|
    {
      U32(|meshes|)
    }

    method BindAnimator(a: Animator?)
      requires bones.Length == capacity
      requires a != null ==> a.Valid() && a.capacity == capacity && a.palette != bones
      modifies this`animator
      ensures animator == a && Valid()
    {
      animator := a;
    }

    /**
     * Update: while the bound animator is playing, its whole skinning
     * palette is copied into the model; otherwise nothing changes.
     */
    method Update()
      requires Valid()
      modifies bones
      ensures animator != null && animator.IsPlayingAnimation() ==> bones[..] == animator.palette[..]
      ensures animator == null || !animator.IsPlayingAnimation() ==> bones[..] == old(bones[..])
    {
      if animator != null && animator.IsPlayingAnimation() {
        animator.TransferBoneData(bones);
      }
    }
  }
}
