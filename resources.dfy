// The resource manager's own logic (RePiResourceManager.cpp): path
// splitting, the skeleton-to-line-mesh flattening, the bone-weight slots
// and topology choice of mesh import, and the key-indexed caches.

module Resources {
  import opened Base
  import opened Primitives
  import opened Geometry
  import opened Skeletal
  import opened Models
  import opened Texturing

  // ---------------------------------------------------------------------
  // Paths.
  // ---------------------------------------------------------------------

  /** std::string::npos for a 64-bit size_t. */
  const NPos: nat := 0xFFFF_FFFF_FFFF_FFFF

  const Separators: set<char> := {'/', '\\'}
  const Dots: set<char> := {'.'}

  predicate NoneOf(s: string, cs: set<char>)
  {
    forall j :: 0 <= j < |s| ==> s[j] !in cs
  }

  /** find_last_of: the last position holding one of cs, if any. */
  function LastOf(s: string, cs: set<char>): (r: Option<nat>)
    ensures r.Some? ==> r.value < |s| && s[r.value] in cs && NoneOf(s[r.value + 1..], cs)
    ensures r.None? <==> NoneOf(s, cs)
  {
    if |s| == 0 then None
    else if s[|s| - 1] in cs then Some(|s| - 1)
    else
      var r := LastOf(s[..|s| - 1], cs);
      assert r.Some? ==> s[r.value + 1..] == s[..|s| - 1][r.value + 1..] + [s[|s| - 1]];
      assert r.None? ==> s == s[..|s| - 1] + [s[|s| - 1]];
      r
  }

  /** find_last_of as the source sees it: a size_t, npos when there is none. */
  function FindLastOf(s: string, cs: set<char>): (r: nat)
    requires |s| < NPos
    ensures r == NPos <==> NoneOf(s, cs)
    ensures r != NPos ==> r < |s| && s[r] in cs && NoneOf(s[r + 1..], cs)
  {
    match LastOf(s, cs)
    case None => NPos
    case Some(i) => i
  }

  /** std::string::substr(pos, count): at most count characters from pos (pos <= size). */
  function Substr(s: string, pos: nat, count: nat): (r: string)
    requires pos <= |s|
    ensures |r| == Min(count, |s| - pos) && r == s[pos .. pos + |r|]
  {
    s[pos .. pos + Min(count, |s| - pos)]
  }

  /**
   * GetFolderPath: empty for an empty path, the whole path when it has no
   * separator, else everything up to and including the last separator.
   */
  function GetFolderPath(path: string): (r: string)
    requires |path| < NPos
    ensures |r| <= |path| && r == path[..|r|]
    ensures NoneOf(path, Separators) ==> r == path
    ensures !NoneOf(path, Separators) ==>
              |r| > 0 && r[|r| - 1] in Separators && NoneOf(path[|r|..], Separators)
  {
    if |path| == 0 then []
    else
      var last := FindLastOf(path, Separators);
      if last == NPos then path else Substr(path, 0, last + 1)
  }

  /** GetFullFileName: the whole path without a separator, else what follows the last one. */
  function GetFullFileName(path: string): (r: string)
    requires |path| < NPos
    ensures |r| <= |path| && r == path[|path| - |r|..]
    ensures NoneOf(r, Separators)
    ensures NoneOf(path, Separators) ==> r == path
  {
    var last := FindLastOf(path, Separators);
    if last == NPos then path else Substr(path, last + 1, |path|)
  }

  /**
   * GetFileName: the whole path when it has no dot; otherwise the text from
   * just after the last separator (from 0 if none: npos + 1 wraps to 0) up
   * to the last dot, or to the end when that dot precedes the separator
   * (the unsigned length wraps to a huge count).
   */
  function GetFileName(path: string): (r: string)
    requires |path| < NPos
    ensures NoneOf(path, Dots) ==> r == path
    ensures !NoneOf(path, Dots) && NoneOf(path, Separators) ==> r == path[..FindLastOf(path, Dots)]
    ensures !NoneOf(path, Dots) && !NoneOf(path, Separators) ==>
              var dot, sep := FindLastOf(path, Dots), FindLastOf(path, Separators);
              r == if sep < dot then path[sep + 1 .. dot] else path[sep + 1..]
  {
    var sep := FindLastOf(path, Separators);
    var start := (sep + 1) % (NPos + 1);
    WrapSucc(sep);
    var dot := FindLastOf(path, Dots);
    if start == NPos || dot == NPos then path
    else
      var count := (dot - start) % (NPos + 1);
      WrapDiff(dot, start);
      Substr(path, start, count)
  }

  /** size_t increment: npos + 1 wraps to 0. */
  lemma WrapSucc(x: nat)
    requires x <= NPos
    ensures (x + 1) % (NPos + 1) == if x == NPos then 0 else x + 1
  {
  }

  /** size_t difference: a smaller minuend wraps to a count past any string. */
  lemma WrapDiff(a: nat, b: nat)
    requires a < NPos && b < NPos
    ensures (a - b) % (NPos + 1) == if a >= b then a - b else NPos + 1 + a - b
  {
  }

  /** With a separator, the folder and the full file name split the path. */
  lemma SplitPath(path: string)
    requires |path| < NPos && !NoneOf(path, Separators)
    ensures GetFolderPath(path) + GetFullFileName(path) == path
  {
    var i := LastOf(path, Separators).value;
    assert GetFolderPath(path) == path[..i + 1];
    assert GetFullFileName(path) == path[i + 1..];
  }

  /**
   * When the last dot follows the last separator, the full file name is the
   * file name followed by the extension from that dot on; otherwise the
   * file name is the full file name.
   */
  lemma FileNameIsStem(path: string)
    requires |path| < NPos && !NoneOf(path, Dots)
    ensures var dot := FindLastOf(path, Dots);
            var sep := FindLastOf(path, Separators);
            if sep == NPos || sep < dot then GetFullFileName(path) == GetFileName(path) + path[dot..]
            else GetFileName(path) == GetFullFileName(path)
  {
    var dot := FindLastOf(path, Dots);
    var sep := FindLastOf(path, Separators);
    if sep == NPos {
      StemOfBareName(path);
    } else if sep < dot {
      StemAfterSeparator(path);
    } else {
      assert GetFullFileName(path) == path[sep + 1..];
    }
  }

  lemma StemOfBareName(path: string)
    requires |path| < NPos && !NoneOf(path, Dots) && NoneOf(path, Separators)
    ensures GetFullFileName(path) == GetFileName(path) + path[FindLastOf(path, Dots)..]
  {
    var dot := FindLastOf(path, Dots);
    assert path == path[..dot] + path[dot..];
  }

  lemma StemAfterSeparator(path: string)
    requires |path| < NPos && !NoneOf(path, Dots) && !NoneOf(path, Separators)
    requires FindLastOf(path, Separators) < FindLastOf(path, Dots)
    ensures GetFullFileName(path) == GetFileName(path) + path[FindLastOf(path, Dots)..]
  {
    var dot := FindLastOf(path, Dots);
    var sep := FindLastOf(path, Separators);
    assert GetFullFileName(path) == path[sep + 1..];
    assert path[sep + 1..] == path[sep + 1 .. dot] + path[dot..];
  }

  /** A bare file name is its own folder: the folder and full name do not split it. */
  lemma BareNameIsItsOwnFolder()
    ensures GetFolderPath("a.bmp") == "a.bmp"
    ensures GetFolderPath("a.bmp") + GetFullFileName("a.bmp") != "a.bmp"
  {
    assert NoneOf("a.bmp", Separators);
  }

  /** The intended folder: empty when there is no separator. */
  function FolderPath(path: string): (r: string)
    requires |path| < NPos
    ensures NoneOf(path, Separators) ==> r == []
    ensures !NoneOf(path, Separators) ==> r == GetFolderPath(path)
  {
    var last := FindLastOf(path, Separators);
    if last == NPos then [] else Substr(path, 0, last + 1)
  }

  /** The intended folder and the full file name always split the path. */
  lemma SplitPathAlways(path: string)
    requires |path| < NPos
    ensures FolderPath(path) + GetFullFileName(path) == path
  {
    if !NoneOf(path, Separators) {
      SplitPath(path);
    } else {
      assert [] + path == path;
    }
  }

  // ---------------------------------------------------------------------
  // The skeleton as a line mesh (ProcessBone).
  // ---------------------------------------------------------------------

  /** The bones reached from name, depth first, each before its children. */
  function PreOrder(bones: map<string, Bone>, rank: map<string, nat>, name: string): seq<string>
    requires Ranked(bones, rank) && name in bones
    decreases rank[name], 1
  {
    [name] + ChildOrder(bones, rank, name, 0)
  }

  /** The live children of name from the i-th on, each followed by its subtree. */
  function ChildOrder(bones: map<string, Bone>, rank: map<string, nat>, name: string, i: nat): seq<string>
    requires Ranked(bones, rank) && name in bones
    decreases rank[name], 0, |bones[name].children| - i
  {
    var children := bones[name].children;
    if i >= |children| then []
    else
      (if children[i] in bones then PreOrder(bones, rank, children[i]) else [])
      + ChildOrder(bones, rank, name, i + 1)
  }

  /** The index pairs (parent, child) of the subtree, each before the child's own pairs. */
  function Edges(bones: map<string, Bone>, rank: map<string, nat>, name: string): seq<nat>
    requires Ranked(bones, rank) && name in bones
    decreases rank[name], 1
  {
    ChildEdges(bones, rank, name, 0)
  }

  function ChildEdges(bones: map<string, Bone>, rank: map<string, nat>, name: string, i: nat): seq<nat>
    requires Ranked(bones, rank) && name in bones
    decreases rank[name], 0, |bones[name].children| - i
  {
    var children := bones[name].children;
    if i >= |children| then []
    else
      (if children[i] in bones
       then [bones[name].index, bones[children[i]].index] + Edges(bones, rank, children[i])
       else [])
      + ChildEdges(bones, rank, name, i + 1)
  }

  /** Each bone below the first contributes one (parent, child) pair: two indices. */
  lemma {:induction false} EdgeCount(bones: map<string, Bone>, rank: map<string, nat>, name: string)
    requires Ranked(bones, rank) && name in bones
    ensures |Edges(bones, rank, name)| == 2 * (|PreOrder(bones, rank, name)| - 1)
    decreases rank[name], 1
  {
    ChildEdgeCount(bones, rank, name, 0);
  }

  lemma {:induction false} ChildEdgeCount(bones: map<string, Bone>, rank: map<string, nat>, name: string, i: nat)
    requires Ranked(bones, rank) && name in bones
    ensures |ChildEdges(bones, rank, name, i)| == 2 * |ChildOrder(bones, rank, name, i)|
    decreases rank[name], 0, |bones[name].children| - i
  {
    var children := bones[name].children;
    if i < |children| {
      if children[i] in bones {
        EdgeCount(bones, rank, children[i]);
      }
      ChildEdgeCount(bones, rank, name, i + 1);
    }
  }

  /** A bone has pairs exactly when it has a child: the hierarchy's children are all live. */
  lemma EdgesIffChild(bones: map<string, Bone>, rank: map<string, nat>, name: string)
    requires Ranked(bones, rank) && name in bones
    ensures |Edges(bones, rank, name)| > 0 <==> |bones[name].children| > 0
  {
    var children := bones[name].children;
    if |children| > 0 {
      assert children[0] in bones;
      assert ChildEdges(bones, rank, name, 0)[0] == bones[name].index;
    }
  }

  /** The vertex for the k-th bone visited: default attributes, bone slot 0 = k with weight 1. */
  function SkeletonVertex(k: nat): (v: Vertex)
    ensures v.boneIndex[0] == U32(k) && v.boneWeight[0] == 1.0
    ensures forall i :: 1 <= i < 4 ==> v.boneIndex[i] == 0 && v.boneWeight[i] == 0.0
    ensures v.position == DefaultVertex().position
  {
    DefaultVertex().(boneIndex := [U32(k), 0, 0, 0], boneWeight := [1.0, 0.0, 0.0, 0.0])
  }

  /** The vertices of n consecutive visits numbered from start. */
  function VertexRun(start: nat, n: nat): (vs: seq<Vertex>)
    ensures |vs| == n && forall j :: 0 <= j < n ==> vs[j] == SkeletonVertex(start + j)
  {
    seq(n, j requires 0 <= j < n => SkeletonVertex(start + j))
  }

  lemma VertexRunConcat(start: nat, n: nat, m: nat)
    ensures VertexRun(start, n) + VertexRun(start + n, m) == VertexRun(start, n + m)
  {
    var a, b := VertexRun(start, n) + VertexRun(start + n, m), VertexRun(start, n + m);
    forall j | 0 <= j < n + m
      ensures a[j] == b[j]
    {
      if j >= n {
        assert a[j] == VertexRun(start + n, m)[j - n];
      }
    }
  }

  /**
   * ProcessBone: for a live bone, one vertex numbered by the count so far,
   * then for each live child its (parent, child) index pair and its
   * subtree; nothing for a dead bone.
   */
  method ProcessBone(s: Skeleton, vertices: seq<Vertex>, indices: seq<nat>, bone: Option<string>)
    returns (vs: seq<Vertex>, ixs: seq<nat>)
    requires s.Valid()
    ensures bone.Some? && bone.value in s.bones ==>
              && vs == vertices + VertexRun(|vertices|, |PreOrder(s.bones, s.rank, bone.value)|)
              && ixs == indices + Edges(s.bones, s.rank, bone.value)
    ensures !(bone.Some? && bone.value in s.bones) ==> vs == vertices && ixs == indices
    decreases if bone.Some? && bone.value in s.rank then s.rank[bone.value] else 0, 1
  {
    vs, ixs := vertices, indices;
    if bone.Some? && bone.value in s.bones {
      var name := bone.value;
      var b := s.bones[name];
      vs := vs + [SkeletonVertex(|vs|)];
      ghost var order := PreOrder(s.bones, s.rank, name);
      ghost var edges := Edges(s.bones, s.rank, name);
      var i := 0;
      while i < |b.children|
        invariant i <= |b.children| && |vertices| < |vs|
        invariant vs == vertices + VertexRun(|vertices|, |vs| - |vertices|)
        invariant |vs| - |vertices| + |ChildOrder(s.bones, s.rank, name, i)| == |order|
        invariant ixs + ChildEdges(s.bones, s.rank, name, i) == indices + edges
      {
        ghost var before := vs;
        vs, ixs := ProcessChild(s, vs, ixs, name, i);
        VertexRunConcat(|vertices|, |before| - |vertices|, |vs| - |before|);
        i := i + 1;
      }
    }
  }

  /** One step of ProcessBone's loop: the i-th child's pair and subtree, if it is live. */
  method ProcessChild(s: Skeleton, vertices: seq<Vertex>, indices: seq<nat>, name: string, i: nat)
    returns (vs: seq<Vertex>, ixs: seq<nat>)
    requires s.Valid() && name in s.bones && i < |s.bones[name].children|
    ensures |vertices| <= |vs| && vs == vertices + VertexRun(|vertices|, |vs| - |vertices|)
    ensures |vs| - |vertices| + |ChildOrder(s.bones, s.rank, name, i + 1)| == |ChildOrder(s.bones, s.rank, name, i)|
    ensures ixs + ChildEdges(s.bones, s.rank, name, i + 1) == indices + ChildEdges(s.bones, s.rank, name, i)
    decreases s.rank[name], 0
  {
    var b := s.bones[name];
    var child := b.children[i];
    vs, ixs := vertices, indices;
    if child in s.bones {
      ghost var sub := Edges(s.bones, s.rank, child);
      ghost var rest := ChildEdges(s.bones, s.rank, name, i + 1);
      ixs := ixs + [b.index, s.bones[child].index];
      assert indices + ChildEdges(s.bones, s.rank, name, i) == ixs + sub + rest;
      vs, ixs := ProcessBone(s, vs, ixs, Some(child));
    }
  }

  /** A fresh line-list mesh holding the given vertices and indices. */
  method MakeLineMesh(vertices: seq<Vertex>, indices: seq<nat>) returns (m: Mesh)
    ensures fresh(m)
    ensures m.vertices == vertices && m.indices == indices && m.topology == LineList && m.material.None?
  {
    m := new Mesh();
    for i := 0 to |vertices|
      invariant m.vertices == vertices[..i] && m.indices == [] && m.topology == Undefined && m.material.None?
    {
      m.AddVertex(vertices[i]);
      assert vertices[..i + 1] == vertices[..i] + [vertices[i]];
    }
    for i := 0 to |indices|
      invariant m.vertices == vertices && m.indices == indices[..i] && m.topology == Undefined && m.material.None?
    {
      m.AddIndex(indices[i]);
      assert indices[..i + 1] == indices[..i] + [indices[i]];
    }
    m.SetTopology(LineList);
  }

  /**
   * The skeleton flattened from its root: a line-list mesh of one vertex
   * per bone and one index pair per parent-child link, made only when
   * both lists are nonempty.
   */
  method SkeletonMesh(s: Skeleton) returns (m: Mesh?)
    requires s.Valid()
    ensures m != null <==> HasLines(s.bones, s.rank, s.root)
    ensures m != null ==>
              && fresh(m) && m.topology == LineList
              && m.vertices == VertexRun(0, |PreOrder(s.bones, s.rank, s.root.value)|)
              && m.indices == Edges(s.bones, s.rank, s.root.value)
  {
    var vs, ixs := ProcessBone(s, [], [], s.root);
    if |vs| > 0 && |ixs| > 0 {
      m := MakeLineMesh(vs, ixs);
    } else {
      m := null;
    }
  }

  /** The skeleton yields a line mesh: its root is live and has a child. */
  predicate HasLines(bones: map<string, Bone>, rank: map<string, nat>, root: Option<string>)
    requires Ranked(bones, rank)
  {
    root.Some? && root.value in bones && |Edges(bones, rank, root.value)| > 0
  }

  // ---------------------------------------------------------------------
  // Mesh import: bone-weight slots and topology.
  // ---------------------------------------------------------------------

  /** The first of the four slots whose weight is zero, if any. */
  function FirstFreeSlot(w: Weights4): (r: Option<nat>)
    ensures r.Some? ==> r.value < 4 && w[r.value] == 0.0 && forall i :: 0 <= i < r.value ==> w[i] != 0.0
    ensures r.None? ==> forall i :: 0 <= i < 4 ==> w[i] != 0.0
  {
    if w[0] == 0.0 then Some(0)
    else if w[1] == 0.0 then Some(1)
    else if w[2] == 0.0 then Some(2)
    else if w[3] == 0.0 then Some(3)
    else None
  }

  /**
   * One bone weight of mesh import: stored with its bone index in the
   * first free slot; dropped when all four are taken.  Occupied slots
   * never change.
   */
  method AssignWeight(v: Vertex, bone: nat, weight: real) returns (r: Vertex)
    ensures FirstFreeSlot(v.boneWeight).None? ==> r == v
    ensures FirstFreeSlot(v.boneWeight).Some? ==>
              var j := FirstFreeSlot(v.boneWeight).value;
              r == v.(boneWeight := v.boneWeight[j := weight], boneIndex := v.boneIndex[j := bone])
    ensures forall i :: 0 <= i < 4 && v.boneWeight[i] != 0.0 ==>
              r.boneWeight[i] == v.boneWeight[i] && r.boneIndex[i] == v.boneIndex[i]
  {
    r := v;
    var slot := 0;
    while slot < 4
      invariant slot <= 4 && r == v
      invariant forall i :: 0 <= i < slot ==> v.boneWeight[i] != 0.0
    {
      if r.boneWeight[slot] == 0.0 {
        r := r.(boneWeight := r.boneWeight[slot := weight], boneIndex := r.boneIndex[slot := bone]);
        return;
      }
      slot := slot + 1;
    }
  }

  /** The topology of an imported mesh: triangles when the index count divides by 3, else points. */
  function MeshTopology(indexCount: nat): (t: Topology)
    ensures t == TriangleList <==> indexCount % 3 == 0
    ensures t == PointList <==> indexCount % 3 != 0
  {
    if indexCount % 3 != 0 then PointList else TriangleList
  }

  /** The chosen topology's stride always divides the index count: assembly never runs short. */
  lemma MeshTopologyAssembles(indexCount: nat)
    ensures var s := Stride(MeshTopology(indexCount)); s > 0 && indexCount % s == 0
  {
  }

  // ---------------------------------------------------------------------
  // The caches.
  // ---------------------------------------------------------------------

  class ResourceManager {
    /** mIsReady: the custom resources have been prepared. */
    var ready: bool
    var skeletons: map<nat, Skeleton>
    var meshes: map<nat, Mesh>
    var images: map<nat, Texture>
    /** mDifuseError: the fallback diffuse texture. */
    var diffuseError: Texture?

    function Skeletons(): set<Skeleton>
      reads this
    {
      set k | k in skeletons :: skeletons[k]
    }

    ghost predicate Valid()
      reads this, Skeletons()
    {
      forall k :: k in skeletons ==> skeletons[k].Valid()
    }

    constructor()
      ensures Valid() && !ready && diffuseError == null
      ensures skeletons == map[] && meshes == map[] && images == map[]
    {
      ready := false;
      skeletons := map[];
      meshes := map[];
      images := map[];
      diffuseError := null;
    }

    /**
     * GetSkeleton: none for key 0; the cached skeleton for a known key;
     * otherwise the skeleton built from the imported scene (built; null
     * without one), cached only when there is one.
     */
    method GetSkeleton(key: nat, built: Skeleton?) returns (r: Skeleton?)
      requires Valid() && (built != null ==> built.Valid())
      modifies this`skeletons
      ensures Valid() && (r != null ==> r.Valid())
      ensures key == 0 ==> r == null && skeletons == old(skeletons)
      ensures key != 0 && key in old(skeletons) ==> r == old(skeletons)[key] && skeletons == old(skeletons)
      ensures key != 0 && key !in old(skeletons) ==>
                && r == built
                && skeletons == if built == null then old(skeletons) else old(skeletons)[key := built]
    {
      if key == 0 {
        return null;
      }
      if key in skeletons {
        r := skeletons[key];
      } else if built != null {
        r := built;
        skeletons := skeletons[key := built];
      } else {
        r := null;
      }
    }

    /**
     * GetSkeletonMesh: none for key 0; the cached mesh for a known key;
     * otherwise the skeleton's bones flattened from the root into a
     * line-list mesh, made and cached only when it has both vertices and
     * index pairs.
     */
    method GetSkeletonMesh(key: nat, built: Skeleton?) returns (m: Mesh?)
      requires Valid() && (built != null ==> built.Valid())
      modifies this`skeletons, this`meshes
      ensures Valid()
      ensures key == 0 ==> m == null && meshes == old(meshes) && skeletons == old(skeletons)
      ensures key != 0 && key in old(meshes) ==>
                m == old(meshes)[key] && meshes == old(meshes) && skeletons == old(skeletons)
      ensures key != 0 && key !in old(meshes) ==>
                var s := if key in old(skeletons) then old(skeletons)[key] else built;
                && (m != null <==> s != null && HasLines(s.bones, s.rank, s.root))
                && (m != null ==>
                      && fresh(m) && meshes == old(meshes)[key := m] && m.topology == LineList
                      && m.vertices == VertexRun(0, |PreOrder(s.bones, s.rank, s.root.value)|)
                      && m.indices == Edges(s.bones, s.rank, s.root.value))
                && (m == null ==> meshes == old(meshes))
                && skeletons == (if key in old(skeletons) || built == null then old(skeletons)
                                 else old(skeletons)[key := built])
    {
      if key == 0 {
        return null;
      }
      if key in meshes {
        return meshes[key];
      }
      m := null;
      var s := GetSkeleton(key, built);
      if s != null {
        m := SkeletonMesh(s);
        if m != null {
          meshes := meshes[key := m];
        }
      }
    }

    /**
     * GetImage: none for key 0; the cached texture for a known key;
     * otherwise the texture read from the file (loaded; null when the read
     * fails), cached only when the read succeeds.
     */
    method GetImage(key: nat, loaded: Texture?) returns (t: Texture?)
      modifies this`images
      ensures key == 0 ==> t == null && images == old(images)
      ensures key != 0 && key in old(images) ==> t == old(images)[key] && images == old(images)
      ensures key != 0 && key !in old(images) ==>
                && t == loaded
                && images == if loaded == null then old(images) else old(images)[key := loaded]
    {
      if key == 0 {
        return null;
      }
      if key in images {
        t := images[key];
      } else if loaded != null {
        t := loaded;
        images := images[key := loaded];
      } else {
        t := null;
      }
    }

    /**
     * InitCustomResources: a second call is a fatal error and changes
     * nothing; the first marks the manager ready and fetches the fallback
     * diffuse texture under its key.
     */
    method InitCustomResources(errorKey: nat, loaded: Texture?) returns (o: Outcome)
      modifies this`ready, this`diffuseError, this`images
      ensures old(ready) ==> o.Fatal? && ready && diffuseError == old(diffuseError) && images == old(images)
      ensures !old(ready) ==> o == Done && ready
      ensures !old(ready) && errorKey != 0 && errorKey !in old(images) ==> diffuseError == loaded
      ensures !old(ready) && errorKey != 0 && errorKey in old(images) ==> diffuseError == old(images)[errorKey]
      ensures !old(ready) && errorKey == 0 ==> diffuseError == null
      ensures !old(ready) ==>
                images == if errorKey == 0 || errorKey in old(images) || loaded == null then old(images)
                          else old(images)[errorKey := loaded]
    {
      if ready {
        return Fatal("Custom resources already prepared");
      }
      ready := true;
      diffuseError := GetImage(errorKey, loaded);
      o := Done;
    }
  }
}
