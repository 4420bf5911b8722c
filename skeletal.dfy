// Skeletal animation bookkeeping (RePiAnimator.cpp): the skeleton's bone
// registry, a channel's key-frame tracks and their time lookup, an
// animation's channel map, and the animator that plays an animation and
// fills the joint and skinning palettes by walking the bone hierarchy.

module Skeletal {
  import opened Base

  // ---------------------------------------------------------------------
  // Names and their order.
  // ---------------------------------------------------------------------

  /** std::string's operator<: lexicographic on characters, a proper prefix first. */
  predicate StrLess(a: string, b: string)
    decreases |a|
  {
    |b| > 0 && (|a| == 0 || a[0] < b[0] || (a[0] == b[0] && StrLess(a[1..], b[1..])))
  }

  lemma {:induction false} StrTrichotomy(a: string, b: string)
    ensures a == b || StrLess(a, b) || StrLess(b, a)
    decreases |a|
  {
    if |a| > 0 && |b| > 0 && a[0] == b[0] {
      StrTrichotomy(a[1..], b[1..]);
      if a[1..] == b[1..] {
        assert a == [a[0]] + a[1..] && b == [b[0]] + b[1..];
      }
    }
  }

  /** Strictly increasing names: the key order of a std::map<std::string, _>. */
  predicate SortedNames(s: seq<string>)
  {
    forall i, j :: 0 <= i < j < |s| ==> StrLess(s[i], s[j])
  }

  /** The key sequence after std::map inserts a new key n. */
  function InsertName(s: seq<string>, n: string): (r: seq<string>)
    requires SortedNames(s) && n !in s
    ensures SortedNames(r)
    ensures |r| == |s| + 1
    ensures forall x :: x in r <==> x in s || x == n
  {
    if |s| == 0 then [n]
    else if StrLess(n, s[0]) then
      assert forall j :: 0 <= j < |s| ==> StrLess(n, s[j]) by {
        forall j | 0 <= j < |s| ensures StrLess(n, s[j]) {
          if j > 0 { StrTransitive(n, s[0], s[j]); }
        }
      }
      [n] + s
    else
      StrTrichotomy(n, s[0]);
      var rest := InsertName(s[1..], n);
      assert forall x :: x in rest ==> StrLess(s[0], x);
      [s[0]] + rest
  }

  lemma {:induction false} StrTransitive(a: string, b: string, c: string)
    requires StrLess(a, b) && StrLess(b, c)
    ensures StrLess(a, c)
    decreases |a|
  {
    if |a| > 0 && a[0] == b[0] && b[0] == c[0] {
      StrTransitive(a[1..], b[1..], c[1..]);
    }
  }

  // ---------------------------------------------------------------------
  // The skeleton: bones by name, with dense indices.
  // ---------------------------------------------------------------------

  /**
   * A bone (RePiBone): its index in the palettes, its rest transform, its
   * offset (mesh to bone space) and the names of its children.  The
   * children are the bones mChildren points to, named by their map keys.
   */
  datatype Bone = Bone(name: string, index: nat, transform: Matrix, offset: Matrix, children: seq<string>)

  /** A new bone: identity transforms and no children. */
  function NewBone(name: string, index: nat): Bone
  {
    Bone(name, index, Identity, Identity, [])
  }

  /** Every bone is stored under its own name. */
  predicate Named(bones: map<string, Bone>)
  {
    forall n :: n in bones ==> bones[n].name == n
  }

  /** Indices are below the bone count and pairwise distinct: 0 .. count - 1, each once. */
  predicate DenseMap(bones: map<string, Bone>)
  {
    && (forall n :: n in bones ==> bones[n].index < |bones|)
    && (forall n, m :: n in bones && m in bones && n != m ==> bones[n].index != bones[m].index)
  }

  /** Children are bones of the map, ranked below their parent: the hierarchy has no cycle. */
  predicate Ranked(bones: map<string, Bone>, rank: map<string, nat>)
  {
    && (forall n :: n in bones ==> n in rank)
    && (forall n, c :: n in bones && c in bones[n].children ==> c in bones && rank[c] < rank[n])
  }

  /** Every bone's index fits a palette of the given capacity. */
  predicate Fits(bones: map<string, Bone>, capacity: nat)
  {
    forall n :: n in bones ==> bones[n].index < capacity
  }

  /** A new bone indexed by the old count keeps the indices dense. */
  lemma AddBoneDense(bones: map<string, Bone>, name: string)
    requires DenseMap(bones) && name !in bones
    ensures DenseMap(bones[name := NewBone(name, |bones|)])
  {
    var bones' := bones[name := NewBone(name, |bones|)];
    assert |bones'| == |bones| + 1;
  }

  /** A new bone without children, at rank 0, keeps the hierarchy ranked. */
  lemma AddBoneRanked(bones: map<string, Bone>, rank: map<string, nat>, name: string)
    requires Ranked(bones, rank) && name !in bones
    ensures Ranked(bones[name := NewBone(name, |bones|)], rank[name := 0])
  {
  }

  class Skeleton {
    var bones: map<string, Bone>
    var root: Option<string>
    /** A rank that drops from parent to child: the hierarchy is a finite tree. */
    ghost var rank: map<string, nat>

    ghost predicate Valid()
      reads this
    {
      Named(bones) && DenseMap(bones) && Ranked(bones, rank) && (root.Some? ==> root.value in bones)
    }

    constructor()
      ensures Valid() && bones == map[] && root == None
    {
      bones := map[];
      root := None;
      rank := map[];
    }

    method SetRoot(name: Option<string>)
      requires Valid() && (name.Some? ==> name.value in bones)
      modifies this`root
      ensures Valid() && root == name
    {
      root := name;
    }

    /**
     * GetBone: the bone stored under name; an unknown name gets a new bone
     * whose index is the old bone count.
     */
    method GetBone(name: string) returns (b: Bone)
      requires Valid()
      modifies this`bones, this`rank
      ensures Valid() && root == old(root)
      ensures name in old(bones) ==> bones == old(bones) && b == bones[name]
      ensures name !in old(bones) ==> b == NewBone(name, |old(bones)|) && bones == old(bones)[name := b]
      ensures |bones| == |old(bones)| + (if name in old(bones) then 0 else 1)
      ensures b.name == name && b.index < |bones|
    {
      if name in bones {
        b := bones[name];
      } else {
        b := NewBone(name, |bones|);
        AddBoneDense(bones, name);
        AddBoneRanked(bones, rank, name);
        bones := bones[name := b];
        rank := rank[name := 0];
      }
    }

    /** GetBoneIndex: the index of the bone of that name, registering it when it is new. */
    method GetBoneIndex(name: string) returns (index: nat)
      requires Valid()
      modifies this`bones, this`rank
      ensures Valid() && name in bones && index == bones[name].index
      ensures name in old(bones) ==> bones == old(bones) && index == old(bones)[name].index
      ensures name !in old(bones) ==> index == |old(bones)| && |bones| == |old(bones)| + 1
    {
      var b := GetBone(name);
      index := b.index;
    }

    /** GetBoneCount: the number of bones; every index is below it. */
    function GetBoneCount(): (n: nat)
      reads this
      requires Valid()
      ensures forall name :: name in bones ==> bones[name].index < n
    {
      |bones|
    }
  }

  /** The bone map after GetBone is called on each of names in turn. */
  function Registered(bones: map<string, Bone>, names: seq<string>): map<string, Bone>
    decreases |names|
  {
    if |names| == 0 then bones
    else
      var b := if names[0] in bones then bones else bones[names[0] := NewBone(names[0], |bones|)];
      Registered(b, names[1..])
  }

  /**
   * Registering names one after another keeps the indices dense, leaves
   * the bones already there untouched, and registers every name.
   */
  lemma {:induction false} RegisteredKeepsDense(bones: map<string, Bone>, names: seq<string>)
    requires DenseMap(bones)
    ensures DenseMap(Registered(bones, names))
    ensures forall n :: n in bones ==> n in Registered(bones, names) && Registered(bones, names)[n] == bones[n]
    ensures forall k :: 0 <= k < |names| ==> names[k] in Registered(bones, names)
    decreases |names|
  {
    if |names| > 0 {
      var b := if names[0] in bones then bones else bones[names[0] := NewBone(names[0], |bones|)];
      if names[0] !in bones {
        AddBoneDense(bones, names[0]);
      }
      RegisteredKeepsDense(b, names[1..]);
      forall k | 0 <= k < |names|
        ensures names[k] in Registered(bones, names)
      {
        if k > 0 {
          assert names[k] == names[1..][k - 1];
        }
      }
    }
  }

  // ---------------------------------------------------------------------
  // Key frames and channels.
  // ---------------------------------------------------------------------

  /** A key (RePiKeyFrameData); next is the position of the following key in its track. */
  datatype KeyFrame = KeyFrame(time: real, position: Vector3, scale: Vector3, rotation: Quaternion, next: Option<nat>)

  const ZeroVector := Vec(Float3(0.0, 0.0, 0.0))

  /** RePiQuaternion::IDENTITY as (x, y, z, w). */
  const IdentityRotation := Quat(Float4(0.0, 0.0, 0.0, 1.0))

  /** Each key links to the one after it, and the last key to nothing. */
  predicate Linked(track: seq<KeyFrame>)
  {
    forall i :: 0 <= i < |track| ==> track[i].next == (if i + 1 < |track| then Some(i + 1) else None)
  }

  /**
   * AddKeyFrameData: append a key with no successor and point the old last
   * key at it.
   */
  function AddKeyFrameData(track: seq<KeyFrame>, time: real, position: Vector3, scale: Vector3, rotation: Quaternion)
    : (r: seq<KeyFrame>)
    ensures |r| == |track| + 1
    ensures r[|track|] == KeyFrame(time, position, scale, rotation, None)
    ensures forall i :: 0 <= i < |track| ==> r[i] == track[i].(next := if i + 1 == |track| then Some(|track|) else track[i].next)
    ensures Linked(track) ==> Linked(r)
  {
    var key := KeyFrame(time, position, scale, rotation, None);
    if |track| == 0 then [key]
    else track[..|track| - 1] + [track[|track| - 1].(next := Some(|track|))] + [key]
  }

  /** The lookup's loop from key i on; best is the key chosen so far. */
  function ScanKeys(track: seq<KeyFrame>, t: real, i: nat, best: nat): (r: nat)
    requires 0 < |track| && i <= |track| && best < |track|
    requires i == 0 ==> best == 0
    requires i > 0 ==> best == i - 1 && forall k :: 0 <= k < i ==> track[k].time <= t
    ensures r < |track|
    ensures t < track[0].time ==> r == 0
    ensures track[0].time <= t ==>
              (forall k :: 0 <= k <= r ==> track[k].time <= t) && (r + 1 < |track| ==> t < track[r + 1].time)
    decreases |track| - i
  {
    if i == |track| || t < track[i].time then best
    else ScanKeys(track, t, i + 1, i)
  }

  /**
   * GetKeyFrameDataByTime: none for an empty track; the first key when t
   * comes before it; otherwise the key just before the first key later
   * than t (the last key when there is none).
   */
  function GetKeyFrameDataByTime(t: real, track: seq<KeyFrame>): (r: Option<nat>)
    ensures r.None? <==> |track| == 0
    ensures r.Some? ==> r.value < |track|
    ensures r.Some? && t < track[0].time ==> r.value == 0
    ensures r.Some? && track[0].time <= t ==>
              (forall k :: 0 <= k <= r.value ==> track[k].time <= t)
              && (r.value + 1 < |track| ==> t < track[r.value + 1].time)
  {
    if |track| == 0 then None else Some(ScanKeys(track, t, 0, 0))
  }

  predicate TimesSorted(track: seq<KeyFrame>)
  {
    forall i, j :: 0 <= i <= j < |track| ==> track[i].time <= track[j].time
  }

  /** For keys in time order, the lookup returns the last key whose time is at most t. */
  lemma KeyLookupSorted(t: real, track: seq<KeyFrame>)
    requires TimesSorted(track) && 0 < |track| && track[0].time <= t
    ensures var r := GetKeyFrameDataByTime(t, track).value;
            track[r].time <= t && forall k :: r < k < |track| ==> t < track[k].time
  {
    var r := GetKeyFrameDataByTime(t, track).value;
    forall k | r < k < |track|
      ensures t < track[k].time
    {
      assert track[r + 1].time <= track[k].time;
    }
  }

  /** A vector track's value at t: the chosen key, lerped toward its successor. */
  function VectorAt(track: seq<KeyFrame>, t: real, ofScale: bool): Option<Vector3>
  {
    match GetKeyFrameDataByTime(t, track)
    case None => None
    case Some(r) =>
      var v := if ofScale then track[r].scale else track[r].position;
      match track[r].next
      case Some(j) =>
        if j < |track| then
          var w := if ofScale then track[j].scale else track[j].position;
          Some(Lerp(v, w, Fraction(t, track[r].time, track[j].time)))
        else Some(v)
      case None => Some(v)
  }

  /** The rotation track's value at t: the chosen key, slerped toward its successor. */
  function RotationAt(track: seq<KeyFrame>, t: real): Option<Quaternion>
  {
    match GetKeyFrameDataByTime(t, track)
    case None => None
    case Some(r) =>
      match track[r].next
      case Some(j) =>
        if j < |track| then Some(Slerp(track[r].rotation, track[j].rotation, Fraction(t, track[r].time, track[j].time)))
        else Some(track[r].rotation)
      case None => Some(track[r].rotation)
  }

  /** After the last key of a linked track, its value holds without interpolation. */
  lemma HoldsAfterLastKey(track: seq<KeyFrame>, t: real, ofScale: bool)
    requires Linked(track) && TimesSorted(track) && 0 < |track| && track[|track| - 1].time <= t
    ensures var last := track[|track| - 1];
            VectorAt(track, t, ofScale) == Some(if ofScale then last.scale else last.position)
            && RotationAt(track, t) == Some(last.rotation)
  {
    var r := GetKeyFrameDataByTime(t, track).value;
    assert r == |track| - 1;
  }

  /** Between two linked keys, the value is interpolated from the earlier toward the later. */
  lemma InterpolatesBetweenKeys(track: seq<KeyFrame>, t: real, i: nat)
    requires Linked(track) && i + 1 < |track| && track[0].time <= t
    requires forall k :: 0 <= k <= i ==> track[k].time <= t
    requires t < track[i + 1].time
    ensures VectorAt(track, t, false)
         == Some(Lerp(track[i].position, track[i + 1].position, Fraction(t, track[i].time, track[i + 1].time)))
    ensures RotationAt(track, t)
         == Some(Slerp(track[i].rotation, track[i + 1].rotation, Fraction(t, track[i].time, track[i + 1].time)))
  {
    var r := GetKeyFrameDataByTime(t, track).value;
    assert r == i;
  }

  /** A channel (RePiChannel): three key tracks for one bone. */
  class Channel {
    const boneIndex: nat
    var scaleKeys: seq<KeyFrame>
    var rotationKeys: seq<KeyFrame>
    var positionKeys: seq<KeyFrame>

    constructor(boneIndex: nat)
      ensures this.boneIndex == boneIndex
      ensures scaleKeys == [] && rotationKeys == [] && positionKeys == []
    {
      this.boneIndex := boneIndex;
      scaleKeys, rotationKeys, positionKeys := [], [], [];
    }

    predicate Valid()
      reads this
    {
      Linked(scaleKeys) && Linked(rotationKeys) && Linked(positionKeys)
    }

    method AddScaleKey(scale: Vector3, time: real)
      requires Valid()
      modifies this`scaleKeys
      ensures Valid()
      ensures scaleKeys == AddKeyFrameData(old(scaleKeys), time, ZeroVector, scale, IdentityRotation)
    {
      scaleKeys := AddKeyFrameData(scaleKeys, time, ZeroVector, scale, IdentityRotation);
    }

    method AddRotationKey(rotation: Quaternion, time: real)
      requires Valid()
      modifies this`rotationKeys
      ensures Valid()
      ensures rotationKeys == AddKeyFrameData(old(rotationKeys), time, ZeroVector, ZeroVector, rotation)
    {
      rotationKeys := AddKeyFrameData(rotationKeys, time, ZeroVector, ZeroVector, rotation);
    }

    method AddPositionKey(position: Vector3, time: real)
      requires Valid()
      modifies this`positionKeys
      ensures Valid()
      ensures positionKeys == AddKeyFrameData(old(positionKeys), time, position, ZeroVector, IdentityRotation)
    {
      positionKeys := AddKeyFrameData(positionKeys, time, position, ZeroVector, IdentityRotation);
    }

    /**
     * GetTransformByTime: identity, replaced by the scale, then times the
     * rotation, then times the translation, each present only when its
     * track has keys.
     */
    function GetTransformByTime(t: real): (m: Matrix)
      reads this
      ensures scaleKeys == [] && rotationKeys == [] && positionKeys == [] ==> m == Identity
    {
      var s := VectorAt(scaleKeys, t, true);
      var q := RotationAt(rotationKeys, t);
      var p := VectorAt(positionKeys, t, false);
      var m0 := if s.Some? then ScaleM(s.value) else Identity;
      var m1 := if q.Some? then Mul(m0, RotationM(q.value)) else m0;
      if p.Some? then Mul(m1, TranslationM(p.value)) else m1
    }
  }

  // ---------------------------------------------------------------------
  // Animations.
  // ---------------------------------------------------------------------

  /** An animation (RePiAnimation): channels by bone name, and the cycle length. */
  class Animation {
    const cycleTime: real
    /** The channel map's keys in the map's own (name) order. */
    var names: seq<string>
    var channels: map<string, Channel>

    ghost predicate Valid()
      reads this
    {
      SortedNames(names) && forall n :: n in channels <==> n in names
    }

    constructor(cycleTime: real)
      ensures Valid() && this.cycleTime == cycleTime && channels == map[]
    {
      this.cycleTime := cycleTime;
      names := [];
      channels := map[];
    }

    /**
     * GetChannel(bone): none for a dead bone; the channel stored under the
     * bone's name, or a new one tagged with the bone's index.
     */
    method GetChannel(bone: Option<Bone>) returns (c: Channel?)
      requires Valid()
      modifies this
      ensures Valid()
      ensures c == null <==> bone.None?
      ensures bone.None? ==> channels == old(channels) && names == old(names)
      ensures bone.Some? && bone.value.name in old(channels) ==>
                channels == old(channels) && names == old(names) && c == channels[bone.value.name]
      ensures bone.Some? && bone.value.name !in old(channels) ==>
                && c != null && fresh(c) && c.boneIndex == bone.value.index
                && c.scaleKeys == [] && c.rotationKeys == [] && c.positionKeys == []
                && channels == old(channels)[bone.value.name := c]
                && names == InsertName(old(names), bone.value.name)
    {
      if bone.None? {
        return null;
      }
      var name := bone.value.name;
      if name in channels {
        c := channels[name];
      } else {
        c := new Channel(bone.value.index);
        names := InsertName(names, name);
        channels := channels[name := c];
      }
    }

    /** The first channel from key i on, in name order, tagged with index. */
    function ChannelFrom(index: nat, i: nat): (c: Channel?)
      reads this
      requires Valid() && i <= |names|
      ensures c == null <==> forall k :: i <= k < |names| ==> channels[names[k]].boneIndex != index
      ensures c != null ==>
                exists j :: i <= j < |names| && c == channels[names[j]] && c.boneIndex == index
                            && forall k :: i <= k < j ==> channels[names[k]].boneIndex != index
      decreases |names| - i
    {
      if i == |names| then null
      else if channels[names[i]].boneIndex == index then channels[names[i]]
      else ChannelFrom(index, i + 1)
    }

    /**
     * GetChannel(index): the first channel, in the map's name order, whose
     * bone index matches, or none.
     */
    method GetChannelByIndex(index: nat) returns (c: Channel?)
      requires Valid()
      ensures c == ChannelFrom(index, 0)
    {
      var i := 0;
      while i < |names|
        invariant i <= |names|
        invariant ChannelFrom(index, i) == ChannelFrom(index, 0)
      {
        var candidate := channels[names[i]];
        if candidate.boneIndex == index {
          return candidate;
        }
        i := i + 1;
      }
      return null;
    }
  }

  // ---------------------------------------------------------------------
  // Palette updates.
  // ---------------------------------------------------------------------

  /** One visit of UpdateBoneTransform: the joint and skinning matrices it stores at a palette index. */
  datatype Write = Write(bone: string, index: nat, joint: Matrix, skin: Matrix)

  /**
   * The palette after the writes, in order; joints or skinning matrices by
   * the flag.  A write past the end is dropped (the animator rules it out).
   */
  function ApplyWrites(s: seq<Matrix>, ws: seq<Write>, joints: bool): (r: seq<Matrix>)
    ensures |r| == |s|
    decreases |ws|
  {
    if |ws| == 0 then s
    else
      var s' := if ws[0].index < |s| then s[ws[0].index := if joints then ws[0].joint else ws[0].skin] else s;
      ApplyWrites(s', ws[1..], joints)
  }

  lemma {:induction false} ApplyConcat(s: seq<Matrix>, a: seq<Write>, b: seq<Write>, joints: bool)
    ensures ApplyWrites(s, a + b, joints) == ApplyWrites(ApplyWrites(s, a, joints), b, joints)
    decreases |a|
  {
    if |a| == 0 {
      assert a + b == b;
    } else {
      var s' := if a[0].index < |s| then s[a[0].index := if joints then a[0].joint else a[0].skin] else s;
      ApplyConcat(s', a[1..], b, joints);
      assert (a + b)[0] == a[0];
      assert (a + b)[1..] == a[1..] + b;
    }
  }

  /** A single write replaces the entry at its index, if that index is in range. */
  lemma ApplySingle(s: seq<Matrix>, w: Write, joints: bool)
    ensures ApplyWrites(s, [w], joints) == if w.index < |s| then s[w.index := if joints then w.joint else w.skin] else s
  {
    var s' := if w.index < |s| then s[w.index := if joints then w.joint else w.skin] else s;
    assert ApplyWrites(s, [w], joints) == ApplyWrites(s', [], joints);
  }

  /** A palette entry no write touches keeps its value. */
  lemma {:induction false} ApplyUntouched(s: seq<Matrix>, ws: seq<Write>, joints: bool, k: nat)
    requires k < |s| && forall j :: 0 <= j < |ws| ==> ws[j].index != k
    ensures ApplyWrites(s, ws, joints)[k] == s[k]
    decreases |ws|
  {
    if |ws| > 0 {
      var s' := if ws[0].index < |s| then s[ws[0].index := if joints then ws[0].joint else ws[0].skin] else s;
      ApplyUntouched(s', ws[1..], joints, k);
    }
  }

  /** A palette entry holds what the last write to it stored. */
  lemma {:induction false} ApplyLast(s: seq<Matrix>, ws: seq<Write>, joints: bool, j: nat)
    requires j < |ws| && ws[j].index < |s|
    requires forall i :: j < i < |ws| ==> ws[i].index != ws[j].index
    ensures ApplyWrites(s, ws, joints)[ws[j].index] == if joints then ws[j].joint else ws[j].skin
    decreases |ws|
  {
    var s' := if ws[0].index < |s| then s[ws[0].index := if joints then ws[0].joint else ws[0].skin] else s;
    if j == 0 {
      ApplyUntouched(s', ws[1..], joints, ws[0].index);
    } else {
      ApplyLast(s', ws[1..], joints, j - 1);
    }
  }

  /**
   * What the palette update reads: the bones, their rank, and each bone's
   * local transform (its channel's sample or its rest transform).
   */
  datatype Pose = Pose(bones: map<string, Bone>, rank: map<string, nat>, locals: map<string, Matrix>)

  predicate PoseValid(p: Pose)
  {
    Ranked(p.bones, p.rank) && forall n :: n in p.bones ==> n in p.locals
  }

  /**
   * The writes of UpdateBoneTransform from bone name under parent, in the
   * order they happen: the children's subtrees first, then the bone's own.
   */
  function Writes(p: Pose, name: string, parent: Matrix): seq<Write>
    requires PoseValid(p) && name in p.bones
    decreases p.rank[name], 1
  {
    var b := p.bones[name];
    var joint := Mul(p.locals[name], parent);
    ChildWrites(p, b.children, 0, joint, p.rank[name]) + [Write(name, b.index, joint, Mul(b.offset, joint))]
  }

  /** The writes of the children from the i-th on, each under the parent's joint. */
  function ChildWrites(p: Pose, children: seq<string>, i: nat, joint: Matrix, bound: nat): seq<Write>
    requires PoseValid(p)
    requires forall c :: c in children ==> c in p.bones && p.rank[c] < bound
    decreases bound, 0, |children| - i
  {
    if i >= |children| then []
    else Writes(p, children[i], joint) + ChildWrites(p, children, i + 1, joint, bound)
  }

  lemma ChildrenRanked(p: Pose, name: string)
    requires PoseValid(p) && name in p.bones
    ensures forall c :: c in p.bones[name].children ==> c in p.bones && p.rank[c] < p.rank[name]
  {
  }

  /** The writes starting from a bone reference that may be empty. */
  function WritesFrom(p: Pose, bone: Option<string>, parent: Matrix): seq<Write>
    requires PoseValid(p)
  {
    if bone.Some? && bone.value in p.bones then Writes(p, bone.value, parent) else []
  }

  /** A write of a bone of the pose: at the bone's index, skinning matrix = offset times joint. */
  predicate WellFormed(p: Pose, w: Write)
  {
    w.bone in p.bones && w.index == p.bones[w.bone].index && w.skin == Mul(p.bones[w.bone].offset, w.joint)
  }

  /** Every write of ws is well formed for the pose. */
  predicate AllWellFormed(p: Pose, ws: seq<Write>)
  {
    forall k :: 0 <= k < |ws| ==> WellFormed(p, ws[k])
  }

  /** Concatenating well-formed writes keeps them well formed. */
  lemma WellFormedConcat(p: Pose, a: seq<Write>, b: seq<Write>)
    requires AllWellFormed(p, a) && AllWellFormed(p, b)
    ensures AllWellFormed(p, a + b)
  {
    forall k | 0 <= k < |a + b|
      ensures WellFormed(p, (a + b)[k])
    {
      if k < |a| {
        assert (a + b)[k] == a[k];
      } else {
        assert (a + b)[k] == b[k - |a|];
      }
    }
  }

  /**
   * Every write stores, at its bone's own index, the bone's offset times
   * the joint, and the last write is the starting bone's: its local
   * transform times the parent.
   */
  lemma {:induction false} WritesShape(p: Pose, name: string, parent: Matrix)
    requires PoseValid(p) && name in p.bones
    ensures var ws := Writes(p, name, parent);
            var b := p.bones[name];
            && |ws| > 0
            && ws[|ws| - 1] == Write(name, b.index, Mul(p.locals[name], parent), Mul(b.offset, Mul(p.locals[name], parent)))
            && AllWellFormed(p, ws)
    decreases p.rank[name], 1
  {
    var b := p.bones[name];
    var joint := Mul(p.locals[name], parent);
    var cw := ChildWrites(p, b.children, 0, joint, p.rank[name]);
    ChildWritesShape(p, b.children, 0, joint, p.rank[name]);
    var own := [Write(name, b.index, joint, Mul(b.offset, joint))];
    assert AllWellFormed(p, own);
    WellFormedConcat(p, cw, own);
  }

  lemma {:induction false} ChildWritesShape(p: Pose, children: seq<string>, i: nat, joint: Matrix, bound: nat)
    requires PoseValid(p)
    requires forall c :: c in children ==> c in p.bones && p.rank[c] < bound
    ensures AllWellFormed(p, ChildWrites(p, children, i, joint, bound))
    decreases bound, 0, |children| - i
  {
    if i < |children| {
      WritesShape(p, children[i], joint);
      ChildWritesShape(p, children, i + 1, joint, bound);
      WellFormedConcat(p, Writes(p, children[i], joint), ChildWrites(p, children, i + 1, joint, bound));
    }
  }

  /**
   * Child i's subtree, posed under the bone's joint (its local transform
   * times the parent), is a block of the bone's writes: children receive
   * the parent's joint.
   */
  lemma ChildReceivesJoint(p: Pose, name: string, parent: Matrix, i: nat) returns (at: nat)
    requires PoseValid(p) && name in p.bones && i < |p.bones[name].children|
    ensures var sub := Writes(p, p.bones[name].children[i], Mul(p.locals[name], parent));
            at + |sub| <= |Writes(p, name, parent)| && Writes(p, name, parent)[at .. at + |sub|] == sub
  {
    var b := p.bones[name];
    var joint := Mul(p.locals[name], parent);
    at := ChildOffset(p, b.children, 0, i, joint, p.rank[name]);
    var sub := Writes(p, b.children[i], joint);
    var all := ChildWrites(p, b.children, 0, joint, p.rank[name]);
    assert Writes(p, name, parent)[at .. at + |sub|] == all[at .. at + |sub|];
  }

  /** Where child i's writes start among the children's writes from j on. */
  lemma {:induction false} ChildOffset(p: Pose, children: seq<string>, j: nat, i: nat, joint: Matrix, bound: nat)
    returns (at: nat)
    requires PoseValid(p)
    requires forall c :: c in children ==> c in p.bones && p.rank[c] < bound
    requires j <= i < |children|
    ensures var ws := ChildWrites(p, children, j, joint, bound);
            var sub := Writes(p, children[i], joint);
            at + |sub| <= |ws| && ws[at .. at + |sub|] == sub
    decreases i - j
  {
    var ws := ChildWrites(p, children, j, joint, bound);
    var first := Writes(p, children[j], joint);
    var rest := ChildWrites(p, children, j + 1, joint, bound);
    assert ws == first + rest;
    if j == i {
      at := 0;
      assert ws[0 .. |first|] == first;
    } else {
      var q := ChildOffset(p, children, j + 1, i, joint, bound);
      at := |first| + q;
      var sub := Writes(p, children[i], joint);
      assert ws[at .. at + |sub|] == rest[q .. q + |sub|];
    }
  }

  /**
   * After posing from a bone, its palette entries are its local transform
   * times the parent, and its offset times that.
   */
  lemma PosedBone(p: Pose, name: string, parent: Matrix, before: seq<Matrix>)
    requires PoseValid(p) && name in p.bones && p.bones[name].index < |before|
    ensures var b := p.bones[name];
            var joint := Mul(p.locals[name], parent);
            && ApplyWrites(before, Writes(p, name, parent), true)[b.index] == joint
            && ApplyWrites(before, Writes(p, name, parent), false)[b.index] == Mul(b.offset, joint)
  {
    var ws := Writes(p, name, parent);
    WritesShape(p, name, parent);
    ApplyLast(before, ws, true, |ws| - 1);
    ApplyLast(before, ws, false, |ws| - 1);
  }

  /** clamp(v, lo, hi) of the math library. */
  function Clamp(v: int, lo: int, hi: int): int
  {
    Min(Max(v, lo), hi)
  }

  /** GetBoneTransform's index as written: clamped to [0, capacity], capacity included. */
  function ClampedIndexAsWritten(index: nat, capacity: nat): (r: nat)
    ensures r <= capacity
  {
    Clamp(index, 0, capacity)
  }

  /** Index MaxBoneCapacity passes the clamp unchanged, one past the end of the palette. */
  lemma ClampAdmitsCapacity(capacity: nat)
    ensures ClampedIndexAsWritten(capacity, capacity) == capacity
    ensures !(ClampedIndexAsWritten(capacity, capacity) < capacity)
  {
  }

  /** The intended clamp to [0, capacity - 1]: in range, and the identity on valid indices. */
  function ClampedIndex(index: nat, capacity: nat): (r: nat)
    requires capacity > 0
    ensures r < capacity
    ensures index < capacity ==> r == index
    ensures index >= capacity ==> r == capacity - 1
  {
    Clamp(index, 0, capacity - 1)
  }

  // ---------------------------------------------------------------------
  // The animator.
  // ---------------------------------------------------------------------

  class Animator {
    /** MaxBoneCapacity: the size of both palettes. */
    const capacity: nat
    /** mJoinTransform: each bone's accumulated model-space transform. */
    const joints: array<Matrix>
    /** mBoneTransform: each bone's skinning matrix, offset times joint. */
    const palette: array<Matrix>
    var animations: map<string, Animation?>
    var active: Animation?
    var skeleton: Skeleton?
    var time: real

    predicate Valid()
      reads this
    {
      capacity > 0 && joints.Length == capacity && palette.Length == capacity && joints != palette
    }

    /** A stopped animator at time 0 whose skinning palette is all zero. */
    constructor(capacity: nat)
      requires capacity > 0
      ensures Valid() && this.capacity == capacity
      ensures animations == map[] && active == null && skeleton == null && time == 0.0
      ensures forall k :: 0 <= k < capacity ==> palette[k] == ZeroMatrix
      ensures fresh(joints) && fresh(palette)
    {
      this.capacity := capacity;
      joints := new Matrix[capacity](_ => Identity);
      palette := new Matrix[capacity](_ => ZeroMatrix);
      animations := map[];
      active := null;
      skeleton := null;
      time := 0.0;
    }

    /** AddAnimation: a name already present keeps its animation. */
    method AddAnimation(name: string, animation: Animation?)
      modifies this`animations
      ensures name in old(animations) ==> animations == old(animations)
      ensures name !in old(animations) ==> animations == old(animations)[name := animation]
    {
      if name !in animations {
        animations := animations[name := animation];
      }
    }

    /** PlayAnimation: the named animation becomes active (none if unknown) and the cycle restarts. */
    method PlayAnimation(name: string)
      modifies this`active, this`time
      ensures active == (if name in animations then animations[name] else null)
      ensures time == 0.0
    {
      if name in animations {
        active := animations[name];
      } else {
        active := null;
      }
      time := 0.0;
    }

    method StopAnimation()
      modifies this`active
      ensures !IsPlayingAnimation()
    {
      active := null;
    }

    predicate IsPlayingAnimation()
      reads this
    {
      active != null
    }

    /** The channels of the active animation: what the palette update reads besides the skeleton. */
    function ActiveChannels(): set<object>
      reads this, active
    {
      if active == null then {} else set n | n in active.channels :: active.channels[n]
    }

    ghost predicate Ready()
      reads this, skeleton, active
    {
      && Valid()
      && (skeleton != null ==> skeleton.Valid() && |skeleton.bones| <= capacity)
      && (active != null ==> active.Valid())
    }

    /** The bone's local transform: its channel's sample when the active animation has one, else its rest transform. */
    function Local(b: Bone): Matrix
      reads this, active, ActiveChannels()
      requires active != null ==> active.Valid()
    {
      if active == null then b.transform
      else
        var c := active.ChannelFrom(b.index, 0);
        if c == null then b.transform else c.GetTransformByTime(time)
    }

    /** The skeleton with every bone's local transform at the current time. */
    ghost function CurrentPose(): (p: Pose)
      reads this, skeleton, active, ActiveChannels()
      requires Ready() && skeleton != null
      ensures PoseValid(p) && p.bones == skeleton.bones
      ensures forall n :: n in p.bones ==> p.locals[n] == Local(p.bones[n])
    {
      Pose(skeleton.bones, skeleton.rank, map n | n in skeleton.bones :: Local(skeleton.bones[n]))
    }

    /**
     * What posing needs of the animator: the skeleton holds the pose's
     * bones, each fits the palettes, and each bone's local transform is
     * the one the pose records.
     */
    ghost predicate Agrees(pose: Pose)
      reads this, skeleton, active, ActiveChannels()
    {
      && Valid()
      && (active != null ==> active.Valid())
      && skeleton != null && skeleton.bones == pose.bones
      && PoseValid(pose) && Fits(pose.bones, capacity)
      && forall n :: n in pose.bones ==> pose.locals[n] == Local(pose.bones[n])
    }

    /** A ready animator with a skeleton agrees with its current pose. */
    lemma CurrentPoseAgrees()
      requires Ready() && skeleton != null
      ensures Agrees(CurrentPose())
    {
      var p := CurrentPose();
      forall n | n in p.bones
        ensures p.bones[n].index < capacity
      {
        assert p.bones[n].index < |skeleton.bones|;
      }
    }

    /**
     * UpdateBoneTransform: nothing for an empty bone reference; otherwise
     * the bone's subtree is posed under the parent transform.  The pose
     * itself does not change.
     */
    method UpdateBoneTransform(bone: Option<string>, parent: Matrix)
      requires Ready() && skeleton != null
      modifies joints, palette
      ensures Ready() && CurrentPose() == old(CurrentPose())
      ensures joints[..] == ApplyWrites(old(joints[..]), WritesFrom(old(CurrentPose()), bone, parent), true)
      ensures palette[..] == ApplyWrites(old(palette[..]), WritesFrom(old(CurrentPose()), bone, parent), false)
    {
      if bone.Some? && bone.value in skeleton.bones {
        CurrentPoseAgrees();
        ghost var chans := ActiveChannels();
        UpdateBone(bone.value, parent, CurrentPose());
        assert unchanged(this, skeleton) && unchanged(chans);
        assert active != null ==> unchanged(active);
      }
    }

    /**
     * One live bone: the local transform times the parent transform is its
     * joint; the children are posed under that joint; then the joint and
     * the offset times the joint are stored at the bone's index.
     */
    method UpdateBone(name: string, parent: Matrix, ghost pose: Pose)
      requires Agrees(pose) && name in pose.bones
      modifies joints, palette
      ensures joints[..] == ApplyWrites(old(joints[..]), Writes(pose, name, parent), true)
      ensures palette[..] == ApplyWrites(old(palette[..]), Writes(pose, name, parent), false)
      decreases pose.rank[name], 1
    {
      var b := skeleton.bones[name];
      ghost var chans := ActiveChannels();
      var local := LocalTransform(b);
      assert unchanged(this, skeleton) && unchanged(chans);
      var joint := Mul(local, parent);
      assert joint == Mul(pose.locals[name], parent);
      ChildrenRanked(pose, name);
      ghost var all := ChildWrites(pose, b.children, 0, joint, pose.rank[name]);
      ghost var own := Write(name, b.index, joint, Mul(b.offset, joint));
      ghost var jointsBefore := joints[..];
      ghost var paletteBefore := palette[..];
      UpdateChildren(b.children, joint, pose, pose.rank[name]);
      ghost var jointsMid := joints[..];
      ghost var paletteMid := palette[..];
      Store(b.index, joint, Mul(b.offset, joint));
      ApplySingle(jointsMid, own, true);
      ApplySingle(paletteMid, own, false);
      ApplyConcat(jointsBefore, all, [own], true);
      ApplyConcat(paletteBefore, all, [own], false);
    }

    /**
     * The bone's local transform: the sample of the active animation's
     * channel for the bone's index at the current time, if there is one,
     * else the bone's rest transform.
     */
    method LocalTransform(b: Bone) returns (m: Matrix)
      requires active != null ==> active.Valid()
      ensures m == Local(b)
    {
      m := b.transform;
      if active != null {
        var c := active.GetChannelByIndex(b.index);
        if c != null {
          m := c.GetTransformByTime(time);
        }
      }
    }

    /** Store a bone's joint and skinning matrix at its palette index. */
    method Store(index: nat, joint: Matrix, skin: Matrix)
      requires Valid() && index < capacity
      modifies joints, palette
      ensures joints[..] == old(joints[..])[index := joint]
      ensures palette[..] == old(palette[..])[index := skin]
    {
      joints[index] := joint;
      palette[index] := skin;
    }

    /** The loop over a bone's children, each posed under the bone's joint. */
    method UpdateChildren(children: seq<string>, joint: Matrix, ghost pose: Pose, ghost bound: nat)
      requires Agrees(pose)
      requires forall c :: c in children ==> c in pose.bones && pose.rank[c] < bound
      modifies joints, palette
      ensures Agrees(pose)
      ensures joints[..] == ApplyWrites(old(joints[..]), ChildWrites(pose, children, 0, joint, bound), true)
      ensures palette[..] == ApplyWrites(old(palette[..]), ChildWrites(pose, children, 0, joint, bound), false)
      decreases bound, 0
    {
      ghost var all := ChildWrites(pose, children, 0, joint, bound);
      var i := 0;
      while i < |children|
        invariant i <= |children| && Agrees(pose)
        invariant ApplyWrites(joints[..], ChildWrites(pose, children, i, joint, bound), true)
               == ApplyWrites(old(joints[..]), all, true)
        invariant ApplyWrites(palette[..], ChildWrites(pose, children, i, joint, bound), false)
               == ApplyWrites(old(palette[..]), all, false)
      {
        ApplyConcat(joints[..], Writes(pose, children[i], joint), ChildWrites(pose, children, i + 1, joint, bound), true);
        ApplyConcat(palette[..], Writes(pose, children[i], joint), ChildWrites(pose, children, i + 1, joint, bound), false);
        UpdateChild(children[i], joint, pose);
        i := i + 1;
      }
    }

    /** One child of the loop: posed under the joint if it is a live bone. */
    method UpdateChild(child: string, joint: Matrix, ghost pose: Pose)
      requires Agrees(pose) && child in pose.bones
      modifies joints, palette
      ensures Agrees(pose)
      ensures joints[..] == ApplyWrites(old(joints[..]), Writes(pose, child, joint), true)
      ensures palette[..] == ApplyWrites(old(palette[..]), Writes(pose, child, joint), false)
      decreases pose.rank[child], 2
    {
      if child in skeleton.bones {
        ghost var chans := ActiveChannels();
        UpdateBone(child, joint, pose);
        assert unchanged(this, skeleton) && unchanged(chans);
        assert active != null ==> unchanged(active);
      }
    }

    /** SetSkeleton: bind the skeleton and pose it from its root under the identity. */
    method SetSkeleton(s: Skeleton?)
      requires Ready() && (s != null ==> s.Valid() && |s.bones| <= capacity)
      modifies this`skeleton, joints, palette
      ensures skeleton == s && Ready()
      ensures s == null ==> joints[..] == old(joints[..]) && palette[..] == old(palette[..])
      ensures s != null ==>
                && joints[..] == ApplyWrites(old(joints[..]), WritesFrom(CurrentPose(), s.root, Identity), true)
                && palette[..] == ApplyWrites(old(palette[..]), WritesFrom(CurrentPose(), s.root, Identity), false)
    {
      skeleton := s;
      if s != null {
        UpdateBoneTransform(s.root, Identity);
      }
    }

    /**
     * Update: with an active animation, the clock advances by tick and
     * wraps to 0 once it passes the cycle length, and the skeleton, if
     * any, is posed at the new time.  Without one nothing changes.
     */
    method Update(tick: real)
      requires Ready()
      modifies this`time, joints, palette
      ensures Ready()
      ensures active == null ==> time == old(time)
      ensures active != null ==>
                time == (if old(time) + tick > active.cycleTime then 0.0 else old(time) + tick)
      ensures active != null && 0.0 <= old(time) && 0.0 <= tick && 0.0 <= active.cycleTime ==>
                0.0 <= time <= active.cycleTime
      ensures active != null && skeleton != null ==>
                && joints[..] == ApplyWrites(old(joints[..]), WritesFrom(CurrentPose(), skeleton.root, Identity), true)
                && palette[..] == ApplyWrites(old(palette[..]), WritesFrom(CurrentPose(), skeleton.root, Identity), false)
      ensures active == null || skeleton == null ==> joints[..] == old(joints[..]) && palette[..] == old(palette[..])
    {
      if active != null {
        time := time + tick;
        if time > active.cycleTime {
          time := 0.0;
        }
        if skeleton != null {
          UpdateBoneTransform(skeleton.root, Identity);
        }
      }
    }

    /** GetBoneTransform: the skinning matrix at the index clamped into the palette. */
    method GetBoneTransform(index: nat) returns (m: Matrix)
      requires Valid()
      ensures m == palette[ClampedIndex(index, capacity)]
      ensures index < capacity ==> m == palette[index]
    {
      m := palette[ClampedIndex(index, capacity)];
    }

    /** TransferBoneData: the whole skinning palette is copied into dst. */
    method TransferBoneData(dst: array<Matrix>)
      requires Valid() && dst.Length == capacity && dst != palette
      modifies dst
      ensures dst[..] == palette[..]
    {
      forall k | 0 <= k < capacity {
        dst[k] := palette[k];
      }
    }
  }
}
