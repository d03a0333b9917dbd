/**
 * The plugin's entry points: ReleaseUnityMesh, DecodeMeshForUnity and the
 * two decoders it dispatches to. The record is filled in place, array by
 * array, by per-point loops that convert each point into its slot and then
 * patch components; each method is proved to produce the outcome that
 * DecodeSpec describes.
 */
module UnityPlugin {
  import opened Wrappers
  import opened Geometry
  import opened Extraction
  import opened UnityRecord
  import opened DecodeSpec

  /**
   * ReleaseUnityMesh: nothing happens for a null handle. Otherwise the
   * index and position arrays are freed, each optional channel is freed
   * and its flag cleared when both its flag and pointer are set, the record
   * is deleted and the handle nulled. For a record whose flags and pointers
   * are paired, nothing is left allocated.
   */
  method ReleaseUnityMesh(meshPtr: MeshHandle)
    modifies meshPtr, meshPtr.mesh
    ensures meshPtr.mesh == null
    ensures old(meshPtr.mesh) == null ==> unchanged(meshPtr)
    ensures old(meshPtr.mesh) != null ==> old(meshPtr.mesh).released
    ensures var m := old(meshPtr.mesh);
      m != null && old(m.Paired()) ==> m.Paired() && m.Cleared()
  {
    var mesh := meshPtr.mesh;
    if mesh == null {
      return;
    }
    DeleteRecord(mesh);
    meshPtr.mesh := null;
  }

  /**
   * The body of ReleaseUnityMesh for a non-null record, field by field:
   * what is freed, what is left as it was, and the record deleted.
   */
  method DeleteRecord(m: DracoToUnityMesh)
    modifies m`indices, m`position, m`hasNormal, m`normal, m`hasTexcoord, m`texcoord
    modifies m`hasColor, m`color, m`hasWeights, m`weights, m`hasJoints, m`joints, m`released
    ensures m.indices == null && m.position == null
    ensures if old(m.hasNormal) && old(m.normal) != null then !m.hasNormal && m.normal == null
            else m.hasNormal == old(m.hasNormal) && m.normal == old(m.normal)
    ensures if old(m.hasTexcoord) && old(m.texcoord) != null then !m.hasTexcoord && m.texcoord == null
            else m.hasTexcoord == old(m.hasTexcoord) && m.texcoord == old(m.texcoord)
    ensures if old(m.hasColor) && old(m.color) != null then !m.hasColor && m.color == null
            else m.hasColor == old(m.hasColor) && m.color == old(m.color)
    ensures if old(m.hasWeights) && old(m.weights) != null then !m.hasWeights && m.weights == null
            else m.hasWeights == old(m.hasWeights) && m.weights == old(m.weights)
    ensures if old(m.hasJoints) && old(m.joints) != null then !m.hasJoints && m.joints == null
            else m.hasJoints == old(m.hasJoints) && m.joints == old(m.joints)
    ensures m.released
  {
    FreeIndices(m);
    FreePosition(m);
    FreeOptionalChannels(m);
    m.released := true;  // delete mesh
  }

  /** The five optional channels of ReleaseUnityMesh, in the source's order. */
  method FreeOptionalChannels(m: DracoToUnityMesh)
    modifies m`hasNormal, m`normal, m`hasTexcoord, m`texcoord
    modifies m`hasColor, m`color, m`hasWeights, m`weights, m`hasJoints, m`joints
    ensures if old(m.hasNormal) && old(m.normal) != null then !m.hasNormal && m.normal == null
            else m.hasNormal == old(m.hasNormal) && m.normal == old(m.normal)
    ensures if old(m.hasTexcoord) && old(m.texcoord) != null then !m.hasTexcoord && m.texcoord == null
            else m.hasTexcoord == old(m.hasTexcoord) && m.texcoord == old(m.texcoord)
    ensures if old(m.hasColor) && old(m.color) != null then !m.hasColor && m.color == null
            else m.hasColor == old(m.hasColor) && m.color == old(m.color)
    ensures if old(m.hasWeights) && old(m.weights) != null then !m.hasWeights && m.weights == null
            else m.hasWeights == old(m.hasWeights) && m.weights == old(m.weights)
    ensures if old(m.hasJoints) && old(m.joints) != null then !m.hasJoints && m.joints == null
            else m.hasJoints == old(m.hasJoints) && m.joints == old(m.joints)
  {
    FreeNormal(m);
    FreeTexcoord(m);
    FreeColor(m);
    FreeWeights(m);
    FreeJoints(m);
  }

  // The steps of ReleaseUnityMesh, one per array field of the record.

  method FreeIndices(mesh: DracoToUnityMesh)
    modifies mesh`indices
    ensures mesh.indices == null
  {
    if mesh.indices != null {
      mesh.indices := null;
    }
  }

  method FreePosition(mesh: DracoToUnityMesh)
    modifies mesh`position
    ensures mesh.position == null
  {
    if mesh.position != null {
      mesh.position := null;
    }
  }

  method FreeNormal(mesh: DracoToUnityMesh)
    modifies mesh`hasNormal, mesh`normal
    ensures if old(mesh.hasNormal) && old(mesh.normal) != null then !mesh.hasNormal && mesh.normal == null
            else mesh.hasNormal == old(mesh.hasNormal) && mesh.normal == old(mesh.normal)
  {
    if mesh.hasNormal && mesh.normal != null {
      mesh.hasNormal, mesh.normal := false, null;
    }
  }

  method FreeTexcoord(mesh: DracoToUnityMesh)
    modifies mesh`hasTexcoord, mesh`texcoord
    ensures if old(mesh.hasTexcoord) && old(mesh.texcoord) != null then !mesh.hasTexcoord && mesh.texcoord == null
            else mesh.hasTexcoord == old(mesh.hasTexcoord) && mesh.texcoord == old(mesh.texcoord)
  {
    if mesh.hasTexcoord && mesh.texcoord != null {
      mesh.hasTexcoord, mesh.texcoord := false, null;
    }
  }

  method FreeColor(mesh: DracoToUnityMesh)
    modifies mesh`hasColor, mesh`color
    ensures if old(mesh.hasColor) && old(mesh.color) != null then !mesh.hasColor && mesh.color == null
            else mesh.hasColor == old(mesh.hasColor) && mesh.color == old(mesh.color)
  {
    if mesh.hasColor && mesh.color != null {
      mesh.hasColor, mesh.color := false, null;
    }
  }

  method FreeWeights(mesh: DracoToUnityMesh)
    modifies mesh`hasWeights, mesh`weights
    ensures if old(mesh.hasWeights) && old(mesh.weights) != null then !mesh.hasWeights && mesh.weights == null
            else mesh.hasWeights == old(mesh.hasWeights) && mesh.weights == old(mesh.weights)
  {
    if mesh.hasWeights && mesh.weights != null {
      mesh.hasWeights, mesh.weights := false, null;
    }
  }

  method FreeJoints(mesh: DracoToUnityMesh)
    modifies mesh`hasJoints, mesh`joints
    ensures if old(mesh.hasJoints) && old(mesh.joints) != null then !mesh.hasJoints && mesh.joints == null
            else mesh.hasJoints == old(mesh.hasJoints) && mesh.joints == old(mesh.joints)
  {
    if mesh.hasJoints && mesh.joints != null {
      mesh.hasJoints, mesh.joints := false, null;
    }
  }

  /** Writes one converted point into its slot starting at `base` (what ConvertValue does with `dest`). */
  method StorePoint<T>(dest: array<T>, base: nat, v: seq<T>)
    requires base + |v| <= dest.Length
    modifies dest
    ensures dest[..base] == old(dest[..base])
    ensures dest[base..base + |v|] == v
    ensures dest[base + |v|..] == old(dest[base + |v|..])
  {
    for c := 0 to |v|
      invariant dest[..base] == old(dest[..base])
      invariant dest[base + |v|..] == old(dest[base + |v|..])
      invariant dest[base..base + c] == v[..c]
    {
      dest[base + c] := v[c];
    }
  }

  /**
   * A float point's slot: the converted components are written, then the
   * channel's fix-up is applied to them in place.
   */
  method StoreFixed(dest: array<real>, base: nat, fix: Fixup, srcComponents: nat, v: seq<real>)
    requires MinWidth(fix) <= |v| && base + |v| <= dest.Length
    modifies dest
    ensures dest[..base] == old(dest[..base])
    ensures dest[base..base + |v|] == ApplyFixup(fix, srcComponents, v)
    ensures dest[base + |v|..] == old(dest[base + |v|..])
  {
    StorePoint(dest, base, v);
    match fix {
      case NoFixup =>
      case NegateZ =>
        dest[base + 2] := -dest[base + 2];
      case FlipV =>
        dest[base + 1] := 1.0 - dest[base + 1];
      case OpaqueAlpha =>
        if srcComponents < 4 {
          dest[base + 3] := 1.0;
        }
    }
  }

  /**
   * One face's slot in the index array: its three point indices are copied
   * to entries b..b+2 and the last two swapped through a temporary, turning
   * the right-handed winding into a left-handed one.
   */
  method StoreFace(dest: array<int>, b: nat, face: Face)
    requires b + 3 <= dest.Length
    modifies dest
    ensures dest[..b] == old(dest[..b])
    ensures dest[b..b + 3] == [AsInt32(face.v0), AsInt32(face.v2), AsInt32(face.v1)]
    ensures dest[b + 3..] == old(dest[b + 3..])
  {
    StorePoint(dest, b, [AsInt32(face.v0), AsInt32(face.v1), AsInt32(face.v2)]);
    assert dest[b + 1] == dest[b..b + 3][1] == AsInt32(face.v1);
    assert dest[b + 2] == dest[b..b + 3][2] == AsInt32(face.v2);
    assert dest[b] == dest[b..b + 3][0] == AsInt32(face.v0);
    var tmp := dest[b + 1];
    dest[b + 1] := dest[b + 2];
    dest[b + 2] := tmp;
  }

  /** The index loop of DecodeMesh: face f fills entries 3f..3f+2. */
  method FillIndices(dest: array<int>, faces: seq<Face>)
    requires dest.Length == |faces| * 3
    modifies dest
    ensures dest[..] == FaceIndices(faces)
  {
    for f := 0 to |faces|
      invariant dest[..3 * f] == FaceIndices(faces[..f])
    {
      var b := f * 3;
      StoreFace(dest, b, faces[f]);
      assert faces[..f + 1][..f] == faces[..f];
      assert dest[..b + 3] == dest[..b] + dest[b..b + 3];
    }
    assert faces[..|faces|] == faces;
  }

  /**
   * One float channel's per-point loop: convert point i into its k-wide
   * slot, then apply the channel's fix-up in place; stop at the first
   * point that fails to convert.
   */
  method FillFloats(dest: array<real>, att: Attribute, n: nat, k: nat, fix: Fixup) returns (ok: bool)
    requires att.Wf() && MinWidth(fix) <= k
    requires dest.Length == n * k
    modifies dest
    ensures ok == Extract(att, n, k, fix).Some?
    ensures ok ==> dest[..] == Extract(att, n, k, fix).value
  {
    var i, base := 0, 0;
    while i < n
      invariant i <= n && base == k * i
      invariant base <= dest.Length
      invariant Extract(att, i, k, fix).Some?
      invariant dest[..base] == Extract(att, i, k, fix).value
    {
      var v := ConvertFloat(att, i, k);
      if v.None? {
        return false;
      }
      MulStep(k, i);
      MulMonotone(k, i + 1, n);
      ghost var done := dest[..base];
      StoreFixed(dest, base, fix, att.numComponents, v.value);
      ExtractStep(att, i, k, fix);
      assert dest[..base + k] == done + dest[base..base + k];
      i, base := i + 1, base + k;
    }
    assert dest[..] == dest[..base];
    return true;
  }

  /** The joints loop: convert point i into its k-wide int32 slot; stop at the first failure. */
  method FillInts(dest: array<int32>, att: Attribute, n: nat, k: nat) returns (ok: bool)
    requires att.Wf()
    requires dest.Length == n * k
    modifies dest
    ensures ok == ExtractInts(att, n, k).Some?
    ensures ok ==> dest[..] == ExtractInts(att, n, k).value
  {
    var i, base := 0, 0;
    while i < n
      invariant i <= n && base == k * i
      invariant base <= dest.Length
      invariant ExtractInts(att, i, k).Some?
      invariant dest[..base] == ExtractInts(att, i, k).value
    {
      var v := ConvertInt32(att, i, k);
      if v.None? {
        return false;
      }
      MulStep(k, i);
      MulMonotone(k, i + 1, n);
      ghost var done := dest[..base];
      StorePoint(dest, base, v.value);
      ExtractIntsStep(att, i, k);
      assert dest[..base + k] == done + dest[base..base + k];
      i, base := i + 1, base + k;
    }
    assert dest[..] == dest[..base];
    return true;
  }

  /**
   * One optional float channel: nothing when the attribute is absent;
   * otherwise a fresh n*k array filled by the per-point loop.
   */
  method NewFloatChannel(att: Option<Attribute>, n: nat, k: nat, fix: Fixup)
    returns (ok: bool, a: array?<real>)
    requires att.Some? ==> att.value.Wf()
    requires MinWidth(fix) <= k
    ensures a == null <==> att.None?
    ensures a != null ==> fresh(a)
    ensures ok == !FloatChannel(att, n, k, fix).Failed?
    ensures ok ==> ArrayView(a) == FloatChannel(att, n, k, fix).ToOption()
  {
    if att.None? {
      return true, null;
    }
    a := new real[n * k];
    ok := FillFloats(a, att.value, n, k, fix);
  }

  /** The joints channel: nothing when absent; otherwise a fresh n*k int32 array. */
  method NewIntChannel(att: Option<Attribute>, n: nat, k: nat)
    returns (ok: bool, a: array?<int32>)
    requires att.Some? ==> att.value.Wf()
    ensures a == null <==> att.None?
    ensures a != null ==> fresh(a)
    ensures ok == !IntChannel(att, n, k).Failed?
    ensures ok ==> ArrayView(a) == IntChannel(att, n, k).ToOption()
  {
    if att.None? {
      return true, null;
    }
    a := new int32[n * k];
    ok := FillInts(a, att.value, n, k);
  }

  /**
   * The position extractor: the array is allocated whatever the attribute,
   * which is read only inside the per-point loop, so that it may be absent
   * when there are no points.
   */
  method ExtractPosition(um: DracoToUnityMesh, pc: PointCloud) returns (ok: bool)
    requires pc.Wf()
    modifies um`position
    ensures um.position != null && fresh(um.position)
    ensures ok == !PositionChannel(pc).Failed?
    ensures ok ==> um.position[..] == if PositionChannel(pc).Present? then PositionChannel(pc).data else []
  {
    var n := pc.numPoints;
    var position := new real[n * 3];
    um.position := position;
    ok := true;
    var posAtt := GetNamedAttribute(pc, Position);
    if posAtt.Some? {
      ok := FillFloats(position, posAtt.value, n, 3, NegateZ);
    }
  }

  /** The normal extractor (Z flipped); flag and pointer are set together. */
  method ExtractNormal(um: DracoToUnityMesh, pc: PointCloud) returns (ok: bool)
    requires pc.Wf()
    requires !um.hasNormal && um.normal == null
    modifies um`hasNormal, um`normal
    ensures um.hasNormal == (um.normal != null)
    ensures um.normal != null ==> fresh(um.normal)
    ensures ok == !NormalChannel(pc).Failed?
    ensures ok ==> ArrayView(um.normal) == NormalChannel(pc).ToOption()
  {
    var a;
    ok, a := NewFloatChannel(GetNamedAttribute(pc, Normal), pc.numPoints, 3, NegateZ);
    if a != null {
      um.hasNormal, um.normal := true, a;
    }
  }

  /** The color extractor (alpha forced to 1 below four components); flag and pointer are set together. */
  method ExtractColor(um: DracoToUnityMesh, pc: PointCloud) returns (ok: bool)
    requires pc.Wf()
    requires !um.hasColor && um.color == null
    modifies um`hasColor, um`color
    ensures um.hasColor == (um.color != null)
    ensures um.color != null ==> fresh(um.color)
    ensures ok == !ColorChannel(pc).Failed?
    ensures ok ==> ArrayView(um.color) == ColorChannel(pc).ToOption()
  {
    var a;
    ok, a := NewFloatChannel(GetNamedAttribute(pc, Color), pc.numPoints, 4, OpaqueAlpha);
    if a != null {
      um.hasColor, um.color := true, a;
    }
  }

  /** The texture coordinate extractor (V flipped); flag and pointer are set together. */
  method ExtractTexcoord(um: DracoToUnityMesh, pc: PointCloud) returns (ok: bool)
    requires pc.Wf()
    requires !um.hasTexcoord && um.texcoord == null
    modifies um`hasTexcoord, um`texcoord
    ensures um.hasTexcoord == (um.texcoord != null)
    ensures um.texcoord != null ==> fresh(um.texcoord)
    ensures ok == !TexcoordChannel(pc).Failed?
    ensures ok ==> ArrayView(um.texcoord) == TexcoordChannel(pc).ToOption()
  {
    var a;
    ok, a := NewFloatChannel(GetNamedAttribute(pc, TexCoord), pc.numPoints, 2, FlipV);
    if a != null {
      um.hasTexcoord, um.texcoord := true, a;
    }
  }

  /** The skin weights extractor: only for a non-negative id naming a four-component attribute; flag and pointer are set together. */
  method ExtractWeights(um: DracoToUnityMesh, pc: PointCloud, weightsId: int32) returns (ok: bool)
    requires pc.Wf()
    requires !um.hasWeights && um.weights == null
    modifies um`hasWeights, um`weights
    ensures um.hasWeights == (um.weights != null)
    ensures um.weights != null ==> fresh(um.weights)
    ensures ok == !WeightsChannel(pc, weightsId).Failed?
    ensures ok ==> ArrayView(um.weights) == WeightsChannel(pc, weightsId).ToOption()
  {
    var a;
    ok, a := NewFloatChannel(SkinAttribute(pc, weightsId), pc.numPoints, 4, NoFixup);
    if a != null {
      um.hasWeights, um.weights := true, a;
    }
  }

  /** The skin joints extractor (bone ids as int32), under the same conditions as the weights; flag and pointer are set together. */
  method ExtractJoints(um: DracoToUnityMesh, pc: PointCloud, jointsId: int32) returns (ok: bool)
    requires pc.Wf()
    requires !um.hasJoints && um.joints == null
    modifies um`hasJoints, um`joints
    ensures um.hasJoints == (um.joints != null)
    ensures um.joints != null ==> fresh(um.joints)
    ensures ok == !JointsChannel(pc, jointsId).Failed?
    ensures ok ==> ArrayView(um.joints) == JointsChannel(pc, jointsId).ToOption()
  {
    var a;
    ok, a := NewIntChannel(SkinAttribute(pc, jointsId), pc.numPoints, 4);
    if a != null {
      um.hasJoints, um.joints := true, a;
    }
  }

  /**
   * The six attribute extractors shared by DecodeMesh and DecodePointCloud,
   * in their fixed order; returns false at the first conversion failure,
   * leaving every allocated channel paired with its flag so that release
   * frees it.
   */
  method ExtractAttributes(um: DracoToUnityMesh, pc: PointCloud, weightsId: int32, jointsId: int32)
    returns (ok: bool)
    requires pc.Wf()
    requires um.Paired() && um.NoChannels()
    modifies um`position, um`hasNormal, um`normal, um`hasColor, um`color
    modifies um`hasTexcoord, um`texcoord, um`hasWeights, um`weights, um`hasJoints, um`joints
    ensures um.Paired()
    ensures um.position != null && fresh(um.position)
    ensures um.normal != null ==> fresh(um.normal)
    ensures um.color != null ==> fresh(um.color)
    ensures um.texcoord != null ==> fresh(um.texcoord)
    ensures um.weights != null ==> fresh(um.weights)
    ensures um.joints != null ==> fresh(um.joints)
    ensures um.Distinct()
    ensures ok == ExtractedAttributes(pc, weightsId, jointsId).Some?
    ensures ok ==>
      var at := ExtractedAttributes(pc, weightsId, jointsId).value;
      && ArrayView(um.position) == Some(at.position)
      && ArrayView(um.normal) == at.normal
      && ArrayView(um.color) == at.color
      && ArrayView(um.texcoord) == at.texcoord
      && ArrayView(um.weights) == at.weights
      && ArrayView(um.joints) == at.joints
  {
    ok := ExtractPosition(um, pc);
    if ok {
      ok := ExtractOptional(um, pc, weightsId, jointsId);
    }
  }

  /** The five optional channels after position, up to the first failure. */
  method ExtractOptional(um: DracoToUnityMesh, pc: PointCloud, weightsId: int32, jointsId: int32)
    returns (ok: bool)
    requires pc.Wf()
    requires um.Paired() && !um.hasNormal && !um.hasColor && !um.hasTexcoord
    requires !um.hasWeights && !um.hasJoints
    modifies um`hasNormal, um`normal, um`hasColor, um`color, um`hasTexcoord, um`texcoord
    modifies um`hasWeights, um`weights, um`hasJoints, um`joints
    ensures um.Paired()
    ensures um.normal != null ==> fresh(um.normal)
    ensures um.color != null ==> fresh(um.color)
    ensures um.texcoord != null ==> fresh(um.texcoord)
    ensures um.weights != null ==> fresh(um.weights)
    ensures um.joints != null ==> fresh(um.joints)
    ensures um.Distinct()
    ensures ok == !(NormalChannel(pc).Failed? || ColorChannel(pc).Failed? || TexcoordChannel(pc).Failed?
                    || WeightsChannel(pc, weightsId).Failed? || JointsChannel(pc, jointsId).Failed?)
    ensures ok ==>
      && ArrayView(um.normal) == NormalChannel(pc).ToOption()
      && ArrayView(um.color) == ColorChannel(pc).ToOption()
      && ArrayView(um.texcoord) == TexcoordChannel(pc).ToOption()
      && ArrayView(um.weights) == WeightsChannel(pc, weightsId).ToOption()
      && ArrayView(um.joints) == JointsChannel(pc, jointsId).ToOption()
  {
    ok := ExtractSurface(um, pc);
    if ok {
      ok := ExtractSkin(um, pc, weightsId, jointsId);
    }
  }

  /** Normal, color and texture coordinates, in that order, up to the first failure. */
  method ExtractSurface(um: DracoToUnityMesh, pc: PointCloud) returns (ok: bool)
    requires pc.Wf()
    requires !um.hasNormal && um.normal == null
    requires !um.hasColor && um.color == null
    requires !um.hasTexcoord && um.texcoord == null
    modifies um`hasNormal, um`normal, um`hasColor, um`color, um`hasTexcoord, um`texcoord
    ensures um.hasNormal == (um.normal != null)
    ensures um.hasColor == (um.color != null)
    ensures um.hasTexcoord == (um.texcoord != null)
    ensures um.normal != null ==> fresh(um.normal)
    ensures um.color != null ==> fresh(um.color)
    ensures um.texcoord != null ==> fresh(um.texcoord)
    ensures um.normal != null ==> um.normal != um.position
    ensures um.color != null ==> um.color != um.position && um.color != um.normal
    ensures um.texcoord != null ==> um.texcoord != um.position && um.texcoord != um.normal && um.texcoord != um.color
    ensures ok == !(NormalChannel(pc).Failed? || ColorChannel(pc).Failed? || TexcoordChannel(pc).Failed?)
    ensures ok ==>
      && ArrayView(um.normal) == NormalChannel(pc).ToOption()
      && ArrayView(um.color) == ColorChannel(pc).ToOption()
      && ArrayView(um.texcoord) == TexcoordChannel(pc).ToOption()
  {
    ok := ExtractNormal(um, pc);
    if !ok {
      return;
    }
    ok := ExtractColor(um, pc);
    if !ok {
      return;
    }
    ok := ExtractTexcoord(um, pc);
  }

  /** Skin weights, then skin joints, up to the first failure. */
  method ExtractSkin(um: DracoToUnityMesh, pc: PointCloud, weightsId: int32, jointsId: int32)
    returns (ok: bool)
    requires pc.Wf()
    requires !um.hasWeights && um.weights == null
    requires !um.hasJoints && um.joints == null
    modifies um`hasWeights, um`weights, um`hasJoints, um`joints
    ensures um.hasWeights == (um.weights != null)
    ensures um.hasJoints == (um.joints != null)
    ensures um.weights != null ==> fresh(um.weights)
    ensures um.joints != null ==> fresh(um.joints)
    ensures ok == !(WeightsChannel(pc, weightsId).Failed? || JointsChannel(pc, jointsId).Failed?)
    ensures ok ==>
      && ArrayView(um.weights) == WeightsChannel(pc, weightsId).ToOption()
      && ArrayView(um.joints) == JointsChannel(pc, jointsId).ToOption()
  {
    ok := ExtractWeights(um, pc, weightsId);
    if !ok {
      return;
    }
    ok := ExtractJoints(um, pc, jointsId);
  }

  /** The counts of a decoded mesh and its index array, in left-handed winding. */
  method StoreMeshShape(unityMesh: DracoToUnityMesh, inMesh: Mesh)
    modifies unityMesh`numFaces, unityMesh`numVertices, unityMesh`indices
    ensures unityMesh.numFaces == |inMesh.faces|
    ensures unityMesh.numVertices == inMesh.cloud.numPoints
    ensures ArrayView(unityMesh.indices) == Some(FaceIndices(inMesh.faces))
    ensures fresh(unityMesh.indices)
  {
    unityMesh.numFaces := |inMesh.faces|;
    unityMesh.numVertices := inMesh.cloud.numPoints;
    var indices := new int[|inMesh.faces| * 3];
    unityMesh.indices := indices;
    FillIndices(indices, inMesh.faces);
  }

  /** A new record filled from a decoded mesh: counts, indices, then the attributes. */
  method FillMeshRecord(um: DracoToUnityMesh, m: Mesh, weightsId: int32, jointsId: int32)
    returns (ok: bool)
    requires m.cloud.Wf()
    requires um.Paired() && um.NoChannels()
    modifies um`numFaces, um`numVertices, um`indices
    modifies um`position, um`hasNormal, um`normal, um`hasColor, um`color
    modifies um`hasTexcoord, um`texcoord, um`hasWeights, um`weights, um`hasJoints, um`joints
    ensures um.Paired()
    ensures um.indices != null ==> fresh(um.indices)
    ensures um.position != null && fresh(um.position)
    ensures um.normal != null ==> fresh(um.normal)
    ensures um.color != null ==> fresh(um.color)
    ensures um.texcoord != null ==> fresh(um.texcoord)
    ensures um.weights != null ==> fresh(um.weights)
    ensures um.joints != null ==> fresh(um.joints)
    ensures um.Distinct()
    ensures ok == ExtractedAttributes(m.cloud, weightsId, jointsId).Some?
    ensures ok ==> um.View() == MeshRecord(m, ExtractedAttributes(m.cloud, weightsId, jointsId).value)
  {
    StoreMeshShape(um, m);
    ok := ExtractAttributes(um, m.cloud, weightsId, jointsId);
  }

  /** A new record filled from a decoded point cloud: the point count, then the attributes. */
  method FillPointCloudRecord(um: DracoToUnityMesh, pc: PointCloud, weightsId: int32, jointsId: int32)
    returns (ok: bool)
    requires pc.Wf()
    requires um.Paired() && um.Cleared() && um.numFaces == 0
    modifies um`numVertices
    modifies um`position, um`hasNormal, um`normal, um`hasColor, um`color
    modifies um`hasTexcoord, um`texcoord, um`hasWeights, um`weights, um`hasJoints, um`joints
    ensures um.Paired()
    ensures um.indices != null ==> fresh(um.indices)
    ensures um.position != null && fresh(um.position)
    ensures um.normal != null ==> fresh(um.normal)
    ensures um.color != null ==> fresh(um.color)
    ensures um.texcoord != null ==> fresh(um.texcoord)
    ensures um.weights != null ==> fresh(um.weights)
    ensures um.joints != null ==> fresh(um.joints)
    ensures um.Distinct()
    ensures ok == ExtractedAttributes(pc, weightsId, jointsId).Some?
    ensures ok ==> um.View() == PointCloudRecord(pc, ExtractedAttributes(pc, weightsId, jointsId).value)
  {
    um.numVertices := pc.numPoints;
    ok := ExtractAttributes(um, pc, weightsId, jointsId);
  }

  /**
   * DecodeMesh: -3 when the codec fails; otherwise a new record is stored
   * through `tmpMesh`, filled with counts, indices and attributes, and the
   * face count returned. On a conversion failure the record is released
   * through a local copy of the pointer and -8 returned: the caller's
   * handle still points at the released record.
   */
  method DecodeMesh(buffer: Buffer, tmpMesh: MeshHandle, weightsId: int32, jointsId: int32)
    returns (r: int)
    requires buffer.Wf()
    modifies tmpMesh
    ensures var o := MeshOutcome(buffer, weightsId, jointsId);
      && r == ResultCode(o)
      && (o.Decoded? ==>
            && tmpMesh.mesh != null && fresh(tmpMesh.mesh)
            && tmpMesh.mesh.Paired() && !tmpMesh.mesh.released
            && (tmpMesh.mesh.indices != null ==> fresh(tmpMesh.mesh.indices))
            && tmpMesh.mesh.position != null && fresh(tmpMesh.mesh.position)
            && (tmpMesh.mesh.normal != null ==> fresh(tmpMesh.mesh.normal))
            && (tmpMesh.mesh.color != null ==> fresh(tmpMesh.mesh.color))
            && (tmpMesh.mesh.texcoord != null ==> fresh(tmpMesh.mesh.texcoord))
            && (tmpMesh.mesh.weights != null ==> fresh(tmpMesh.mesh.weights))
            && (tmpMesh.mesh.joints != null ==> fresh(tmpMesh.mesh.joints))
            && tmpMesh.mesh.Distinct()
            && tmpMesh.mesh.View() == o.record)
      && (o == Error(CodecFailure) ==> tmpMesh.mesh == old(tmpMesh.mesh))
      && (o == Error(ConversionFailure) ==>
            && tmpMesh.mesh != null && fresh(tmpMesh.mesh)
            && tmpMesh.mesh.released && tmpMesh.mesh.Cleared())
  {
    var decoded := buffer.meshDecode;
    if decoded.None? {
      return -3;
    }
    var inMesh := decoded.value;

    var unityMesh := new DracoToUnityMesh();
    tmpMesh.mesh := unityMesh;
    var ok := FillMeshRecord(unityMesh, inMesh, weightsId, jointsId);
    if !ok {
      var local := new MeshHandle(unityMesh);
      ReleaseUnityMesh(local);
      return -8;
    }
    return |inMesh.faces|;
  }

  /**
   * DecodePointCloud: the same pipeline without indices; returns the
   * point count, and num_faces keeps its constructor value 0.
   */
  method DecodePointCloud(buffer: Buffer, tmpMesh: MeshHandle, weightsId: int32, jointsId: int32)
    returns (r: int)
    requires buffer.Wf()
    modifies tmpMesh
    ensures var o := PointCloudOutcome(buffer, weightsId, jointsId);
      && r == ResultCode(o)
      && (o.Decoded? ==>
            && tmpMesh.mesh != null && fresh(tmpMesh.mesh)
            && tmpMesh.mesh.Paired() && !tmpMesh.mesh.released
            && (tmpMesh.mesh.indices != null ==> fresh(tmpMesh.mesh.indices))
            && tmpMesh.mesh.position != null && fresh(tmpMesh.mesh.position)
            && (tmpMesh.mesh.normal != null ==> fresh(tmpMesh.mesh.normal))
            && (tmpMesh.mesh.color != null ==> fresh(tmpMesh.mesh.color))
            && (tmpMesh.mesh.texcoord != null ==> fresh(tmpMesh.mesh.texcoord))
            && (tmpMesh.mesh.weights != null ==> fresh(tmpMesh.mesh.weights))
            && (tmpMesh.mesh.joints != null ==> fresh(tmpMesh.mesh.joints))
            && tmpMesh.mesh.Distinct()
            && tmpMesh.mesh.View() == o.record)
      && (o == Error(CodecFailure) ==> tmpMesh.mesh == old(tmpMesh.mesh))
      && (o == Error(ConversionFailure) ==>
            && tmpMesh.mesh != null && fresh(tmpMesh.mesh)
            && tmpMesh.mesh.released && tmpMesh.mesh.Cleared())
  {
    var decoded := buffer.pointCloudDecode;
    if decoded.None? {
      return -3;
    }
    var inPts := decoded.value;

    var unityMesh := new DracoToUnityMesh();
    tmpMesh.mesh := unityMesh;
    var ok := FillPointCloudRecord(unityMesh, inPts, weightsId, jointsId);
    if !ok {
      var local := new MeshHandle(unityMesh);
      ReleaseUnityMesh(local);
      return -8;
    }
    return inPts.numPoints;
  }

  /**
   * DecodeMeshForUnity: -1 when the geometry type cannot be read, -2 when
   * it is neither a mesh nor a point cloud, otherwise the result of the
   * matching decoder. A record already behind `tmpMesh` is never touched
   * or freed: when a new record is stored it is simply overwritten.
   */
  method DecodeMeshForUnity(buffer: Buffer, tmpMesh: MeshHandle, weightsId: int32 := -1, jointsId: int32 := -1)
    returns (r: int)
    requires buffer.Wf()
    modifies tmpMesh
    ensures var o := DecodeOutcome(buffer, weightsId, jointsId);
      && r == ResultCode(o)
      && (o.Decoded? ==>
            && tmpMesh.mesh != null && fresh(tmpMesh.mesh)
            && tmpMesh.mesh.Paired() && !tmpMesh.mesh.released
            && (tmpMesh.mesh.indices != null ==> fresh(tmpMesh.mesh.indices))
            && tmpMesh.mesh.position != null && fresh(tmpMesh.mesh.position)
            && (tmpMesh.mesh.normal != null ==> fresh(tmpMesh.mesh.normal))
            && (tmpMesh.mesh.color != null ==> fresh(tmpMesh.mesh.color))
            && (tmpMesh.mesh.texcoord != null ==> fresh(tmpMesh.mesh.texcoord))
            && (tmpMesh.mesh.weights != null ==> fresh(tmpMesh.mesh.weights))
            && (tmpMesh.mesh.joints != null ==> fresh(tmpMesh.mesh.joints))
            && tmpMesh.mesh.Distinct()
            && tmpMesh.mesh.View() == o.record)
      && (o.Error? && o.error != ConversionFailure ==> tmpMesh.mesh == old(tmpMesh.mesh))
      && (o == Error(ConversionFailure) ==>
            && tmpMesh.mesh != null && fresh(tmpMesh.mesh)
            && tmpMesh.mesh.released && tmpMesh.mesh.Cleared())
    ensures old(tmpMesh.mesh) != null ==> unchanged(old(tmpMesh.mesh))
  {
    var geomType := buffer.geometryType;
    if geomType.None? {
      return -1;
    }
    if geomType.value == TriangularMeshGeometry {
      r := DecodeMesh(buffer, tmpMesh, weightsId, jointsId);
    } else if geomType.value == PointCloudGeometry {
      r := DecodePointCloud(buffer, tmpMesh, weightsId, jointsId);
    } else {
      r := -2;
    }
  }
}
