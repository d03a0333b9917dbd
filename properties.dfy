/**
 * What a decode call promises its caller, proved about the outcome
 * specification: the result codes, the shape of a decoded mesh or point
 * cloud, the per-channel coordinate fix-ups, which optional channels are
 * present, and when extraction fails.
 */
module DecodeProperties {
  import opened Wrappers
  import opened Geometry
  import opened Extraction
  import opened DecodeSpec

  /** The point cloud a buffer decodes to, if the decode reaches the extractors. */
  function DecodedCloud(buffer: Buffer): (r: Option<PointCloud>)
    ensures r.Some? ==> buffer.geometryType.Some?
  {
    match buffer.geometryType
    case Some(TriangularMeshGeometry) =>
      if buffer.meshDecode.Some? then Some(buffer.meshDecode.value.cloud) else None
    case Some(PointCloudGeometry) => buffer.pointCloudDecode
    case _ => None
  }

  /**
   * The result code: -1 for an unreadable type tag, -2 for an unsupported
   * type, -3 when the codec fails, -8 when extraction fails, and otherwise
   * the face count of a mesh or the point count of a point cloud.
   */
  lemma ResultCodes(buffer: Buffer, weightsId: int32, jointsId: int32)
    requires buffer.Wf()
    ensures var o := DecodeOutcome(buffer, weightsId, jointsId);
      var code := ResultCode(o);
      && (code == -1 <==> buffer.geometryType.None?)
      && (code == -2 <==> buffer.geometryType == Some(InvalidGeometry))
      && (code == -3 <==>
            || (buffer.geometryType == Some(TriangularMeshGeometry) && buffer.meshDecode.None?)
            || (buffer.geometryType == Some(PointCloudGeometry) && buffer.pointCloudDecode.None?))
      && (code == -8 <==>
            DecodedCloud(buffer).Some? &&
            ExtractedAttributes(DecodedCloud(buffer).value, weightsId, jointsId).None?)
      && (code >= 0 <==> o.Decoded?)
      && (o.Decoded? && buffer.geometryType == Some(TriangularMeshGeometry) ==>
            buffer.meshDecode.Some? && code == |buffer.meshDecode.value.faces|)
      && (o.Decoded? && buffer.geometryType == Some(PointCloudGeometry) ==>
            buffer.pointCloudDecode.Some? && code == buffer.pointCloudDecode.value.numPoints)
  {
  }

  /**
   * A decoded record carries exactly the channels the attribute pipeline
   * extracted from the decoded geometry, and one vertex per point.
   */
  lemma DecodedRecordChannels(buffer: Buffer, weightsId: int32, jointsId: int32)
    requires buffer.Wf()
    requires DecodeOutcome(buffer, weightsId, jointsId).Decoded?
    ensures DecodedCloud(buffer).Some?
    ensures var pc := DecodedCloud(buffer).value;
      var rec := DecodeOutcome(buffer, weightsId, jointsId).record;
      && ExtractedAttributes(pc, weightsId, jointsId).Some?
      && var at := ExtractedAttributes(pc, weightsId, jointsId).value;
      && rec.numVertices == pc.numPoints
      && rec.position == Some(at.position)
      && rec.normal == at.normal && rec.color == at.color && rec.texcoord == at.texcoord
      && rec.weights == at.weights && rec.joints == at.joints
  {
  }

  /**
   * A decoded mesh: the result is the face count, the index array holds
   * 3 * num_faces entries, and each face appears with its second and third
   * index swapped.
   */
  lemma MeshDecoded(buffer: Buffer, weightsId: int32, jointsId: int32)
    requires buffer.Wf()
    requires buffer.geometryType == Some(TriangularMeshGeometry)
    requires DecodeOutcome(buffer, weightsId, jointsId).Decoded?
    ensures buffer.meshDecode.Some?
    ensures var m := buffer.meshDecode.value;
      var o := DecodeOutcome(buffer, weightsId, jointsId);
      && o.count == o.record.numFaces == |m.faces|
      && o.record.indices.Some?
      && |o.record.indices.value| == 3 * |m.faces|
      && forall f :: 0 <= f < |m.faces| ==>
           && o.record.indices.value[3 * f] == AsInt32(m.faces[f].v0)
           && o.record.indices.value[3 * f + 1] == AsInt32(m.faces[f].v2)
           && o.record.indices.value[3 * f + 2] == AsInt32(m.faces[f].v1)
  {
    var m := buffer.meshDecode.value;
    forall f | 0 <= f < |m.faces|
      ensures FaceIndices(m.faces)[3 * f] == AsInt32(m.faces[f].v0)
      ensures FaceIndices(m.faces)[3 * f + 1] == AsInt32(m.faces[f].v2)
      ensures FaceIndices(m.faces)[3 * f + 2] == AsInt32(m.faces[f].v1)
    {
      FaceIndicesAt(m.faces, f);
    }
  }

  /**
   * A decoded point cloud: the result is the point count, no index array
   * is produced, and num_faces keeps its constructor value 0.
   */
  lemma PointCloudDecoded(buffer: Buffer, weightsId: int32, jointsId: int32)
    requires buffer.Wf()
    requires buffer.geometryType == Some(PointCloudGeometry)
    requires DecodeOutcome(buffer, weightsId, jointsId).Decoded?
    ensures buffer.pointCloudDecode.Some?
    ensures var o := DecodeOutcome(buffer, weightsId, jointsId);
      && o.count == o.record.numVertices == buffer.pointCloudDecode.value.numPoints
      && o.record.indices.None?
      && o.record.numFaces == 0
  {
  }

  /**
   * Position: 3 * num_points floats; for every point, X and Y are the
   * converted values and Z is the converted value negated, so negating it
   * again gives back the converted value.
   */
  lemma PositionFlipsZ(pc: PointCloud, weightsId: int32, jointsId: int32, i: nat)
    requires pc.Wf()
    requires ExtractedAttributes(pc, weightsId, jointsId).Some?
    ensures var p := ExtractedAttributes(pc, weightsId, jointsId).value.position;
      && |p| == 3 * pc.numPoints
      && (i < pc.numPoints ==>
            && ConvertFloat(pc.named[Position], i, 3).Some?
            && var v := ConvertFloat(pc.named[Position], i, 3).value;
            && p[3 * i] == v[0] && p[3 * i + 1] == v[1] && p[3 * i + 2] == -v[2]
            && -p[3 * i + 2] == v[2])
  {
    if i < pc.numPoints {
      var att := pc.named[Position];
      ExtractAt(att, pc.numPoints, 3, NegateZ, i, 0);
      ExtractAt(att, pc.numPoints, 3, NegateZ, i, 1);
      ExtractAt(att, pc.numPoints, 3, NegateZ, i, 2);
    }
  }

  /**
   * Normal: present exactly when the geometry has a NORMAL attribute; then
   * 3 * num_points floats with Z negated.
   */
  lemma NormalFlipsZ(pc: PointCloud, weightsId: int32, jointsId: int32, i: nat)
    requires pc.Wf()
    requires ExtractedAttributes(pc, weightsId, jointsId).Some?
    ensures var nm := ExtractedAttributes(pc, weightsId, jointsId).value.normal;
      && (nm.Some? <==> Normal in pc.named)
      && (nm.Some? ==> |nm.value| == 3 * pc.numPoints)
      && (nm.Some? && i < pc.numPoints ==>
            && ConvertFloat(pc.named[Normal], i, 3).Some?
            && var v := ConvertFloat(pc.named[Normal], i, 3).value;
            && nm.value[3 * i] == v[0] && nm.value[3 * i + 1] == v[1]
            && nm.value[3 * i + 2] == -v[2])
  {
    if Normal in pc.named && i < pc.numPoints {
      var att := pc.named[Normal];
      ExtractAt(att, pc.numPoints, 3, NegateZ, i, 0);
      ExtractAt(att, pc.numPoints, 3, NegateZ, i, 1);
      ExtractAt(att, pc.numPoints, 3, NegateZ, i, 2);
    }
  }

  /**
   * Texture coordinates: present exactly when the geometry has a TEX_COORD
   * attribute; then 2 * num_points floats, U copied and V replaced by 1 - V,
   * so that 1 - V gives back the converted value.
   */
  lemma TexcoordFlipsV(pc: PointCloud, weightsId: int32, jointsId: int32, i: nat)
    requires pc.Wf()
    requires ExtractedAttributes(pc, weightsId, jointsId).Some?
    ensures var t := ExtractedAttributes(pc, weightsId, jointsId).value.texcoord;
      && (t.Some? <==> TexCoord in pc.named)
      && (t.Some? ==> |t.value| == 2 * pc.numPoints)
      && (t.Some? && i < pc.numPoints ==>
            && ConvertFloat(pc.named[TexCoord], i, 2).Some?
            && var v := ConvertFloat(pc.named[TexCoord], i, 2).value;
            && t.value[2 * i] == v[0]
            && t.value[2 * i + 1] == 1.0 - v[1]
            && 1.0 - t.value[2 * i + 1] == v[1])
  {
    if TexCoord in pc.named && i < pc.numPoints {
      var att := pc.named[TexCoord];
      ExtractAt(att, pc.numPoints, 2, FlipV, i, 0);
      ExtractAt(att, pc.numPoints, 2, FlipV, i, 1);
    }
  }

  /**
   * Color: present exactly when the geometry has a COLOR attribute; then
   * 4 * num_points floats. With fewer than four source components every
   * alpha is 1; otherwise all four converted components are kept.
   */
  lemma ColorAlpha(pc: PointCloud, weightsId: int32, jointsId: int32, i: nat)
    requires pc.Wf()
    requires ExtractedAttributes(pc, weightsId, jointsId).Some?
    ensures var col := ExtractedAttributes(pc, weightsId, jointsId).value.color;
      && (col.Some? <==> Color in pc.named)
      && (col.Some? ==> |col.value| == 4 * pc.numPoints)
      && (col.Some? && i < pc.numPoints ==>
            && ConvertFloat(pc.named[Color], i, 4).Some?
            && var v := ConvertFloat(pc.named[Color], i, 4).value;
            && col.value[4 * i] == v[0] && col.value[4 * i + 1] == v[1]
            && col.value[4 * i + 2] == v[2]
            && col.value[4 * i + 3] == (if pc.named[Color].numComponents < 4 then 1.0 else v[3]))
  {
    if Color in pc.named && i < pc.numPoints {
      var att := pc.named[Color];
      ExtractAt(att, pc.numPoints, 4, OpaqueAlpha, i, 0);
      ExtractAt(att, pc.numPoints, 4, OpaqueAlpha, i, 1);
      ExtractAt(att, pc.numPoints, 4, OpaqueAlpha, i, 2);
      ExtractAt(att, pc.numPoints, 4, OpaqueAlpha, i, 3);
    }
  }

  /**
   * Weights and joints: each is present exactly when its id is
   * non-negative, names an attribute, and that attribute has exactly four
   * components; present channels copy the four converted components.
   */
  lemma SkinChannels(pc: PointCloud, weightsId: int32, jointsId: int32, i: nat, c: nat)
    requires pc.Wf()
    requires ExtractedAttributes(pc, weightsId, jointsId).Some?
    ensures var at := ExtractedAttributes(pc, weightsId, jointsId).value;
      && (at.weights.Some? <==>
            0 <= weightsId && weightsId in pc.byUniqueId && pc.byUniqueId[weightsId].numComponents == 4)
      && (at.joints.Some? <==>
            0 <= jointsId && jointsId in pc.byUniqueId && pc.byUniqueId[jointsId].numComponents == 4)
      && (at.weights.Some? ==> |at.weights.value| == 4 * pc.numPoints)
      && (at.joints.Some? ==> |at.joints.value| == 4 * pc.numPoints)
      && (at.weights.Some? && i < pc.numPoints && c < 4 ==>
            && ConvertFloat(pc.byUniqueId[weightsId], i, 4).Some?
            && at.weights.value[4 * i + c] == ConvertFloat(pc.byUniqueId[weightsId], i, 4).value[c])
      && (at.joints.Some? && i < pc.numPoints && c < 4 ==>
            && ConvertInt32(pc.byUniqueId[jointsId], i, 4).Some?
            && at.joints.value[4 * i + c] == ConvertInt32(pc.byUniqueId[jointsId], i, 4).value[c])
  {
    var at := ExtractedAttributes(pc, weightsId, jointsId).value;
    if at.weights.Some? && i < pc.numPoints && c < 4 {
      ExtractAt(pc.byUniqueId[weightsId], pc.numPoints, 4, NoFixup, i, c);
    }
    if at.joints.Some? && i < pc.numPoints && c < 4 {
      ExtractIntsAt(pc.byUniqueId[jointsId], pc.numPoints, 4, i, c);
    }
  }

  /**
   * A skin channel that is skipped (negative id, no such attribute, or not
   * four components) has no effect at all: the outcome is the one for the
   * default id -1, with no error.
   */
  lemma SkippedSkinChannelIsInert(pc: PointCloud, weightsId: int32, jointsId: int32)
    requires pc.Wf()
    ensures SkinAttribute(pc, weightsId).None? ==>
      ExtractedAttributes(pc, weightsId, jointsId) == ExtractedAttributes(pc, -1, jointsId)
    ensures SkinAttribute(pc, jointsId).None? ==>
      ExtractedAttributes(pc, weightsId, jointsId) == ExtractedAttributes(pc, weightsId, -1)
  {
  }

  /** Some channel that is extracted fails to convert point `i`. */
  ghost predicate PointFails(pc: PointCloud, weightsId: int32, jointsId: int32, i: nat)
    requires pc.Wf()
  {
    || (Position in pc.named && ConvertFloat(pc.named[Position], i, 3).None?)
    || (Normal in pc.named && ConvertFloat(pc.named[Normal], i, 3).None?)
    || (Color in pc.named && ConvertFloat(pc.named[Color], i, 4).None?)
    || (TexCoord in pc.named && ConvertFloat(pc.named[TexCoord], i, 2).None?)
    || (SkinAttribute(pc, weightsId).Some? && ConvertFloat(SkinAttribute(pc, weightsId).value, i, 4).None?)
    || (SkinAttribute(pc, jointsId).Some? && ConvertInt32(SkinAttribute(pc, jointsId).value, i, 4).None?)
  }

  /**
   * Extraction fails (result -8) exactly when some point of some extracted
   * channel fails to convert; skipped skin channels never cause a failure.
   */
  lemma ExtractionFailsIff(pc: PointCloud, weightsId: int32, jointsId: int32)
    requires pc.Wf()
    ensures ExtractedAttributes(pc, weightsId, jointsId).None? <==>
      exists i :: 0 <= i < pc.numPoints && PointFails(pc, weightsId, jointsId, i)
  {
    var n := pc.numPoints;
    if PositionChannel(pc).Failed? {
      var i :| 0 <= i < n && ConvertFloat(pc.named[Position], i, 3).None?;
      assert PointFails(pc, weightsId, jointsId, i);
    } else if NormalChannel(pc).Failed? {
      var i :| 0 <= i < n && ConvertFloat(pc.named[Normal], i, 3).None?;
      assert PointFails(pc, weightsId, jointsId, i);
    } else if ColorChannel(pc).Failed? {
      var i :| 0 <= i < n && ConvertFloat(pc.named[Color], i, 4).None?;
      assert PointFails(pc, weightsId, jointsId, i);
    } else if TexcoordChannel(pc).Failed? {
      var i :| 0 <= i < n && ConvertFloat(pc.named[TexCoord], i, 2).None?;
      assert PointFails(pc, weightsId, jointsId, i);
    } else if WeightsChannel(pc, weightsId).Failed? {
      var i :| 0 <= i < n && ConvertFloat(SkinAttribute(pc, weightsId).value, i, 4).None?;
      assert PointFails(pc, weightsId, jointsId, i);
    } else if JointsChannel(pc, jointsId).Failed? {
      var i :| 0 <= i < n && ConvertInt32(SkinAttribute(pc, jointsId).value, i, 4).None?;
      assert PointFails(pc, weightsId, jointsId, i);
    } else {
      forall i | 0 <= i < pc.numPoints
        ensures !PointFails(pc, weightsId, jointsId, i)
      {
      }
    }
  }
}
