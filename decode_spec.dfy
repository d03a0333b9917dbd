/**
 * The outcome of a decode call as a value: which error code it returns,
 * or which record it hands to the caller and which count it returns.
 * The methods of UnityPlugin are proved to produce exactly this outcome,
 * and the lemmas below state what the outcome promises.
 */
module DecodeSpec {
  import opened Wrappers
  import opened Geometry
  import opened Extraction
  import opened UnityRecord

  /** The result of one channel's extractor. */
  datatype Extracted<T> = Absent | Present(data: seq<T>) | Failed {
    function ToOption(): (r: Option<seq<T>>)
      ensures r.Some? <==> Present?
    {
      if Present? then Some(data) else None
    }
  }

  /** A float channel: skipped when the attribute is absent, otherwise every point extracted. */
  function FloatChannel(att: Option<Attribute>, n: nat, k: nat, fix: Fixup): (r: Extracted<real>)
    requires att.Some? ==> att.value.Wf()
    requires MinWidth(fix) <= k
    ensures r.Absent? <==> att.None?
    ensures r.Failed? <==> att.Some? && exists i :: 0 <= i < n && ConvertFloat(att.value, i, k).None?
    ensures r.Present? ==> |r.data| == k * n
  {
    match att
    case None => Absent
    case Some(a) =>
      var s := Extract(a, n, k, fix);
      if s.None? then Failed else Present(s.value)
  }

  /** An int32 channel (the joints): skipped when absent, otherwise every point extracted. */
  function IntChannel(att: Option<Attribute>, n: nat, k: nat): (r: Extracted<int32>)
    requires att.Some? ==> att.value.Wf()
    ensures r.Absent? <==> att.None?
    ensures r.Failed? <==> att.Some? && exists i :: 0 <= i < n && ConvertInt32(att.value, i, k).None?
    ensures r.Present? ==> |r.data| == k * n
  {
    match att
    case None => Absent
    case Some(a) =>
      var s := ExtractInts(a, n, k);
      if s.None? then Failed else Present(s.value)
  }

  /**
   * The attribute a skin channel (weights or joints) reads: only when the
   * caller's id is non-negative, an attribute has that unique id, and it
   * has exactly four components.
   */
  function SkinAttribute(pc: PointCloud, id: int32): (r: Option<Attribute>)
    requires pc.Wf()
    ensures r.Some? <==> 0 <= id && id in pc.byUniqueId && pc.byUniqueId[id].numComponents == 4
    ensures r.Some? ==> r.value == pc.byUniqueId[id] && r.value.Wf()
  {
    if id >= 0 then
      var att := GetAttributeByUniqueId(pc, id);
      if att.Some? && att.value.numComponents == 4 then att else None
    else None
  }

  /** The six attribute channels of a successful extraction. */
  datatype Attributes = Attributes(
    position: seq<real>,
    normal: Option<seq<real>>,
    color: Option<seq<real>>,
    texcoord: Option<seq<real>>,
    weights: Option<seq<real>>,
    joints: Option<seq<int32>>)

  function PositionChannel(pc: PointCloud): Extracted<real>
    requires pc.Wf()
  {
    FloatChannel(GetNamedAttribute(pc, Position), pc.numPoints, 3, NegateZ)
  }

  function NormalChannel(pc: PointCloud): Extracted<real>
    requires pc.Wf()
  {
    FloatChannel(GetNamedAttribute(pc, Normal), pc.numPoints, 3, NegateZ)
  }

  function ColorChannel(pc: PointCloud): Extracted<real>
    requires pc.Wf()
  {
    FloatChannel(GetNamedAttribute(pc, Color), pc.numPoints, 4, OpaqueAlpha)
  }

  function TexcoordChannel(pc: PointCloud): Extracted<real>
    requires pc.Wf()
  {
    FloatChannel(GetNamedAttribute(pc, TexCoord), pc.numPoints, 2, FlipV)
  }

  function WeightsChannel(pc: PointCloud, weightsId: int32): Extracted<real>
    requires pc.Wf()
  {
    FloatChannel(SkinAttribute(pc, weightsId), pc.numPoints, 4, NoFixup)
  }

  function JointsChannel(pc: PointCloud, jointsId: int32): Extracted<int32>
    requires pc.Wf()
  {
    IntChannel(SkinAttribute(pc, jointsId), pc.numPoints, 4)
  }

  /**
   * The attribute pipeline shared by meshes and point clouds: position,
   * normal, color, texcoord, weights, joints; None when any channel fails.
   * An absent position attribute only occurs with zero points (PointCloud.Wf),
   * where the position array is empty.
   */
  function ExtractedAttributes(pc: PointCloud, weightsId: int32, jointsId: int32): Option<Attributes>
    requires pc.Wf()
  {
    var position := PositionChannel(pc);
    var normal := NormalChannel(pc);
    var color := ColorChannel(pc);
    var texcoord := TexcoordChannel(pc);
    var weights := WeightsChannel(pc, weightsId);
    var joints := JointsChannel(pc, jointsId);
    if position.Failed? || normal.Failed? || color.Failed? || texcoord.Failed?
       || weights.Failed? || joints.Failed?
    then None
    else Some(Attributes(
      if position.Present? then position.data else [],
      normal.ToOption(), color.ToOption(), texcoord.ToOption(),
      weights.ToOption(), joints.ToOption()))
  }

  /** The record after the extractors have filled in every channel. */
  function WithAttributes(rec: Record, at: Attributes): Record {
    rec.(position := Some(at.position), normal := at.normal, color := at.color,
         texcoord := at.texcoord, weights := at.weights, joints := at.joints)
  }

  /** The record as the default constructor leaves it. */
  function EmptyRecord(): Record {
    Record(0, None, 0, None, None, None, None, None, None)
  }

  /** A decoded mesh's record: its counts, its index array and the extracted channels. */
  function MeshRecord(m: Mesh, at: Attributes): Record {
    var shape := EmptyRecord().(numFaces := |m.faces|, indices := Some(FaceIndices(m.faces)),
                                numVertices := m.cloud.numPoints);
    WithAttributes(shape, at)
  }

  /** A decoded point cloud's record: no faces, no index array, one vertex per point. */
  function PointCloudRecord(pc: PointCloud, at: Attributes): Record {
    WithAttributes(EmptyRecord().(numVertices := pc.numPoints), at)
  }

  /** The distinct failures of a decode call. */
  datatype DecodeError =
    | UnreadableGeometryType   // the geometry type tag cannot be read
    | UnsupportedGeometryType  // the tag is neither mesh nor point cloud
    | CodecFailure             // the decoder fails on the payload
    | ConversionFailure        // some point of some channel fails to convert

  /** The integer each failure is reported as. */
  function ErrorCode(e: DecodeError): (code: int)
    ensures code < 0
  {
    match e
    case UnreadableGeometryType => -1
    case UnsupportedGeometryType => -2
    case CodecFailure => -3
    case ConversionFailure => -8
  }

  datatype Outcome = Decoded(record: Record, count: nat) | Error(error: DecodeError)

  /** The integer returned to the caller. */
  function ResultCode(o: Outcome): int {
    match o
    case Decoded(_, count) => count
    case Error(e) => ErrorCode(e)
  }

  /** DecodeMesh: the codec, then the index array, then the attribute pipeline. */
  function MeshOutcome(buffer: Buffer, weightsId: int32, jointsId: int32): Outcome
    requires buffer.Wf()
  {
    match buffer.meshDecode
    case None => Error(CodecFailure)
    case Some(m) =>
      match ExtractedAttributes(m.cloud, weightsId, jointsId)
      case None => Error(ConversionFailure)
      case Some(at) =>
        Decoded(MeshRecord(m, at), |m.faces|)
  }

  /** DecodePointCloud: the codec, then the attribute pipeline; no index array. */
  function PointCloudOutcome(buffer: Buffer, weightsId: int32, jointsId: int32): Outcome
    requires buffer.Wf()
  {
    match buffer.pointCloudDecode
    case None => Error(CodecFailure)
    case Some(pc) =>
      match ExtractedAttributes(pc, weightsId, jointsId)
      case None => Error(ConversionFailure)
      case Some(at) =>
        Decoded(PointCloudRecord(pc, at), pc.numPoints)
  }

  /** DecodeMeshForUnity: dispatch on the geometry type tag. */
  function DecodeOutcome(buffer: Buffer, weightsId: int32, jointsId: int32): Outcome
    requires buffer.Wf()
  {
    match buffer.geometryType
    case None => Error(UnreadableGeometryType)
    case Some(TriangularMeshGeometry) => MeshOutcome(buffer, weightsId, jointsId)
    case Some(PointCloudGeometry) => PointCloudOutcome(buffer, weightsId, jointsId)
    case Some(InvalidGeometry) => Error(UnsupportedGeometryType)
  }
}
