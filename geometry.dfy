/** Optional values, used for "absent" attributes and for failed conversions. */
module Wrappers {
  datatype Option<+T> = None | Some(value: T)
}

/**
 * The decoded geometry handed over by the compression library, seen only
 * through the operations the Unity plugin uses: the point count, the face
 * list of a mesh, attribute lookup by semantic type or by unique id, and
 * per-point value conversion. Everything inside the decoder is an oracle.
 */
module Geometry {
  import opened Wrappers

  /** Unsigned 32-bit values, the width of a point index. */
  type uint32 = x: int | 0 <= x < 0x1_0000_0000

  /** Signed 32-bit values, the width of the caller's attribute ids. */
  type int32 = x: int | -0x8000_0000 <= x < 0x8000_0000

  /** The named attribute types the plugin looks up (GeometryAttribute::Type). */
  datatype Semantic = Position | Normal | Color | TexCoord

  /**
   * One point attribute. `mappedIndex` maps a point to the index of its
   * stored value; `floatValue(v, k)` and `int32Value(v, k)` are the
   * conversions of stored value `v` into `k` output components as float or
   * int32, which may fail (ConvertValue returning false).
   */
  datatype Attribute = Attribute(
    numComponents: nat,
    mappedIndex: nat -> nat,
    floatValue: (nat, nat) -> Option<seq<real>>,
    int32Value: (nat, nat) -> Option<seq<int32>>)
  {
    /** A successful conversion writes exactly the requested number of components. */
    ghost predicate Wf() {
      && (forall v, k :: floatValue(v, k).Some? ==> |floatValue(v, k).value| == k)
      && (forall v, k :: int32Value(v, k).Some? ==> |int32Value(v, k).value| == k)
    }
  }

  /** A decoded point cloud; a mesh is a point cloud plus faces. */
  datatype PointCloud = PointCloud(
    numPoints: uint32,
    named: map<Semantic, Attribute>,
    byUniqueId: map<uint32, Attribute>)
  {
    /**
     * Every attribute's conversions are well formed, and a cloud with at
     * least one point carries a position attribute: the plugin reads the
     * position attribute without checking it for null, but only from
     * inside the per-point loop.
     */
    ghost predicate Wf() {
      && (forall s :: s in named ==> named[s].Wf())
      && (forall id :: id in byUniqueId ==> byUniqueId[id].Wf())
      && (numPoints > 0 ==> Position in named)
    }
  }

  /** A triangle: three point indices in decoder order. */
  datatype Face = Face(v0: uint32, v1: uint32, v2: uint32)

  datatype Mesh = Mesh(cloud: PointCloud, faces: seq<Face>)

  /** The geometry type tag stored in an encoded buffer. */
  datatype EncodedGeometryType = InvalidGeometry | PointCloudGeometry | TriangularMeshGeometry

  /**
   * An encoded buffer, represented by what the decoder answers for it:
   * the geometry type tag (None when it cannot be read) and the result of
   * decoding it as a mesh or as a point cloud (None when decoding fails).
   */
  datatype Buffer = Buffer(
    geometryType: Option<EncodedGeometryType>,
    meshDecode: Option<Mesh>,
    pointCloudDecode: Option<PointCloud>)
  {
    ghost predicate Wf() {
      && (meshDecode.Some? ==> meshDecode.value.cloud.Wf())
      && (pointCloudDecode.Some? ==> pointCloudDecode.value.Wf())
    }
  }

  /**
   * GetNamedAttribute: the attribute of a semantic type, or None (a null
   * pointer). A plain map lookup; its contract only names the two outcomes.
   */
  function GetNamedAttribute(pc: PointCloud, s: Semantic): (r: Option<Attribute>)
    ensures r.Some? <==> s in pc.named
    ensures r.Some? ==> r.value == pc.named[s]
  {
    if s in pc.named then Some(pc.named[s]) else None
  }

  /**
   * GetAttributeByUniqueId: the attribute with a unique id, or None (a null
   * pointer). A plain map lookup; its contract only names the two outcomes.
   */
  function GetAttributeByUniqueId(pc: PointCloud, id: uint32): (r: Option<Attribute>)
    ensures r.Some? <==> id in pc.byUniqueId
    ensures r.Some? ==> r.value == pc.byUniqueId[id]
  {
    if id in pc.byUniqueId then Some(pc.byUniqueId[id]) else None
  }

  /** ConvertValue<float, k> of the value mapped to point `i`. */
  function ConvertFloat(att: Attribute, i: nat, k: nat): (r: Option<seq<real>>)
    requires att.Wf()
    ensures r.Some? ==> |r.value| == k
  {
    att.floatValue(att.mappedIndex(i), k)
  }

  /** ConvertValue<int32_t, k> of the value mapped to point `i`. */
  function ConvertInt32(att: Attribute, i: nat, k: nat): (r: Option<seq<int32>>)
    requires att.Wf()
    ensures r.Some? ==> |r.value| == k
  {
    att.int32Value(att.mappedIndex(i), k)
  }
}
