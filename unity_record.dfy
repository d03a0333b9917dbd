/**
 * The DracoToUnityMesh record handed to Unity: counts, the triangle index
 * array and one float/int array per channel, the optional channels each
 * with a presence flag that is set and cleared together with its pointer.
 */
module UnityRecord {
  import opened Wrappers
  import opened Geometry

  /** The record's content as a value: a null pointer is None, an array its elements. */
  datatype Record = Record(
    numFaces: int,
    indices: Option<seq<int>>,
    numVertices: int,
    position: Option<seq<real>>,
    normal: Option<seq<real>>,
    texcoord: Option<seq<real>>,
    color: Option<seq<real>>,
    weights: Option<seq<real>>,
    joints: Option<seq<int32>>)

  /** The elements behind a possibly null array pointer. */
  function ArrayView<T>(a: array?<T>): (r: Option<seq<T>>)
    reads a
    ensures r.None? <==> a == null
    ensures a != null ==> r.value == a[..]
  {
    if a == null then None else Some(a[..])
  }

  class DracoToUnityMesh {
    var numFaces: int
    var indices: array?<int>
    var numVertices: int
    var position: array?<real>
    var hasNormal: bool
    var normal: array?<real>
    var hasTexcoord: bool
    var texcoord: array?<real>
    var hasColor: bool
    var color: array?<real>
    var hasWeights: bool
    var weights: array?<real>
    var hasJoints: bool
    var joints: array?<int32>
    /** Set when the record itself has been deleted. */
    ghost var released: bool

    /** Every presence flag is true exactly when its pointer is non-null. */
    ghost predicate Paired()
      reads this
    {
      && hasNormal == (normal != null)
      && hasTexcoord == (texcoord != null)
      && hasColor == (color != null)
      && hasWeights == (weights != null)
      && hasJoints == (joints != null)
    }

    /** No optional channel is present and no position array is allocated. */
    ghost predicate NoChannels()
      reads this
    {
      && position == null
      && !hasNormal && normal == null
      && !hasTexcoord && texcoord == null
      && !hasColor && color == null
      && !hasWeights && weights == null
      && !hasJoints && joints == null
    }

    /**
     * The five float arrays are distinct objects, so that releasing each
     * one frees it once (joints and indices differ from them by type).
     */
    ghost predicate Distinct()
      reads this
    {
      && (normal != null ==> normal != position)
      && (color != null ==> color != position && color != normal)
      && (texcoord != null ==> texcoord != position && texcoord != normal && texcoord != color)
      && (weights != null ==> weights != position && weights != normal && weights != color && weights != texcoord)
    }

    /** No array at all: the state of a fresh record and of a released one. */
    ghost predicate Cleared()
      reads this
    {
      indices == null && NoChannels()
    }

    ghost function View(): Record
      reads this, indices, position, normal, texcoord, color, weights, joints
    {
      Record(numFaces, ArrayView(indices), numVertices, ArrayView(position),
             ArrayView(normal), ArrayView(texcoord), ArrayView(color),
             ArrayView(weights), ArrayView(joints))
    }

    /** The default constructor: zero counts, null pointers, cleared flags. */
    constructor ()
      ensures numFaces == 0 && numVertices == 0
      ensures indices == null && position == null
      ensures !hasNormal && normal == null
      ensures !hasTexcoord && texcoord == null
      ensures !hasColor && color == null
      ensures !hasWeights && weights == null
      ensures !hasJoints && joints == null
      ensures !released
      ensures Paired() && Cleared()
    {
      numFaces, indices := 0, null;
      numVertices, position := 0, null;
      hasNormal, normal := false, null;
      hasTexcoord, texcoord := false, null;
      hasColor, color := false, null;
      hasWeights, weights := false, null;
      hasJoints, joints := false, null;
      released := false;
    }
  }

  /** The caller's `DracoToUnityMesh*` variable, passed to the plugin by address. */
  class MeshHandle {
    var mesh: DracoToUnityMesh?

    constructor (m: DracoToUnityMesh?)
      ensures mesh == m
    {
      mesh := m;
    }
  }
}
