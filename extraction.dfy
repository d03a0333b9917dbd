/**
 * What the plugin's extraction step computes, as values: the flattened
 * triangle indices of a mesh and, per attribute channel, the flat array of
 * converted and fixed-up components. The imperative code in UnityPlugin is
 * proved to produce exactly these values.
 */
module Extraction {
  import opened Wrappers
  import opened Geometry

  /** Reinterprets the bits of an unsigned 32-bit point index as int32 (the memcpy of a face). */
  function AsInt32(x: uint32): (r: int)
    ensures -0x8000_0000 <= r < 0x8000_0000
    ensures r % 0x1_0000_0000 == x
    ensures x < 0x8000_0000 ==> r == x
  {
    if x < 0x8000_0000 then x else x - 0x1_0000_0000
  }

  /**
   * The index array of a mesh: three entries per face, with the second and
   * third index swapped (right-handed to left-handed winding).
   */
  function FaceIndices(faces: seq<Face>): (r: seq<int>)
    ensures |r| == 3 * |faces|
  {
    if faces == [] then []
    else
      var f := faces[|faces| - 1];
      FaceIndices(faces[..|faces| - 1]) + [AsInt32(f.v0), AsInt32(f.v2), AsInt32(f.v1)]
  }

  /** Entry by entry: face `f` occupies entries 3f, 3f+1, 3f+2 in winding order v0, v2, v1. */
  lemma {:induction false} FaceIndicesAt(faces: seq<Face>, f: nat)
    requires f < |faces|
    ensures FaceIndices(faces)[3 * f] == AsInt32(faces[f].v0)
    ensures FaceIndices(faces)[3 * f + 1] == AsInt32(faces[f].v2)
    ensures FaceIndices(faces)[3 * f + 2] == AsInt32(faces[f].v1)
  {
    var init := faces[..|faces| - 1];
    if f < |faces| - 1 {
      FaceIndicesAt(init, f);
      assert faces[f] == init[f];
    }
  }

  /** The in-place fix-up a channel applies to each converted point. */
  datatype Fixup =
    | NoFixup      // weights and joints
    | NegateZ      // position and normal: right-handed to left-handed, flip the Z axis
    | FlipV        // texture coordinates: top-left origin to bottom-left origin
    | OpaqueAlpha  // color: alpha forced to 1 when the source has no alpha component

  /** The number of output components a fix-up touches. */
  function MinWidth(fix: Fixup): nat {
    match fix
    case NoFixup => 0
    case NegateZ => 3
    case FlipV => 2
    case OpaqueAlpha => 4
  }

  /**
   * The fix-up applied to one converted point `v`; `srcComponents` is the
   * component count of the source attribute.
   */
  function ApplyFixup(fix: Fixup, srcComponents: nat, v: seq<real>): (r: seq<real>)
    requires MinWidth(fix) <= |v|
    ensures |r| == |v|
  {
    match fix
    case NoFixup => v
    case NegateZ => v[2 := -v[2]]
    case FlipV => v[1 := 1.0 - v[1]]
    case OpaqueAlpha => if srcComponents < 4 then v[3 := 1.0] else v
  }

  /** The two handedness fix-ups are involutions: applying one twice gives back the point. */
  lemma FixupInvolution(fix: Fixup, srcComponents: nat, v: seq<real>)
    requires fix == NegateZ || fix == FlipV
    requires MinWidth(fix) <= |v|
    ensures ApplyFixup(fix, srcComponents, ApplyFixup(fix, srcComponents, v)) == v
  {
  }

  lemma MulStep(k: nat, n: nat)
    ensures k * (n + 1) == k * n + k
  {
  }

  /**
   * The flat float array of the first `n` points of `att`, `k` components
   * per point, each point converted and fixed up; None when some point's
   * conversion fails.
   */
  function Extract(att: Attribute, n: nat, k: nat, fix: Fixup): (r: Option<seq<real>>)
    requires att.Wf() && MinWidth(fix) <= k
    ensures r.Some? <==> forall i :: 0 <= i < n ==> ConvertFloat(att, i, k).Some?
    ensures r.Some? ==> |r.value| == k * n
    decreases n
  {
    if n == 0 then Some([])
    else
      var prefix := Extract(att, n - 1, k, fix);
      var point := ConvertFloat(att, n - 1, k);
      if prefix.None? || point.None? then None
      else
        MulStep(k, n - 1);
        Some(prefix.value + ApplyFixup(fix, att.numComponents, point.value))
  }

  /** One more point: a successful prefix followed by the next point's fixed-up value. */
  lemma ExtractStep(att: Attribute, n: nat, k: nat, fix: Fixup)
    requires att.Wf() && MinWidth(fix) <= k
    requires Extract(att, n, k, fix).Some? && ConvertFloat(att, n, k).Some?
    ensures Extract(att, n + 1, k, fix)
         == Some(Extract(att, n, k, fix).value + ApplyFixup(fix, att.numComponents, ConvertFloat(att, n, k).value))
  {
  }

  /** Component `c` of point `i` in the extracted array is component `c` of that point's fixed-up value. */
  lemma {:induction false} ExtractAt(att: Attribute, n: nat, k: nat, fix: Fixup, i: nat, c: nat)
    requires att.Wf() && MinWidth(fix) <= k
    requires Extract(att, n, k, fix).Some?
    requires i < n && c < k
    ensures ConvertFloat(att, i, k).Some?
    ensures k * i + c < k * n
    ensures Extract(att, n, k, fix).value[k * i + c]
         == ApplyFixup(fix, att.numComponents, ConvertFloat(att, i, k).value)[c]
  {
    MulStep(k, i);
    MulStep(k, n - 1);
    if i < n - 1 {
      ExtractAt(att, n - 1, k, fix, i, c);
      MulMonotone(k, i + 1, n - 1);
    }
  }

  lemma MulMonotone(k: nat, a: nat, b: nat)
    requires a <= b
    ensures k * a <= k * b
  {
  }

  /** The flat int32 array of the first `n` points of `att`, `k` components each, no fix-up. */
  function ExtractInts(att: Attribute, n: nat, k: nat): (r: Option<seq<int32>>)
    requires att.Wf()
    ensures r.Some? <==> forall i :: 0 <= i < n ==> ConvertInt32(att, i, k).Some?
    ensures r.Some? ==> |r.value| == k * n
    decreases n
  {
    if n == 0 then Some([])
    else
      var prefix := ExtractInts(att, n - 1, k);
      var point := ConvertInt32(att, n - 1, k);
      if prefix.None? || point.None? then None
      else
        MulStep(k, n - 1);
        Some(prefix.value + point.value)
  }

  /** One more point: a successful int32 prefix followed by the next point's converted value. */
  lemma ExtractIntsStep(att: Attribute, n: nat, k: nat)
    requires att.Wf()
    requires ExtractInts(att, n, k).Some? && ConvertInt32(att, n, k).Some?
    ensures ExtractInts(att, n + 1, k) == Some(ExtractInts(att, n, k).value + ConvertInt32(att, n, k).value)
  {
  }

  /** Component `c` of point `i` in the extracted int32 array is the converted component. */
  lemma {:induction false} ExtractIntsAt(att: Attribute, n: nat, k: nat, i: nat, c: nat)
    requires att.Wf()
    requires ExtractInts(att, n, k).Some?
    requires i < n && c < k
    ensures ConvertInt32(att, i, k).Some?
    ensures k * i + c < k * n
    ensures ExtractInts(att, n, k).value[k * i + c] == ConvertInt32(att, i, k).value[c]
  {
    MulStep(k, i);
    MulStep(k, n - 1);
    if i < n - 1 {
      ExtractIntsAt(att, n - 1, k, i, c);
      MulMonotone(k, i + 1, n - 1);
    }
  }
}
