# Draco Unity plugin: a verified model of the extraction step

The Draco Unity plugin turns a compressed Draco buffer into a flat
`DracoToUnityMesh` record that Unity reads across a C boundary: a face
count and a triangle index array, a vertex count and a position array,
and for each of normal, texture coordinate, color, skin weights and skin
joints a presence flag paired with an array pointer.

This project models the plugin's four parts in Dafny and proves what they
promise:

- **dispatch and result codes** (`DecodeMeshForUnity`): -1 when the
  geometry type tag cannot be read, -2 when it is neither mesh nor point
  cloud, -3 when the codec fails, -8 when some point fails to convert,
  otherwise the face count of a mesh or the point count of a point cloud;
- **index extraction** (mesh only): `3 * num_faces` int32 entries, each
  triangle with its second and third index swapped;
- **six attribute extractors** in a fixed order (position, normal, color,
  texture coordinate, weights, joints), each allocating
  `num_points * k` values, converting every point in place and applying
  its fix-up (Z negated, V replaced by 1 - V, alpha forced to 1);
- **release** (`ReleaseUnityMesh`): frees the arrays, clears the flags and
  nulls the handle.

Files:

- `geometry.dfy` — the decoder's side as oracles: a `Buffer` is what the
  decoder answers for it (type tag, mesh decode, point cloud decode); a
  decoded point cloud is a point count plus attributes looked up by
  semantic type or unique id; an attribute's `ConvertValue` is a function
  that may fail per point.
- `extraction.dfy` — the per-channel content as functions: `FaceIndices`,
  the fix-ups, and `Extract` / `ExtractInts`, the arrays a per-point loop
  produces, with entry-wise lemmas.
- `unity_record.dfy` — the `DracoToUnityMesh` class (array fields,
  presence flags, a ghost `released` flag standing for `delete`), its
  default constructor, and `MeshHandle`, the caller's
  `DracoToUnityMesh*` variable passed by address.
- `decode_spec.dfy` — the outcome of each entry point as a value: the
  returned code and the record handed to the caller.
- `unity_plugin.dfy` — the entry points as imperative methods on the
  record and its arrays, each proved to produce that outcome.
- `properties.dfy` — the promises of the outcome: the code table, the
  index layout, the fix-ups per channel, channel presence, and exactly
  when extraction fails.

Where the code and the plugin's documented intent differ, the model
follows the code:

- The position attribute is dereferenced without a null check, and only
  inside the per-point loop. A geometry with points but no position
  attribute is therefore not a -8 path but undefined behaviour; the model
  makes "position present whenever there is at least one point" part of
  a well-formed point cloud (`PointCloud.Wf`), a precondition of decoding.
- After a -8 failure the record is released through the decoder's local
  copy of the pointer, so the caller's handle is not nulled: it still
  points at the released record. `DecodeMesh` and `DecodePointCloud`
  state exactly that (`tmpMesh.mesh.released`), not a null handle.
- `ReleaseUnityMesh` frees an optional channel only when both its flag
  and its pointer are set. The model keeps that test; the "everything is
  cleared" result is proved for records whose flags and pointers are
  paired, which every record the decoders produce is.

## Model

| member | source | states |
|---|---|---|
| UnityRecord.DracoToUnityMesh.constructor | src/draco/unity/draco_unity_plugin.h:35-49 | a new record has zero counts, null index and position arrays, every presence flag false with a null pointer, and is paired and cleared |
| Geometry.ConvertFloat | src/draco/unity/draco_unity_plugin.cc:116-119 | converting a point through its mapped value index, when it succeeds, writes exactly the requested number of float components |
| Geometry.ConvertInt32 | src/draco/unity/draco_unity_plugin.cc:212-216 | the same for int32 components (joints) |
| Extraction.AsInt32 | src/draco/unity/draco_unity_plugin.cc:103-104 | copying a uint32 point index into an int32 slot keeps its bits: the result is in int32 range, congruent to the index modulo 2^32, and equal to it below 2^31 |
| Extraction.FaceIndices | src/draco/unity/draco_unity_plugin.cc:99-109 | the index array holds 3 entries per face |
| Extraction.FaceIndicesAt | src/draco/unity/draco_unity_plugin.cc:99-109 | face f occupies entries 3f, 3f+1, 3f+2 as its first, third and second index |
| Extraction.ApplyFixup | src/draco/unity/draco_unity_plugin.cc:123-180 | a fix-up changes no point's width; the four fix-ups are the Z negation of position and normal (lines 124, 141), the opaque alpha of color (157-160) and the V flip of texcoord (180) |
| Extraction.FixupInvolution | src/draco/unity/draco_unity_plugin.cc:123-180 | negating Z twice (position and normal, lines 124 and 141), or replacing V by 1 - V twice (texcoord, line 180), gives back the converted point |
| Extraction.Extract | src/draco/unity/draco_unity_plugin.cc:132-142 | a float channel's loop succeeds exactly when every point converts, and then yields k values per point |
| Extraction.ExtractAt | src/draco/unity/draco_unity_plugin.cc:132-142 | entry k*i+c of a successful channel is component c of point i's converted value after the fix-up |
| Extraction.ExtractInts | src/draco/unity/draco_unity_plugin.cc:211-220 | the joints loop succeeds exactly when every point converts to int32, and then yields k values per point |
| Extraction.ExtractIntsAt | src/draco/unity/draco_unity_plugin.cc:211-220 | entry k*i+c of the joints array is component c of point i's converted value |
| DecodeSpec.FloatChannel | src/draco/unity/draco_unity_plugin.cc:127-143 | a float channel is skipped exactly when its attribute is absent, fails exactly when some point of a present attribute fails to convert, and otherwise has k values per point |
| DecodeSpec.IntChannel | src/draco/unity/draco_unity_plugin.cc:204-222 | the same for the int32 joints channel |
| DecodeSpec.ErrorCode | src/draco/unity/draco_unity_plugin.cc:69-121 | every failure (-1 unreadable type, -2 unsupported type, -3 codec failure, -8 conversion failure; -3 and -8 also at lines 231-233 and in every later extractor) is reported as a negative code, so it never collides with a count |
| DecodeProperties.ResultCodes | src/draco/unity/draco_unity_plugin.cc:62-83 | -1 iff the tag is unreadable, -2 iff it is unsupported, -3 iff the matching codec fails, -8 iff the geometry decodes but extraction fails, non-negative iff decoded; a mesh returns its face count and a point cloud its point count |
| DecodeProperties.DecodedRecordChannels | src/draco/unity/draco_unity_plugin.cc:111-222 | a decoded record has one vertex per point and carries exactly the six extracted channels |
| DecodeProperties.MeshDecoded | src/draco/unity/draco_unity_plugin.cc:96-109 | a decoded mesh returns num_faces, has 3 * num_faces indices, and entries 3f, 3f+1, 3f+2 are face f's indices 0, 2, 1 |
| DecodeProperties.PointCloudDecoded | src/draco/unity/draco_unity_plugin.cc:236-238 | a decoded point cloud returns num_points, has no index array, and keeps num_faces at 0 |
| DecodeProperties.PositionFlipsZ | src/draco/unity/draco_unity_plugin.cc:112-125 | position has 3 * num_points values; X and Y are the converted values, Z the converted value negated, and negating it again gives it back |
| DecodeProperties.NormalFlipsZ | src/draco/unity/draco_unity_plugin.cc:127-143 | normal is present iff the geometry has a NORMAL attribute, then 3 * num_points values with Z negated |
| DecodeProperties.TexcoordFlipsV | src/draco/unity/draco_unity_plugin.cc:165-182 | texcoord is present iff the geometry has a TEX_COORD attribute, then 2 * num_points values with U copied and V replaced by 1 - V, which 1 - V undoes |
| DecodeProperties.ColorAlpha | src/draco/unity/draco_unity_plugin.cc:145-163 | color is present iff the geometry has a COLOR attribute, then 4 * num_points values; alpha is 1 when the source has fewer than 4 components, the converted alpha otherwise |
| DecodeProperties.SkinChannels | src/draco/unity/draco_unity_plugin.cc:184-222 | weights (joints) are present iff the id is non-negative, found and four-component, then hold 4 * num_points converted values |
| DecodeProperties.SkippedSkinChannelIsInert | src/draco/unity/draco_unity_plugin.h:74-75 | a skipped skin channel raises no error and changes nothing: the result equals the one for the default id -1 |
| DecodeProperties.ExtractionFailsIff | src/draco/unity/draco_unity_plugin.cc:118-122 | extraction fails (code -8) exactly when some point of some extracted channel fails to convert |
| UnityPlugin.ReleaseUnityMesh | src/draco/unity/draco_unity_plugin.cc:21-60 | a null handle is left untouched; otherwise the record is deleted and the handle nulled, so a second call does nothing; a paired record ends with every pointer null and every flag false |
| UnityPlugin.DeleteRecord | src/draco/unity/draco_unity_plugin.cc:25-58 | indices and position become null; each optional channel is cleared (flag and pointer together) exactly when flag and pointer were both set, otherwise left as it was; the record is deleted; its frame leaves the counts untouched |
| UnityPlugin.FreeOptionalChannels | src/draco/unity/draco_unity_plugin.cc:33-57 | each optional channel is cleared (flag and pointer together) exactly when flag and pointer were both set, otherwise left as it was |
| UnityPlugin.FreeIndices | src/draco/unity/draco_unity_plugin.cc:25-28 | the index pointer ends null |
| UnityPlugin.FreePosition | src/draco/unity/draco_unity_plugin.cc:29-32 | the position pointer ends null |
| UnityPlugin.FreeNormal | src/draco/unity/draco_unity_plugin.cc:33-37 | the normal flag and pointer are cleared together when both are set, otherwise unchanged |
| UnityPlugin.FreeTexcoord | src/draco/unity/draco_unity_plugin.cc:38-42 | the same for texcoord |
| UnityPlugin.FreeColor | src/draco/unity/draco_unity_plugin.cc:43-47 | the same for color |
| UnityPlugin.FreeWeights | src/draco/unity/draco_unity_plugin.cc:48-52 | the same for weights |
| UnityPlugin.FreeJoints | src/draco/unity/draco_unity_plugin.cc:53-57 | the same for joints |
| UnityPlugin.StorePoint | src/draco/unity/draco_unity_plugin.cc:117-119 | a converted point lands in its slot and every other slot is unchanged |
| UnityPlugin.StoreFixed | src/draco/unity/draco_unity_plugin.cc:132-141 | a float point's slot holds the converted value after the channel's fix-up; every other slot is unchanged |
| UnityPlugin.StoreFace | src/draco/unity/draco_unity_plugin.cc:101-108 | a face's slot holds its indices 0, 2, 1 after the swap through the temporary; every other slot is unchanged |
| UnityPlugin.FillIndices | src/draco/unity/draco_unity_plugin.cc:99-109 | the index loop leaves the array equal to `FaceIndices` of the face list |
| UnityPlugin.FillFloats | src/draco/unity/draco_unity_plugin.cc:132-142 | a float channel's loop reports success exactly when `Extract` succeeds, and then leaves the array equal to it |
| UnityPlugin.FillInts | src/draco/unity/draco_unity_plugin.cc:211-220 | the joints loop reports success exactly when `ExtractInts` succeeds, and then leaves the array equal to it |
| UnityPlugin.NewFloatChannel | src/draco/unity/draco_unity_plugin.cc:129-143 | no array for an absent attribute; otherwise a fresh array, and success exactly when the channel does not fail, with the channel's content |
| UnityPlugin.NewIntChannel | src/draco/unity/draco_unity_plugin.cc:208-221 | the same for the joints channel |
| UnityPlugin.ExtractPosition | src/draco/unity/draco_unity_plugin.cc:112-125 | the position array is always allocated, and fresh; success exactly when the position channel does not fail, with its content |
| UnityPlugin.ExtractNormal | src/draco/unity/draco_unity_plugin.cc:127-143 | the flag is set exactly when the array is, and an allocated array is fresh; success exactly when the normal channel does not fail, with its content |
| UnityPlugin.ExtractColor | src/draco/unity/draco_unity_plugin.cc:145-163 | the same for color |
| UnityPlugin.ExtractTexcoord | src/draco/unity/draco_unity_plugin.cc:165-182 | the same for texcoord |
| UnityPlugin.ExtractWeights | src/draco/unity/draco_unity_plugin.cc:184-202 | the same for weights |
| UnityPlugin.ExtractJoints | src/draco/unity/draco_unity_plugin.cc:204-222 | the same for joints |
| UnityPlugin.ExtractSurface | src/draco/unity/draco_unity_plugin.cc:126-182 | normal, color, texcoord in order, stopping at the first failure; flags paired with pointers whatever happens, and every allocated array fresh and distinct from position and from the channels allocated before it |
| UnityPlugin.ExtractSkin | src/draco/unity/draco_unity_plugin.cc:184-222 | weights then joints, stopping at the first failure; flags paired with pointers, and every allocated array fresh |
| UnityPlugin.ExtractOptional | src/draco/unity/draco_unity_plugin.cc:126-222 | normal, color, texcoord, weights, joints in order, stopping at the first failure; success exactly when none of the five channels fails, and then each holds its content; flags paired with pointers, every allocated array fresh, and the five float arrays pairwise distinct (`Distinct`) |
| UnityPlugin.ExtractAttributes | src/draco/unity/draco_unity_plugin.cc:111-222 | success exactly when `ExtractedAttributes` succeeds, and then every channel array holds its content; the position array and every allocated channel array are fresh, and the five float arrays pairwise distinct; only the channel fields change, and the record stays paired on failure so release frees all |
| UnityPlugin.StoreMeshShape | src/draco/unity/draco_unity_plugin.cc:96-109 | num_faces and num_vertices are the mesh's counts, and the index array is a fresh array holding `FaceIndices` of its faces |
| UnityPlugin.FillMeshRecord | src/draco/unity/draco_unity_plugin.cc:96-222 | success exactly when `ExtractedAttributes` succeeds for the mesh's point cloud, and then the record's content is the decoded mesh's record (counts, indices, channels); paired either way, every array the record points at is fresh, and the five float arrays are pairwise distinct |
| UnityPlugin.FillPointCloudRecord | src/draco/unity/draco_unity_plugin.cc:238-344 | the same for a point cloud: num_vertices set, num_faces and indices left at their constructor values |
| UnityPlugin.DecodeMesh | src/draco/unity/draco_unity_plugin.cc:85-225 | returns the code of `MeshOutcome`; on success the handle holds a fresh paired record equal to the outcome's, whose every array is fresh too, so it aliases nothing the caller holds, and whose five float arrays are pairwise distinct, so release frees each once; on -3 the handle is untouched; on -8 it points at a fresh, released, cleared record |
| UnityPlugin.DecodePointCloud | src/draco/unity/draco_unity_plugin.cc:227-347 | the same against `PointCloudOutcome` |
| UnityPlugin.DecodeMeshForUnity | src/draco/unity/draco_unity_plugin.cc:62-83 | returns the code of `DecodeOutcome`, with the record as above; a record already behind the handle is never modified or freed; the skin ids default to -1, which skips both skin channels |

## Left out

- The codec (`Decoder`, `DecoderBuffer`, `GetEncodedGeometryType`, `DecodeMeshFromBuffer`, `DecodePointCloudFromBuffer`) is an oracle: a `Buffer` is modelled by the decoder's answers for it, and the byte buffer and its length are not modelled.
- `ConvertValue` and `mapped_index` are oracles (`Attribute.floatValue`, `int32Value`, `mappedIndex`); the component conversion and the zero fill of missing components happen inside them and are not part of this model.
- Float components are reals: rounding is not modelled, so the involution of 1 - V holds exactly here.
- Memory mechanics: allocation failure, the actual `delete`, use after free and leaks are not modelled; `delete mesh` is the ghost `released` flag, and a freed array is a pointer set to null.
- On a conversion failure `ConvertValue` may have written part of the failing point; the model stops before writing that point. The record is released right after, so no caller can observe the difference.
- UnityPlugin.ReleaseUnityMesh: states the all-cleared result only for records whose flags and pointers are paired; the field-by-field effect on other records is stated by `UnityPlugin.DeleteRecord`.
- Counts and sizes are unbounded integers: the int32 width of `num_faces`, `num_vertices` and of the returned count, and overflow of `num_points * k` in an allocation size, are not modelled.
- Build glue (`EXPORT_API`, `extern "C"`, `BUILD_UNITY_PLUGIN`) has nothing to verify.
