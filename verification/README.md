# vox.js mesh, camera and input core in Dafny

This project models the core of the vox.js viewer. It covers:

- the `Model` mesh (`src/js/Model.js`):
  - `fromOBJ` over Wavefront OBJ text, including both exceptions it can throw;
  - the `bounds`, `size`, `center` and `biggestDimension` it derives;
  - the triangle-fan arrays it hands to WebGL, and their caches;
  - `swapYZ`;
- the value classes of `src/js/model.js`:
  - `Vector3`, `Face`, `Bounds`, `Orientation`, `InputAxes`;
  - the `Camera` with its FREE and FOCUSED modes;
- the key dictionary of `src/js/InputHandler.js`;
- the renderable list and render flag of `src/js/Renderer.js`;
- the 4x4 matrix helpers of `src/js/matrix.js`.

Modules, one per file:

| file | module | models |
|---|---|---|
| `host.dfy` | `Host` | what the JavaScript host supplies |
| `vectors.dfy` | `Vectors` | the value classes |
| `face.dfy` | `Faces` | `Face` |
| `obj_text.dfy` | `ObjText` | the string handling and regular expressions of `fromOBJ` |
| `obj_parse.dfy` | `ObjParse` | `fromOBJ` as functions of the text |
| `model.dfy` | `MeshModel` | the `Model` class |
| `camera.dfy` | `CameraModel` | the camera |
| `input.dfy` | `Input` | the input handler |
| `renderer.dfy` | `Rendering` | the renderer |
| `matrix.dfy` | `Matrix` | the matrix helpers |

`Host` supplies `Math.PI`, and an `Option` and a `Result` type. `Math.sqrt`, `Math.sin`, `Math.cos` and `parseFloat` are parameters. The one property assumed of the square root is `IsSqrt`.

## How the objects are represented

The source shares `Vector3` objects between several holders:

- a parsed point is both an element of `points` and a corner of every face that names it;
- a synthesized vertex normal is both an accumulator and a normal of every smooth face that names it.

The model keeps this sharing explicit:

- each arena is a `seq<Vector3>` field of the `Model` class;
- a face holds references into an arena, either `At(index)` or `Undefined` (JavaScript's `undefined`);
- an in-place update of a shared vector (`addToSelf`, `normalizeSelf`, the exchanges of `swapYZ`) is an update of its slot, which every face naming that slot sees.

The state-changing classes are Dafny classes with the source's fields: `Model`, `Camera`, `InputHandler` and `Renderer`. Each of their methods is stated against a specification function:

- `ParseLines` and `FromObjSpec`;
- `MeshBounds`;
- `PointsArrayOf`, `NormalsArrayOf` and `NormalsPrefix`;
- `Moved` and `Rebased`;
- `Removed` and `Requests`.

Lemmas then prove what those functions guarantee.

Where the code is modelled as written rather than as its comments or its design describe it:

- `__getNormalVector` (src/js/Model.js:210-219) builds four of its six edge components from the wrong corners, compared with the cross product of the edges t1 - t0 and t2 - t0. `first[1]` is t1.y - t1.y, so it is always 0. `first[2]` is t1.z - t2.z. `second[1]` is t2.y - t1.y. `second[2]` is t2.z - t2.z, also always 0. Measured against the other usual formula, (t1 - t0) × (t2 - t1), the fourth wrong component is `second[0]` instead of `second[1]`. `ObjParse.NormalVector` keeps the operands as written, and two lemmas show the consequence:
  - `NormalVectorReduced`: two of its six operands are always zero;
  - `NormalVectorOfFlatTriangle`: on a simple right triangle it differs from the cross product of the edges.
- Face normals are summed into the accumulators without being normalised first, so larger triangles weigh more.
- The yaw wrap of `move` is a single step. It keeps exactly 2π, and it leaves a value more than one turn out of range outside [0, 2π].
- A face line is checked against `faceSegmentRegex` on its first vertex token only. A face of one or two corners is kept.
- `__createNormalsFromPoints` has no caller in the source. It is modelled all the same.

## Model

| member | source | states |
|---|---|---|
| ObjText.SplitOn | src/js/Model.js:95 | `split` always yields at least one part, and no part contains the separator |
| ObjText.JoinSplit | src/js/Model.js:95 | joining the parts of a split with the separator restores the string |
| ObjText.SplitJoin | src/js/Model.js:129 | splitting a join of separator-free parts gives back exactly those parts |
| ObjText.SplitPlain | src/js/Model.js:129 | a string with no separator splits into itself alone |
| ObjText.SplitPrefix | src/js/Model.js:129 | a separator-free prefix followed by the separator becomes the first part, and the rest splits on its own |
| ObjText.ReplaceCarriageReturns | src/js/Model.js:94 | same length, and every "\r" (and only it) becomes "\n" |
| ObjText.LinesHaveNoTerminators | src/js/Model.js:94-95 | no line holds "\r" or "\n", and joining the lines with "\n" gives the text with each "\r" turned into "\n" |
| ObjText.Lines | src/js/Model.js:94-95 | defines the lines: the text with "\r" replaced by "\n", split at "\n"; `LinesHaveNoTerminators` proves what they hold |
| ObjText.TrimStart | src/js/Model.js:101 | the result is a suffix of the input, does not start with white space, and only white space was dropped |
| ObjText.TrimEnd | src/js/Model.js:101 | the result is a prefix of the input, does not end with white space, and only white space was dropped |
| ObjText.Trim | src/js/Model.js:101 | `trim()` leaves no white space at either end |
| ObjText.TrimStartRun | src/js/Model.js:101 | `trim()` drops exactly the leading white space in front of a word |
| ObjText.TrimEndRun | src/js/Model.js:101 | `trim()` drops exactly the trailing white space after a word |
| ObjText.NonSpaceTrim | src/js/Model.js:101 | `trim()` removes white space only: every other character stays, in order |
| ObjText.Collapse | src/js/Model.js:102 | defines `replaceAll(/\s+/g, " ")`: a run of white space becomes one ' ', every other character is copied; `CollapseRun` proves that a run of any length and kind becomes one ' ', `CollapseShape` and `CollapseKeepsText` prove what the result holds |
| ObjText.CollapseShape | src/js/Model.js:102 | after `replaceAll(/\s+/g, " ")` the only white space left is single spaces, never two in a row, at the ends exactly where the input had white space, and the result is empty only for empty input |
| ObjText.CollapseFirst | src/js/Model.js:102 | a non-empty input collapses to a non-empty string that starts with ' ' exactly when the input starts with white space |
| ObjText.CollapseOnlySpace | src/js/Model.js:102 | the only white space left after collapsing is ' ' |
| ObjText.CollapseNoDouble | src/js/Model.js:102 | a collapsed string never holds two spaces in a row |
| ObjText.CollapseLast | src/js/Model.js:102 | a collapsed string ends with ' ' exactly when the input ends with white space |
| ObjText.CollapseKeepsText | src/js/Model.js:102 | collapsing keeps every character that is not white space, in order |
| ObjText.CollapseRun | src/js/Model.js:102 | a non-empty run of white space of any kind and length, followed by a word or by the end, becomes a single ' ' |
| ObjText.CollapseWordGap | src/js/Model.js:102 | a word, a run of white space and a following word collapse to the word, one ' ' and the collapsed rest |
| ObjText.CollapseInterleave | src/js/Model.js:102 | words separated by runs of white space collapse to the words joined by single spaces |
| ObjText.CollapseJoin | src/js/Model.js:102 | non-empty words free of white space, joined by single spaces, are left unchanged by collapsing |
| ObjText.Segments | src/js/Model.js:101-103 | defines the segments of a line: trimmed, collapsed, split at ' '; `SegmentsOfSpacedWords` proves that words separated by any white space segment into exactly those words, and `LineSegments` and `SegmentsKeepText` prove what any line yields |
| ObjText.LineSegments | src/js/Model.js:101-103 | a blank line yields the single segment "", and any other line yields non-empty segments free of white space |
| ObjText.SegmentsKeepText | src/js/Model.js:101-103 | the segments joined by ' ' are the trimmed and collapsed line, and hold exactly the line's characters other than white space, in order |
| ObjText.SegmentsOfJoin | src/js/Model.js:101-103 | non-empty words free of white space, joined by single spaces, segment back into exactly those words |
| ObjText.SegmentsOfSpacedWords | src/js/Model.js:101-103 | a line of non-empty words free of white space, separated by any non-empty runs of white space (tabs, several spaces, ...) and with any white space at either end, segments into exactly those words |
| ObjText.TabSeparatedFace | src/js/Model.js:101-103 | the face line "f\t12\t3" segments into "f", "12" and "3" |
| ObjText.CollapsedWords | src/js/Model.js:102-103 | a string that starts and ends with something other than white space collapses and splits into non-empty words free of white space |
| ObjText.SplitOnSpaceFree | src/js/Model.js:103 | when ' ' is the only white space in a string, no part of its split at ' ' holds white space |
| ObjText.SplitWords | src/js/Model.js:103 | splitting at ' ' a string with no doubled or trailing space gives non-empty parts |
| ObjText.IsFaceSegment | src/js/Model.js:11 | defines faceSegmentRegex: an optionally negative integer, optionally followed by "/" and one, or by "/", an optional "-" and optional digits, "/" and one; `FaceSegmentClasses` relates it to the four type expressions |
| ObjText.IsV | src/js/Model.js:14 | defines fsVreg: one optionally negative integer |
| ObjText.IsVT | src/js/Model.js:15 | defines fsVTreg: two of them separated by "/" |
| ObjText.IsVTN | src/js/Model.js:16 | defines fsVTNreg: three of them separated by "/" |
| ObjText.IsVN | src/js/Model.js:17 | defines fsVNreg: two of them separated by "//" |
| ObjText.FaceSegmentClasses | src/js/Model.js:11-17 | each of the four type expressions lies inside faceSegmentRegex; the tokens accepted beyond them are exactly those with a "-" middle field; an accepted token that is neither `v` nor `v/vt` has three '/'-fields |
| ObjText.DashMiddleField | src/js/Model.js:11-17 | "1/-/2" passes faceSegmentRegex but none of the four type expressions, so it is read as a face with explicit normals |
| ObjText.DashFields | src/js/Model.js:11-17 | the '/'-separated fields of "1/-/2" are "1", "-" and "2" |
| ObjParse.Coordinate | src/js/Model.js:105-107 | defines `parseFloat(segments[k])`, a missing segment being read as the text "undefined"; parseFloat itself is a parameter |
| ObjParse.FieldIndex | src/js/Model.js:129-130 | defines the index field's value: the integer when the field reads `-?\d+`, NaN otherwise |
| ObjParse.Resolve | src/js/Model.js:131-132 | defines the lookup `points[index > 0 ? index : points.length + index]` behind the placeholder slot; `ResolveMeaning` proves which indices name which element |
| ObjParse.ResolveMeaning | src/js/Model.js:130-131 | a positive index n names the n-th point and a negative index -n the n-th from the end; 0, NaN and anything past either end resolve to `undefined` |
| ObjParse.TextSegments | src/js/Model.js:94-103 | each line of the text (`SegmentedLines`) yields the single segment "" or non-empty segments, and no segment holds white space or a line terminator |
| ObjParse.PointRefs | src/js/Model.js:128-134 | one point reference per vertex token |
| ObjParse.NormalRefs | src/js/Model.js:147-155 | one normal reference per vertex token |
| ObjParse.NormalVectorReduced | src/js/Model.js:209-226 | as written, two of the six difference entries are identically zero, leaving three products |
| ObjParse.NormalVectorOfFlatTriangle | src/js/Model.js:209-226 | on the triangle (0,0,0), (1,0,0), (0,0,1) the result is the zero vector, while the cross product of its edges is (0,-1,0) |
| ObjParse.NormalVector | src/js/Model.js:209-226 | defines __getNormalVector with its operands as written; the two lemmas above prove what it computes |
| ObjParse.FaceNormals | src/js/Model.js:200-207 | defines the list of __createFaceNormals: the normal of fan triangle (p0, p[k+1], p[k+2]) for each k; `Model.CreateFaceNormals` is proved to compute it |
| ObjParse.Accumulate | src/js/Model.js:136-140 | the accumulator array keeps its length |
| ObjParse.AccumulateSums | src/js/Model.js:136-140 | each accumulator ends as its start plus every fan normal times the number of that triangle's corners at it (the corners' slots are the indices of the face's references, `Slots`); one that no corner names is untouched |
| ObjParse.ResolveInRange | src/js/Model.js:128-134 | every resolved point or normal reference is undefined or names an element declared so far |
| ObjParse.StepWellFormed | src/js/Model.js:100-159 | each line keeps the arrays well formed: one accumulator per point, every reference undefined or in range, smooth faces sharing their point slots with the accumulators |
| ObjParse.SmoothFace | src/js/Model.js:124-142 | defines a face line read as `v` or `v/vt`: its point references, the TypeError of an unresolved corner, the accumulation, the new face; `StepTypeError` and `AccumulateSums` prove its meaning |
| ObjParse.ExplicitFace | src/js/Model.js:143-158 | defines a face line with explicit normals: a new face with its point and normal references; `ShortFacesKept` and `ArenasFollowLines` use it |
| ObjParse.Step | src/js/Model.js:104-159 | defines one iteration of the line loop by the line's keyword; `StepCorrupted`, `StepTypeError` and `StepWellFormed` prove its errors and its invariant |
| ObjParse.ParseLines | src/js/Model.js:100-160 | defines the line loop as a fold of `Step` that stops at the first error; `FailFast` and `ErrorPersists` prove it |
| ObjParse.FailFast | src/js/Model.js:100-160 | the line loop fails with an error exactly when some line, reached after every earlier line succeeded, fails with it |
| ObjParse.FailureStops | src/js/Model.js:100-160 | a line that is reached and throws decides the result of the whole parse |
| ObjParse.FirstFailure | src/js/Model.js:100-160 | a failed parse names the line that threw: every line before it succeeded and its error is the result |
| ObjParse.ErrorPersists | src/js/Model.js:100-160 | once a prefix of the lines fails, every longer prefix fails with the same error |
| ObjParse.StepCorrupted | src/js/Model.js:117-122 | a line throws "Corrupted file" exactly when it is an `f` line whose first vertex token is missing or fails faceSegmentRegex, whatever came before |
| ObjParse.StepTypeError | src/js/Model.js:124-142 | a line throws a TypeError exactly when it is a smooth face of three or more corners, one of which names no declared point |
| ObjParse.CorruptedExactly | src/js/Model.js:117-122 | fromOBJ throws "Corrupted file" exactly when a corrupt face line comes before any other error |
| ObjParse.ShortFacesKept | src/js/Model.js:117-158 | a face line of one or two corners with a valid first token is accepted and adds a face |
| ObjParse.ArenasFollowLines | src/js/Model.js:104-116 | after a successful parse, `points` holds the `v` lines and `normals` the `vn` lines in file order; there is one face per `f` line and the arrays are well formed |
| ObjParse.FromObjSpec | src/js/Model.js:93-171 | defines fromOBJ's result: the line loop, the normalised accumulators and the constructor's TypeError on an empty face; `CorruptedExactly`, `ArenasFollowLines` and `Model.FromObj` prove its meaning |
| ObjParse.NormalizeAll | src/js/Model.js:165 | one normalised vector per accumulator |
| ObjParse.NormalizeAllUnit | src/js/Model.js:165 | every non-zero accumulator becomes unit length, and a zero one stays zero |
| Faces.FanArrayShape | src/js/model.js:198-218 | a polygon of n >= 3 corners yields 9(n-2) numbers, with triangle k (corners 0, k+1, k+2) at offset 9k; fewer corners yield nothing |
| Faces.FanArrayLength | src/js/model.js:198-218 | a polygon of n >= 3 corners yields 9(n-2) numbers, fewer corners none |
| Faces.FanArrayTriangle | src/js/model.js:198-218 | the nine numbers at offset 9k are triangle k's corners 0, k+1 and k+2 |
| Faces.FanArray | src/js/model.js:198-218 | defines the flattened fan triangles (corners 0, k+1, k+2) of a point or normal list; `FanArrayShape` proves its layout |
| Faces.PrepareFanArray | src/js/model.js:198-207 | the loop of preparePointsArray/prepareNormalsArray builds exactly the fan array |
| Faces.BoundsOfTight | src/js/model.js:172-196 | the bounds of a point list are ordered, contain every point, and every bound is some point's coordinate |
| Faces.BoundsOf | src/js/model.js:172-196 | defines the bounds of a point list as the componentwise minimum and maximum; `BoundsOfTight` proves it the smallest box around the points |
| Faces.FaceBounds | src/js/model.js:172-196 | Face.bounds, with its `else if`, computes the bounds of the face's points; `BoundsOfTight` proves those the smallest box around them |
| Faces.BoundsOfConcat | src/js/Model.js:67-91 | the bounds of two point lists together are the union of their bounds |
| Faces.BoundsOfSwapYZ | src/js/Model.js:30-51 | exchanging y and z on every point exchanges them on the bounds |
| Faces.UnionOfFacesTight | src/js/Model.js:67-91 | the union of the face bounds is the bounds of all the faces' points together |
| Faces.UnionOfFacesStep | src/js/Model.js:67-91 | taking in one more face widens the union by exactly that face's bounds |
| MeshModel.MeshBoundsTight | src/js/Model.js:67-91 | Model's bounds are ordered, contain every point of every face, and are attained by the faces' points; each face's points are read through its references into the point arena (`Deref`, face by face in `PointLists`) |
| MeshModel.MeshBounds | src/js/Model.js:67-91 | defines Model's bounds as the union of the face bounds; `MeshBoundsTight` proves what it is |
| MeshModel.PointsArrayOf | src/js/Model.js:173-178 | defines the points array: the faces' fan arrays one after the other; the next four lemmas prove its layout |
| MeshModel.PointsArrayLength | src/js/Model.js:173-178 | pointsArray holds nine numbers per fan triangle of every face |
| MeshModel.PointsArrayPrefix | src/js/Model.js:173-178 | the array of the first j faces is a prefix of the whole array |
| MeshModel.PointsArrayLayout | src/js/Model.js:173-178 | face k's fan array sits right after the triangles of the faces before it |
| MeshModel.TriangleCountMonotone | src/js/Model.js:173-178 | more faces never mean fewer triangles |
| MeshModel.FirstUnreadable | src/js/Model.js:180-185 | every face before the returned index has readable normals, and the face at it (if any) does not |
| MeshModel.NormalsArrayOf | src/js/Model.js:180-185 | defines the normals array over faces whose normals can all be read; `NormalsArrayStep` and `NormalsArrayLayout` prove its layout |
| MeshModel.NormalsPrefix | src/js/Model.js:180-185 | defines what __prepareNormalsArray leaves in the cache: the arrays of the faces before the first that throws; `NormalsPrefixFull` proves it whole when none throws |
| MeshModel.NormalsArrayStep | src/js/Model.js:180-185 | each readable face appends its own normals array to the normals array |
| MeshModel.NormalsPrefixFull | src/js/Model.js:180-185 | when every face's normals can be read, the prefix the cache holds is the whole normals array |
| MeshModel.FaceNormalsArrayOf | src/js/model.js:209-218 | Face.prepareNormalsArray builds the face's normals array: the fan array of its normals, or nothing below three corners |
| MeshModel.NormalsArrayLayout | src/js/Model.js:180-185 | when every normal can be read, normalsArray has the shape of pointsArray: nine numbers per fan triangle |
| MeshModel.DerefSwap | src/js/Model.js:31-35 | exchanging y and z on the arena (`SwapAll`) exchanges them on the points every face reads through its references (`Deref`) |
| MeshModel.UnionOfFacesSwap | src/js/Model.js:30-51 | exchanging y and z on every face's points exchanges them on the union of the face bounds |
| MeshModel.MeshBoundsSwap | src/js/Model.js:30-51 | exchanging y and z on the points exchanges them on Model's bounds |
| MeshModel.SwapTwice | src/js/Model.js:30-51 | exchanging twice (`SwapAll` applied twice) restores every arena and every bounds |
| MeshModel.DerivedSwap | src/js/Model.js:25-27 | after the exchange the size and center the constructor would derive are the old ones with y and z exchanged, and biggestDimension is unchanged |
| MeshModel.SwapValid | src/js/Model.js:30-51 | exchanging the arenas, rebuilding both caches from every face and exchanging size and center keeps a model valid |
| MeshModel.PointsDefinedSwap | src/js/Model.js:31-45 | exchanging the points keeps every face's points defined |
| MeshModel.Widen | src/js/Model.js:70-88 | the six comparisons of the bounds getter widen the bounds to the union with the viewed face's bounds |
| MeshModel.FaceNormalsListed | src/js/Model.js:199-206 | a list giving the normal of each fan triangle in turn is the face-normal list |
| MeshModel.PointNormalsOfFace | src/js/Model.js:186-197 | a point-normal list that repeats the first triangle's normal at the two first corners and then follows the triangles is the face-normal list with its first entry put twice in front |
| MeshModel.Model.constructor | src/js/Model.js:19-28 | keeps the arrays, and derives size, center and biggestDimension from the bounds |
| MeshModel.Model.FromObj | src/js/Model.js:93-171 | fromOBJ throws exactly the error of the specification, and otherwise returns a fresh valid Model over its faces, points and normals, with empty caches |
| MeshModel.Model.ReadLines | src/js/Model.js:100-160 | the line loop computes the fold of one step per line, stopping at the first line that throws |
| MeshModel.Model.CreateFaceNormals | src/js/Model.js:200-207 | n-2 normals for n >= 3 corners, normal k being that of triangle (p0, p[k+1], p[k+2]); none for fewer |
| MeshModel.Model.CreateNormalsFromPoints | src/js/Model.js:187-198 | one normal per point for three or more points: the first three share the first triangle's normal, and point j >= 2 takes the normal of the triangle it closes |
| MeshModel.Model.Bounds | src/js/Model.js:67-91 | the getter's six comparisons per face compute the union of the face bounds |
| MeshModel.Model.PreparePointsArray | src/js/Model.js:173-178 | the cache holds every face's point array, in face order |
| MeshModel.Model.PrepareNormalsArray | src/js/Model.js:180-185 | the cache holds the normal arrays of the faces before the first one that throws, and the call succeeds exactly when no face throws |
| MeshModel.Model.PointsArray | src/js/Model.js:53-58 | the getter returns the points array and leaves it cached |
| MeshModel.Model.NormalsArray | src/js/Model.js:60-65 | a filled cache is served unchanged, even a half-built one; otherwise the array is built, and the call throws exactly when some face's normals cannot be read |
| MeshModel.Model.SwapYZ | src/js/Model.js:30-51 | points and `vn` normals get y and z exchanged, and only the arenas, caches, size and center may change; it succeeds exactly when all face normals are readable; on success the model stays valid, both caches hold the whole rebuilt arrays, and size and center have y and z exchanged; after a throw size, center and caches are as before |
| MeshModel.Model.SwapArenas | src/js/Model.js:31-40 | every point and every `vn` normal has y and z exchanged |
| MeshModel.Model.RefreshFaceArrays | src/js/Model.js:41-44 | the face loop completes exactly when every face's normals can be read |
| MeshModel.Model.RebuildAfterSwap | src/js/Model.js:45-50 | both caches are rebuilt from the exchanged arenas, and size and center get y and z exchanged |
| MeshModel.SwapKeepsShape | src/js/Model.js:30-51 | exchanging the arenas keeps the mesh's shape and exchanges y and z on its bounds |
| MeshModel.ResolvePoints | src/js/Model.js:128-134 | the smooth face's vertex loop yields the point references of its tokens |
| MeshModel.ResolveExplicit | src/js/Model.js:147-155 | the explicit face's vertex loop yields the point and the normal references of its tokens |
| MeshModel.AccumulateFace | src/js/Model.js:136-140 | the accumulation loop adds each fan normal at its three corners, so each accumulator gains its contribution |
| MeshModel.NormalizeAccumulators | src/js/Model.js:165 | every accumulator is normalised in place |
| MeshModel.ParsedShaped | src/js/Model.js:161-170 | what fromOBJ hands the constructor has the shape every Model has |
| MeshModel.FirstUnreadableSwap | src/js/Model.js:41-44 | exchanging the arenas does not change which faces can be read |
| Vectors.SquaresNonNegative | src/js/model.js:63-65 | the squared length is non-negative, and zero exactly on the zero vector |
| Vectors.LengthPositive | src/js/model.js:63-65 | the length is positive exactly on non-zero vectors |
| Vectors.Vector3.Add | src/js/model.js:67-69 | defines `add`, componentwise; `AddSubInverse` proves `sub` undoes it |
| Vectors.Vector3.Sub | src/js/model.js:77-79 | defines `sub`, componentwise |
| Vectors.Vector3.Cross | src/js/model.js:87-93 | defines `cross`; `CrossIsOrthogonal` proves it perpendicular to both operands |
| Vectors.Vector3.Normalize | src/js/model.js:95-102 | defines `normalize`: the vector times 1/length when the length is positive, the Infinity sentinel otherwise; the three lemmas below prove its meaning |
| Vectors.NormalizeIsFinite | src/js/model.js:95-102 | `normalize` gives a finite vector exactly on non-zero input; zero gives the Infinity sentinel |
| Vectors.NormalizeIsUnit | src/js/model.js:95-102 | a finite result of `normalize` has unit length |
| Vectors.NormalizeKeepsDirection | src/js/model.js:95-102 | a finite result of `normalize` is the input scaled by a positive factor |
| Vectors.Vector3.NormalizeSelf | src/js/model.js:104-107 | defines `normalizeSelf`, keeping a zero vector as it is; `NormalizeSelfIsUnit` proves its meaning |
| Vectors.NormalizeSelfIsUnit | src/js/model.js:104-107 | `normalizeSelf` gives unit length on every non-zero vector |
| Vectors.CrossIsOrthogonal | src/js/model.js:87-93 | `cross` is perpendicular to both operands |
| Vectors.AddSubInverse | src/js/model.js:67-79 | `sub` undoes `add`, and adding the `negative` is subtracting |
| Vectors.SwapYZInvolution | src/js/Model.js:49-50 | exchanging y and z twice restores the vector and keeps its length |
| Vectors.Bounds.Size | src/js/model.js:228-234 | defines `size`, the maximum minus the minimum; `SizeOfOrderedBounds` proves its meaning |
| Vectors.SizeOfOrderedBounds | src/js/model.js:228-234 | `size` is non-negative on every axis exactly when the bounds are ordered, and minimum plus size is the maximum |
| Vectors.OrientationZero | src/js/model.js:250-268 | `isZero` holds exactly of the all-zero orientation, which is a unit for `add`; scaling by 0 yields it |
| Vectors.InputAxesZero | src/js/model.js:289-309 | the same three facts for InputAxes |
| CameraModel.ClampPitch | src/js/model.js:347-353 | the pitch ends in [-π/2, π/2]; it is unchanged inside and clamped to the near end outside |
| CameraModel.WrapYaw | src/js/model.js:354-360 | a yaw within one turn of [0, 2π] lands in it, one already inside is unchanged, and the step is a single ±2π |
| CameraModel.WrapYawIsSingleStep | src/js/model.js:354-360 | a yaw two turns below zero stays negative after the wrap, and 2π itself is kept |
| CameraModel.Moved | src/js/model.js:335-361 | the pitch is the clamped sum of the pitches and lies in [-PI/2, PI/2]; the yaw is the once-wrapped sum of the yaws, and an in-range yaw moved by at most a turn stays in range; the roll adds; FREE adds the translation and keeps the elevation; FOCUSED subtracts the translation and sets the elevation to the larger of 0 and the summed elevation, so it is never negative and exact when the sum is non-negative |
| CameraModel.View | src/js/model.js:363-383 | FREE gives the stored orientation itself; FOCUSED gives the stored pitch and yaw with no roll, at elevation 0 |
| CameraModel.EyeOffset | src/js/model.js:367-374 | defines the offset of the eye from the focus in FOCUSED mode, the same vector as the mode setter's positionDeltaVector (lines 393-398); `RebaseKeepsEye` proves the two uses agree |
| CameraModel.Rebased | src/js/model.js:389-408 | the mode setter changes only the position, and only when the mode changes |
| CameraModel.RebaseKeepsEye | src/js/model.js:389-408 | switching mode does not move the eye that the orientation getter derives |
| CameraModel.RebaseRoundTrip | src/js/model.js:389-408 | FREE→FOCUSED→FREE and FOCUSED→FREE→FOCUSED restore the stored orientation |
| CameraModel.MovesKeepAngles | src/js/model.js:335-361 | over any run of moves the pitch stays in range, the FOCUSED elevation stays non-negative, and the yaw stays in [0, 2π] while no single move turns by more than a full turn |
| CameraModel.Camera.constructor | src/js/model.js:329-333 | stores the orientation, field of view and mode |
| CameraModel.Camera.Move | src/js/model.js:335-361 | the field-by-field updates leave exactly the moved orientation |
| CameraModel.Camera.SetMode | src/js/model.js:389-408 | the new mode is set, the stored orientation is re-based, and the eye position the getter reports is unchanged |
| CameraModel.Camera.Orientation | src/js/model.js:363-383 | the `orientation` getter reads the stored orientation through `View`, whose contract states it |
| Input.AxesOf | src/js/InputHandler.js:38-51 | every component is -1, 0 or 1, the middle rotation and the elevation are 0; on each of the five axes the value is positive exactly when its plus key is held without its minus key and negative exactly in the opposite case: position x by "d"/"a", y by "e"/"q", z by "s"/"w", rotation x by "ArrowUp"/"ArrowDown", z by "ArrowLeft"/"ArrowRight" |
| Input.InitialAxesZero | src/js/InputHandler.js:10-23 | the initial dictionary covers all ten keys, and with nothing pressed the axes are zero |
| Input.OpposingKeysCancel | src/js/InputHandler.js:38-51 | holding both keys of an opposing pair, or neither, gives 0 on that axis |
| Input.UntrackedKeysIgnored | src/js/InputHandler.js:25-51 | a key outside the ten never changes the axes |
| Input.InputHandler.constructor | src/js/InputHandler.js:10-23 | the ten keys start released |
| Input.InputHandler.KeyDown | src/js/InputHandler.js:26-31 | the key is marked pressed, every other entry is kept, and coverage of the ten keys is preserved |
| Input.InputHandler.KeyUp | src/js/InputHandler.js:33-35 | the key is marked released, every other entry is kept, and coverage of the ten keys is preserved |
| Input.InputHandler.Axes | src/js/InputHandler.js:38-51 | the `axes` getter reads the pressed keys through `AxesOf`, whose contract states it |
| Input.PressThenRelease | src/js/InputHandler.js:25-36 | press then release leaves the dictionary, and so the axes, as a plain release would |
| Rendering.IndexOf | src/js/Renderer.js:21 | `indexOf` is -1 exactly when the item is absent, and otherwise the first position holding it |
| Rendering.SpliceOne | src/js/Renderer.js:21 | `splice(start, 1)` removes the element at an in-range start, and nothing at or past the end |
| Rendering.Removed | src/js/Renderer.js:20-22 | defines `removeRenderable`'s effect as `splice(indexOf(x), 1)`; `RemovedMeaning` proves what it removes |
| Rendering.RemovedMeaning | src/js/Renderer.js:20-22 | removing a listed item drops exactly its first occurrence; an unlisted item makes `indexOf` return -1, and the last element is dropped |
| Rendering.AddThenRemove | src/js/Renderer.js:16-22 | adding an unlisted item and removing it restores the list |
| Rendering.Requests | src/js/Renderer.js:12-29 | defines the number of frames a run of calls requests from a given flag; `RequestsBounded` and `RequestsWithoutChange` bound it |
| Rendering.RequestsBounded | src/js/Renderer.js:12-29 | no more frames are requested than changes were signified, plus one already queued |
| Rendering.RequestsWithoutChange | src/js/Renderer.js:24-29 | a run of render requests with no change between them requests at most one frame |
| Rendering.Renderer.constructor | src/js/Renderer.js:3-10 | no renderables, a render queued, no frame requested |
| Rendering.Renderer.SignifyChange | src/js/Renderer.js:12-14 | a render is queued |
| Rendering.Renderer.AddRenderable | src/js/Renderer.js:16-18 | the renderable is appended at the end |
| Rendering.Renderer.RemoveRenderable | src/js/Renderer.js:20-22 | the list becomes the list with the renderable removed |
| Rendering.Renderer.RequestRender | src/js/Renderer.js:24-29 | the flag ends cleared, and one frame is requested exactly when a render was queued |
| Matrix.Multiply | src/js/matrix.js:91-141 | the product is a 4x4 matrix |
| Matrix.MultiplyEntries | src/js/matrix.js:91-141 | entry (column c, row r) of the product is row r of the first matrix against column c of the second |
| Matrix.Identity | src/js/matrix.js:16-23 | ones on the diagonal, zeros elsewhere |
| Matrix.IdentityIsUnit | src/js/matrix.js:16-23 | the identity is a unit for `multiply` on both sides |
| Matrix.Translation | src/js/matrix.js:69-76 | the identity with the offsets at entries 12, 13 and 14 |
| Matrix.Translate | src/js/matrix.js:78-80 | the result is a 4x4 matrix |
| Matrix.TranslateMeaning | src/js/matrix.js:69-80 | translating the identity gives the translation, the first three columns are kept, and two translations add up |
| Matrix.XRotation | src/js/matrix.js:25-35 | the result is a 4x4 matrix |
| Matrix.YRotation | src/js/matrix.js:37-47 | the result is a 4x4 matrix |
| Matrix.ZRotation | src/js/matrix.js:49-59 | the result is a 4x4 matrix |
| Matrix.RotationsAtRest | src/js/matrix.js:25-59 | an angle with cosine 1 and sine 0 gives the identity, and each rotation keeps the column of its own axis |
| Matrix.YRotate | src/js/matrix.js:61-63 | the result is a 4x4 matrix |
| Matrix.ZRotate | src/js/matrix.js:65-67 | the result is a 4x4 matrix |
| Matrix.RotateMeaning | src/js/matrix.js:61-67 | rotating by an angle at rest leaves the matrix as it is; yRotate keeps column 1 and zRotate keeps column 2 |
| Matrix.Normalize | src/js/matrix.js:82-89 | three entries in, three out |
| Matrix.NormalizeMeaning | src/js/matrix.js:82-89 | a vector longer than 0.00001 becomes the unit vector pointing its way; any other becomes zero |

## Left out

- `Math.sqrt`, `Math.sin`, `Math.cos` and `parseFloat` are host functions. They are parameters, and the only property assumed is that the square root squares back to a non-negative input (`IsSqrt`).
- IEEE-754 doubles, NaN and Infinity: numbers are exact reals. `normalize`'s Infinity result is a separate constructor.
- ObjParse.FieldIndex: does not model parseFloat's leniency on the index fields of vertex tokens after the first, which faceSegmentRegex never checks: the model reads any field that is not `-?\d+` as NaN, so it resolves to `undefined`. parseFloat would read a prefix such as "2abc" as 2, or "1e1" as 10.
- Vectors.Vector3.NormalizeSelf: on a zero vector the source produces NaN in every coordinate, while the model keeps the zero vector.
- ObjParse.NormalizeAllUnit: because of the above, this states that a zero accumulator stays zero rather than becoming NaN.
- `Color`, `toString`, `copy` and `equal` of the value classes, and `console.error`: no core behaviour depends on them.
- Not modelled:
  - the DOM;
  - WebGL and the GL operator;
  - the coordinator and the main script;
  - `Renderer.__render` (its body is a stub);
  - `preventDefault` and the listener wiring of `prepareHandling`.

  `requestAnimationFrame` is a counter of requests.
- Matrix `perspective`: it needs the tangent, which the host does not supply here.
- The face-level caches (`Face.__pointsArray`, `Face.__normalsArray`). Only the Model-level caches are state. The face arrays are the functions `FanArray` and `FaceNormalsArray`.
- MeshModel.Model.SwapYZ: after a throw, `Valid` is not promised. The arenas are already exchanged, while size, center and the caches still describe the old state. The exchanges on the freshly computed `bounds` object (src/js/Model.js:47-48) have no effect and are not modelled.
- Camera modes other than FREE (0) and FOCUSED (1).
- Aliasing of the orientation object that the `orientation` getter returns in FREE mode: the model returns a value.
- Matrix members require exactly sixteen entries. The source does not check this, and on shorter arrays it computes with `undefined`.
- The synthesized vertex normals are not touched by `swapYZ`, in the source and in the model alike. Smooth faces therefore keep their pre-exchange normals.
