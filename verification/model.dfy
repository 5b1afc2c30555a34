/** Model of src/js/Model.js: a mesh over shared arenas of points and normals,
    its bounds and derived dimensions, the flattened triangle arrays handed to
    WebGL with their caches, swapYZ, and fromOBJ. */
module MeshModel {
  import opened Host
  import opened Vectors
  import opened Faces
  import opened ObjText
  import opened ObjParse

  /** Every face has a point behind each point reference. */
  predicate PointsDefined(faces: seq<Face>, pointCount: nat)
  {
    forall i :: 0 <= i < |faces| ==> AllDefined(faces[i].points, pointCount)
  }

  /** The arena a face's normal references index. */
  function ArenaFor(f: Face, normals: seq<Vector3>, vertexNormals: seq<Vector3>): seq<Vector3>
  {
    if f.normalArena == VertexNormals then vertexNormals else normals
  }

  /** The shape every Model has: at least one face, defined points, as many
      normal references as point references, each undefined or in range. */
  predicate Shaped(faces: seq<Face>, points: seq<Vector3>, normals: seq<Vector3>, vertexNormals: seq<Vector3>)
  {
    Constructible(faces, |points|) &&
    forall i :: 0 <= i < |faces| ==>
      |faces[i].normals| == |faces[i].points| &&
      InRange(faces[i].normals, |ArenaFor(faces[i], normals, vertexNormals)|)
  }

  /** The points of every face, face by face. */
  function PointLists(faces: seq<Face>, points: seq<Vector3>): (lists: seq<seq<Vector3>>)
    requires PointsDefined(faces, |points|)
    ensures |lists| == |faces|
    ensures forall i :: 0 <= i < |faces| ==> lists[i] == Deref(faces[i].points, points)
  {
    seq(|faces|, i requires 0 <= i < |faces| => Deref(faces[i].points, points))
  }

  /** The value of Model's `bounds` getter: the union of the face bounds. */
  function MeshBounds(faces: seq<Face>, points: seq<Vector3>): Bounds
    requires Constructible(faces, |points|)
  {
    UnionOfFaces(PointLists(faces, points))
  }

  /** The mesh bounds are ordered, hold every point of every face, and each of
      them is a coordinate of some point of some face. */
  lemma MeshBoundsTight(faces: seq<Face>, points: seq<Vector3>)
    requires Constructible(faces, |points|)
    ensures MeshBounds(faces, points).Ordered()
    ensures forall i, k :: 0 <= i < |faces| && 0 <= k < |faces[i].points| ==>
      MeshBounds(faces, points).Contains(points[faces[i].points[k].index])
    ensures Attained(MeshBounds(faces, points), Concat(PointLists(faces, points)))
  {
    var lists := PointLists(faces, points);
    UnionOfFacesTight(lists);
    BoundsOfTight(Concat(lists));
    forall i, k | 0 <= i < |faces| && 0 <= k < |faces[i].points|
      ensures MeshBounds(faces, points).Contains(points[faces[i].points[k].index])
    {
      ConcatHolds(lists, i, k);
    }
  }

  /** Element k of list i appears in the concatenation. */
  lemma {:induction false} ConcatHolds(lists: seq<seq<Vector3>>, i: nat, k: nat)
    requires i < |lists| && k < |lists[i]|
    ensures exists j :: 0 <= j < |Concat(lists)| && Concat(lists)[j] == lists[i][k]
  {
    var front := lists[..|lists| - 1];
    if i < |lists| - 1 {
      ConcatHolds(front, i, k);
      var j :| 0 <= j < |Concat(front)| && Concat(front)[j] == front[i][k];
      assert Concat(lists)[j] == lists[i][k];
    } else {
      assert Concat(lists)[|Concat(front)| + k] == lists[i][k];
    }
  }

  /** `Math.max(size.x, size.y, size.z)`. */
  function Max3(v: Vector3): real
  {
    Max(Max(v.x, v.y), v.z)
  }

  /** The number of fan triangles of a list of faces. */
  function TriangleCount(faces: seq<Face>): nat
  {
    if |faces| == 0 then 0
    else TriangleCount(faces[..|faces| - 1]) + (if |faces[|faces| - 1].points| < 3 then 0 else |faces[|faces| - 1].points| - 2)
  }

  /** Model.pointsArray: the faces' point arrays, one after the other in face order. */
  function PointsArrayOf(faces: seq<Face>, points: seq<Vector3>): seq<real>
    requires PointsDefined(faces, |points|)
  {
    if |faces| == 0 then []
    else PointsArrayOf(faces[..|faces| - 1], points) + FanArray(Deref(faces[|faces| - 1].points, points))
  }

  /** Nine numbers per fan triangle of every face. */
  lemma {:induction false} PointsArrayLength(faces: seq<Face>, points: seq<Vector3>)
    requires PointsDefined(faces, |points|)
    ensures |PointsArrayOf(faces, points)| == 9 * TriangleCount(faces)
  {
    if |faces| > 0 {
      PointsArrayLength(faces[..|faces| - 1], points);
      FanArrayShape(Deref(faces[|faces| - 1].points, points));
    }
  }

  /** The array of a prefix of the faces is a prefix of the array. */
  lemma {:induction false} PointsArrayPrefix(faces: seq<Face>, points: seq<Vector3>, j: nat)
    requires PointsDefined(faces, |points|)
    requires j <= |faces|
    ensures PointsArrayOf(faces[..j], points) <= PointsArrayOf(faces, points)
    decreases |faces| - j
  {
    if j < |faces| {
      var front := faces[..|faces| - 1];
      PointsArrayPrefix(front, points, j);
      assert front[..j] == faces[..j];
    } else {
      assert faces[..j] == faces;
    }
  }

  /** Face k's array sits right after the triangles of the faces before it. */
  lemma PointsArrayLayout(faces: seq<Face>, points: seq<Vector3>, k: nat)
    requires PointsDefined(faces, |points|)
    requires k < |faces|
    ensures 9 * TriangleCount(faces[..k]) <= 9 * TriangleCount(faces[..k + 1]) <= |PointsArrayOf(faces, points)|
    ensures PointsArrayOf(faces, points)[9 * TriangleCount(faces[..k]) .. 9 * TriangleCount(faces[..k + 1])] ==
      FanArray(Deref(faces[k].points, points))
  {
    var before := PointsArrayOf(faces[..k], points);
    var through := PointsArrayOf(faces[..k + 1], points);
    assert faces[..k + 1][..k] == faces[..k];
    assert through == before + FanArray(Deref(faces[k].points, points));
    PointsArrayPrefix(faces, points, k + 1);
    PointsArrayLength(faces[..k], points);
    PointsArrayLength(faces[..k + 1], points);
    assert PointsArrayOf(faces, points)[|before| .. |through|] == through[|before|..];
  }

  lemma {:induction false} TriangleCountMonotone(faces: seq<Face>, i: nat, j: nat)
    requires i <= j <= |faces|
    ensures TriangleCount(faces[..i]) <= TriangleCount(faces[..j])
    decreases j - i
  {
    if i < j {
      TriangleCountMonotone(faces, i, j - 1);
      assert faces[..j][..j - 1] == faces[..j - 1];
    }
  }

  /** Face.prepareNormalsArray reads every normal of a face of three or more
      corners, and no normal of a smaller face. */
  predicate NormalsReadable(f: Face, normals: seq<Vector3>, vertexNormals: seq<Vector3>)
  {
    |f.normals| < 3 || AllDefined(f.normals, |ArenaFor(f, normals, vertexNormals)|)
  }

  /** The index of the first face whose normals cannot be read, or the number of faces. */
  function FirstUnreadable(faces: seq<Face>, normals: seq<Vector3>, vertexNormals: seq<Vector3>): (k: nat)
    ensures k <= |faces|
    ensures forall i :: 0 <= i < k ==> NormalsReadable(faces[i], normals, vertexNormals)
    ensures k < |faces| ==> !NormalsReadable(faces[k], normals, vertexNormals)
  {
    if |faces| == 0 then 0
    else if !NormalsReadable(faces[0], normals, vertexNormals) then 0
    else 1 + FirstUnreadable(faces[1..], normals, vertexNormals)
  }

  /** Face.normalsArray of one face. */
  function FaceNormalsArray(f: Face, normals: seq<Vector3>, vertexNormals: seq<Vector3>): seq<real>
    requires NormalsReadable(f, normals, vertexNormals)
  {
    if |f.normals| < 3 then [] else FanArray(Deref(f.normals, ArenaFor(f, normals, vertexNormals)))
  }

  /** Model.normalsArray over faces whose normals can all be read. */
  function NormalsArrayOf(faces: seq<Face>, normals: seq<Vector3>, vertexNormals: seq<Vector3>): seq<real>
    requires forall i :: 0 <= i < |faces| ==> NormalsReadable(faces[i], normals, vertexNormals)
  {
    if |faces| == 0 then []
    else NormalsArrayOf(faces[..|faces| - 1], normals, vertexNormals) + FaceNormalsArray(faces[|faces| - 1], normals, vertexNormals)
  }

  /** What __prepareNormalsArray leaves in the cache: the arrays of the faces
      before the first one that throws. */
  function NormalsPrefix(faces: seq<Face>, normals: seq<Vector3>, vertexNormals: seq<Vector3>): seq<real>
  {
    NormalsArrayOf(faces[..FirstUnreadable(faces, normals, vertexNormals)], normals, vertexNormals)
  }

  /** Each readable face appends its own array to the normals array. */
  lemma NormalsArrayStep(faces: seq<Face>, normals: seq<Vector3>, vertexNormals: seq<Vector3>, i: nat)
    requires i < |faces|
    requires forall j :: 0 <= j <= i ==> NormalsReadable(faces[j], normals, vertexNormals)
    ensures NormalsArrayOf(faces[..i + 1], normals, vertexNormals) ==
      NormalsArrayOf(faces[..i], normals, vertexNormals) + FaceNormalsArray(faces[i], normals, vertexNormals)
  {
    assert faces[..i + 1][..i] == faces[..i];
  }

  /** When every normal can be read, the normals array has exactly the shape of
      the points array: nine numbers per fan triangle. */
  lemma {:induction false} NormalsArrayLayout(faces: seq<Face>, normals: seq<Vector3>, vertexNormals: seq<Vector3>)
    requires forall i :: 0 <= i < |faces| ==> NormalsReadable(faces[i], normals, vertexNormals)
    requires forall i :: 0 <= i < |faces| ==> |faces[i].normals| == |faces[i].points|
    ensures |NormalsArrayOf(faces, normals, vertexNormals)| == 9 * TriangleCount(faces)
  {
    if |faces| > 0 {
      NormalsArrayLayout(faces[..|faces| - 1], normals, vertexNormals);
      var f := faces[|faces| - 1];
      if |f.normals| >= 3 {
        FanArrayShape(Deref(f.normals, ArenaFor(f, normals, vertexNormals)));
      }
    }
  }

  /** Exchanging y and z on the arena exchanges them on every face's points. */
  lemma DerefSwap(refs: seq<Ref>, arena: seq<Vector3>)
    requires AllDefined(refs, |arena|)
    ensures Deref(refs, SwapAll(arena)) == SwapAll(Deref(refs, arena))
  {
  }

  lemma {:induction false} UnionOfFacesSwap(lists: seq<seq<Vector3>>)
    requires |lists| > 0
    requires forall i :: 0 <= i < |lists| ==> |lists[i]| > 0
    ensures UnionOfFaces(seq(|lists|, i requires 0 <= i < |lists| => SwapAll(lists[i]))) == UnionOfFaces(lists).SwapYZ()
  {
    var swapped := seq(|lists|, i requires 0 <= i < |lists| => SwapAll(lists[i]));
    BoundsOfSwapYZ(lists[|lists| - 1]);
    if |lists| > 1 {
      var front := lists[..|lists| - 1];
      UnionOfFacesSwap(front);
      assert swapped[..|lists| - 1] == seq(|front|, i requires 0 <= i < |front| => SwapAll(front[i]));
    }
  }

  /** Exchanging y and z on every point exchanges them on the mesh bounds. */
  lemma MeshBoundsSwap(faces: seq<Face>, points: seq<Vector3>)
    requires Constructible(faces, |points|)
    ensures Constructible(faces, |SwapAll(points)|)
    ensures MeshBounds(faces, SwapAll(points)) == MeshBounds(faces, points).SwapYZ()
  {
    var lists := PointLists(faces, points);
    forall i | 0 <= i < |faces| ensures Deref(faces[i].points, SwapAll(points)) == SwapAll(lists[i]) {
      DerefSwap(faces[i].points, points);
    }
    assert PointLists(faces, SwapAll(points)) == seq(|lists|, i requires 0 <= i < |lists| => SwapAll(lists[i]));
    UnionOfFacesSwap(lists);
  }

  /** Exchanging y and z twice restores every arena and every bounds. */
  lemma SwapTwice(vs: seq<Vector3>, b: Bounds)
    ensures SwapAll(SwapAll(vs)) == vs
    ensures b.SwapYZ().SwapYZ() == b
  {
  }

  /** The size, center and largest dimension of a mesh with the given bounds. */
  lemma DerivedSwap(b: Bounds)
    ensures b.SwapYZ().Size() == b.Size().SwapYZ()
    ensures b.SwapYZ().minBound.Add(b.SwapYZ().Size().TimesScalar(0.5)) ==
      b.minBound.Add(b.Size().TimesScalar(0.5)).SwapYZ()
    ensures Max3(b.Size().SwapYZ()) == Max3(b.Size())
  {
  }

  /** A Model's invariant over the values of its fields. */
  ghost predicate ValidState(faces: seq<Face>, points: seq<Vector3>, normals: seq<Vector3>, vertexNormals: seq<Vector3>,
                             size: Vector3, center: Vector3, biggestDimension: real,
                             pointsCache: Option<seq<real>>, normalsCache: Option<seq<real>>)
  {
    Shaped(faces, points, normals, vertexNormals) &&
    size == MeshBounds(faces, points).Size() &&
    center == MeshBounds(faces, points).minBound.Add(size.TimesScalar(0.5)) &&
    biggestDimension == Max3(size) &&
    (pointsCache.Some? ==> pointsCache.value == PointsArrayOf(faces, points)) &&
    (normalsCache.Some? ==> normalsCache.value == NormalsPrefix(faces, normals, vertexNormals))
  }

  /** swapYZ on the values of the fields: when every face's normals can still
      be read, exchanging y and z on the arenas, size and center, with both
      caches rebuilt, keeps the invariant. */
  lemma SwapValid(faces: seq<Face>, points: seq<Vector3>, normals: seq<Vector3>, vertexNormals: seq<Vector3>,
                  size: Vector3, center: Vector3, biggestDimension: real,
                  pointsCache: Option<seq<real>>, normalsCache: Option<seq<real>>,
                  points': seq<Vector3>, normals': seq<Vector3>, size': Vector3, center': Vector3,
                  pointsCache': Option<seq<real>>, normalsCache': Option<seq<real>>)
    requires ValidState(faces, points, normals, vertexNormals, size, center, biggestDimension, pointsCache, normalsCache)
    requires points' == SwapAll(points) && normals' == SwapAll(normals)
    requires size' == size.SwapYZ() && center' == center.SwapYZ()
    requires PointsDefined(faces, |points'|) && pointsCache' == Some(PointsArrayOf(faces, points'))
    requires normalsCache' == Some(NormalsPrefix(faces, normals', vertexNormals))
    ensures ValidState(faces, points', normals', vertexNormals, size', center', biggestDimension, pointsCache', normalsCache')
  {
    SwapKeepsShape(faces, points, normals, vertexNormals);
    DerivedSwap(MeshBounds(faces, points));
  }

  /** The exchanged arena has as many points, so every point reference stays defined. */
  lemma PointsDefinedSwap(faces: seq<Face>, points: seq<Vector3>)
    requires Constructible(faces, |points|)
    ensures PointsDefined(faces, |SwapAll(points)|)
  {
  }

  /** When every face can be read, the prefix the cache holds is the whole normals array. */
  lemma NormalsPrefixFull(faces: seq<Face>, normals: seq<Vector3>, vertexNormals: seq<Vector3>)
    requires FirstUnreadable(faces, normals, vertexNormals) == |faces|
    ensures NormalsPrefix(faces, normals, vertexNormals) == NormalsArrayOf(faces, normals, vertexNormals)
  {
    assert faces[..|faces|] == faces;
  }

  /** Face.normalsArray of one face, built by the fan loop. */
  method FaceNormalsArrayOf(f: Face, normals: seq<Vector3>, vertexNormals: seq<Vector3>) returns (faceArray: seq<real>)
    requires NormalsReadable(f, normals, vertexNormals)
    ensures faceArray == FaceNormalsArray(f, normals, vertexNormals)
  {
    faceArray := [];
    if |f.normals| >= 3 {
      faceArray := PrepareFanArray(Deref(f.normals, ArenaFor(f, normals, vertexNormals)));
    }
  }

  /** A list that gives the normal of each fan triangle in turn is FaceNormals. */
  lemma FaceNormalsListed(pts: seq<Vector3>, normals: seq<Vector3>)
    requires |normals| == if |pts| < 3 then 0 else |pts| - 2
    requires forall k :: 0 <= k < |normals| ==> normals[k] == NormalVector(pts[0], pts[k + 1], pts[k + 2])
    ensures normals == FaceNormals(pts)
  {
  }

  /** A list of point normals that repeats the first triangle's normal twice
      and then gives each triangle's normal is FaceNormals with its first
      entry doubled at the front. */
  lemma PointNormalsOfFace(pts: seq<Vector3>, normals: seq<Vector3>)
    requires |pts| >= 3 && |normals| == |pts|
    requires normals[0] == normals[1] == normals[2]
    requires forall j :: 2 <= j < |normals| ==> normals[j] == NormalVector(pts[0], pts[j - 1], pts[j])
    ensures normals == [FaceNormals(pts)[0], FaceNormals(pts)[0]] + FaceNormals(pts)
  {
    var f := FaceNormals(pts);
    forall j | 0 <= j < |normals|
      ensures normals[j] == ([f[0], f[0]] + f)[j]
    {
      if j >= 2 {
        assert f[j - 2] == NormalVector(pts[0], pts[j - 1], pts[j]);
      }
    }
  }

  /** One iteration of the `bounds` getter's loop: each of the six bounds is
      replaced by the viewed face's when that one lies further out. */
  method Widen(bounds: Bounds, viewedBounds: Bounds) returns (widened: Bounds)
    ensures widened == Union(bounds, viewedBounds)
  {
    widened := bounds;
    if viewedBounds.minBound.x < widened.minBound.x {
      widened := widened.(minBound := widened.minBound.(x := viewedBounds.minBound.x));
    }
    if viewedBounds.minBound.y < widened.minBound.y {
      widened := widened.(minBound := widened.minBound.(y := viewedBounds.minBound.y));
    }
    if viewedBounds.minBound.z < widened.minBound.z {
      widened := widened.(minBound := widened.minBound.(z := viewedBounds.minBound.z));
    }
    if viewedBounds.maxBound.x > widened.maxBound.x {
      widened := widened.(maxBound := widened.maxBound.(x := viewedBounds.maxBound.x));
    }
    if viewedBounds.maxBound.y > widened.maxBound.y {
      widened := widened.(maxBound := widened.maxBound.(y := viewedBounds.maxBound.y));
    }
    if viewedBounds.maxBound.z > widened.maxBound.z {
      widened := widened.(maxBound := widened.maxBound.(z := viewedBounds.maxBound.z));
    }
  }

  /** A mesh loaded from OBJ text, with the values the constructor derives
      from its bounds and the caches of its flattened arrays. */
  class Model {
    var faces: seq<Face>
    var points: seq<Vector3>
    /** The `vn` normals of the file, exchanged by swapYZ. */
    var normals: seq<Vector3>
    /** The synthesized smooth normals; the source keeps them only through the
        faces that share them, so swapYZ never reaches them. */
    var vertexNormals: seq<Vector3>
    var size: Vector3
    var center: Vector3
    var biggestDimension: real
    var pointsCache: Option<seq<real>>
    var normalsCache: Option<seq<real>>

    /** The derived values agree with the bounds, and a filled cache holds what
        its builder produces. */
    ghost predicate Valid()
      reads this
    {
      ValidState(faces, points, normals, vertexNormals, size, center, biggestDimension, pointsCache, normalsCache)
    }

    /** The constructor: keep the arrays, derive size, center and biggestDimension from `bounds`. */
    constructor (faces: seq<Face>, points: seq<Vector3>, normals: seq<Vector3>, vertexNormals: seq<Vector3>)
      requires Shaped(faces, points, normals, vertexNormals)
      ensures Valid()
      ensures this.faces == faces && this.points == points && this.normals == normals
      ensures this.vertexNormals == vertexNormals
      ensures pointsCache == None && normalsCache == None
    {
      this.faces := faces;
      this.points := points;
      this.normals := normals;
      this.vertexNormals := vertexNormals;
      pointsCache := None;
      normalsCache := None;
      new;
      var bounds := Bounds();
      size := bounds.Size();
      center := bounds.minBound.Add(size.TimesScalar(0.5));
      biggestDimension := Max(Max(size.x, size.y), size.z);
    }

    /** fromOBJ: one pass over the lines pushing onto the points, normals,
        accumulator and face arrays, then one normalizeSelf per accumulator,
        then the constructor. The first line that throws ends it. */
    static method FromObj(objText: string, parseFloat: string -> real, sqrt: real -> real) returns (r: Result<Model, Error>)
      ensures FromObjSpec(objText, parseFloat, sqrt).Err? ==> r == Err(FromObjSpec(objText, parseFloat, sqrt).error)
      ensures FromObjSpec(objText, parseFloat, sqrt).Ok? ==> r.Ok? && fresh(r.value) && r.value.Valid()
      ensures FromObjSpec(objText, parseFloat, sqrt).Ok? ==>
        var mesh := FromObjSpec(objText, parseFloat, sqrt).value;
        r.value.faces == mesh.faces && r.value.points == mesh.points &&
        r.value.normals == mesh.normals && r.value.vertexNormals == mesh.vertexNormals &&
        r.value.pointsCache == None && r.value.normalsCache == None
    {
      var lines := SegmentedLines(objText);
      var parsed := ReadLines(lines, parseFloat);
      if parsed.Err? {
        return Err(parsed.error);
      }
      var st := parsed.value;
      ArenasFollowLines(lines, parseFloat);
      var vertexNormals := NormalizeAccumulators(st.accum, sqrt);
      if !Constructible(st.faces, |st.points|) {
        return Err(TypeError);
      }
      ParsedShaped(st, sqrt);
      var m := new Model(st.faces, st.points, st.normals, vertexNormals);
      r := Ok(m);
    }

    /** The line loop of fromOBJ, over the segments of each line: push onto the
        points, normals, accumulator and face arrays; the first line that
        throws ends it. */
    static method ReadLines(lines: seq<seq<string>>, parseFloat: string -> real) returns (r: Result<ParseState, Error>)
      ensures r == ParseLines(lines, parseFloat)
    {
      var points: seq<Vector3> := [];
      var normals: seq<Vector3> := [];
      var vertexNormals: seq<Vector3> := [];
      var faces: seq<Face> := [];
      var i := 0;
      while i < |lines|
        invariant 0 <= i <= |lines|
        invariant |vertexNormals| == |points|
        invariant ParseLines(lines[..i], parseFloat) == Ok(ParseState(points, normals, vertexNormals, faces))
      {
        var seg := lines[i];
        assert lines[..i + 1][..i] == lines[..i];
        if Keyword(seg) == "v" {
          points := points + [LineVector(seg, parseFloat)];
          vertexNormals := vertexNormals + [Zero];
        } else if Keyword(seg) == "vn" {
          normals := normals + [LineVector(seg, parseFloat)];
        } else if Keyword(seg) == "f" {
          if !(|seg| > 1 && IsFaceSegment(seg[1])) {
            ErrorPersists(lines, parseFloat, i + 1, |lines|);
            assert lines[..|lines|] == lines;
            return Err(CorruptedFile);
          }
          if IsV(seg[1]) || IsVT(seg[1]) {
            var refs := ResolvePoints(seg[1..], |points|);
            if |refs| >= 3 {
              // __getNormalVector reads a coordinate of every corner
              if !AllDefined(refs, |points|) {
                ErrorPersists(lines, parseFloat, i + 1, |lines|);
                assert lines[..|lines|] == lines;
                return Err(TypeError);
              }
              var faceNormals := CreateFaceNormals(Deref(refs, points));
              vertexNormals := AccumulateFace(vertexNormals, Slots(refs), faceNormals);
            }
            faces := faces + [Face(refs, refs, VertexNormals)];
          } else {
            var pointRefs, normalRefs := ResolveExplicit(seg[1..], |points|, |normals|);
            faces := faces + [Face(pointRefs, normalRefs, ExplicitNormals)];
          }
        }
        i := i + 1;
      }
      assert lines[..i] == lines;
      r := Ok(ParseState(points, normals, vertexNormals, faces));
    }

    /** __createFaceNormals: the normal of each fan triangle (p0, p[i-1], p[i]). */
    static method CreateFaceNormals(pts: seq<Vector3>) returns (normals: seq<Vector3>)
      ensures |pts| < 3 ==> normals == []
      ensures |pts| >= 3 ==> |normals| == |pts| - 2
      ensures forall k :: 0 <= k < |normals| ==> normals[k] == NormalVector(pts[0], pts[k + 1], pts[k + 2])
      ensures normals == FaceNormals(pts)
    {
      normals := [];
      var i := 2;
      while i < |pts|
        invariant 2 <= i && (i == 2 || i <= |pts|)
        invariant |normals| == i - 2
        invariant forall k :: 0 <= k < |normals| ==> normals[k] == NormalVector(pts[0], pts[k + 1], pts[k + 2])
      {
        normals := normals + [NormalVector(pts[0], pts[i - 1], pts[i])];
        i := i + 1;
      }
      FaceNormalsListed(pts, normals);
    }

    /** __createNormalsFromPoints: one normal per point, where the first three
        points share the first triangle's normal and every later point takes
        the normal of the triangle it closes. */
    static method CreateNormalsFromPoints(pts: seq<Vector3>) returns (normals: seq<Vector3>)
      ensures |pts| < 3 ==> normals == []
      ensures |pts| >= 3 ==> |normals| == |pts|
      ensures |pts| >= 3 ==> normals[0] == normals[1] == normals[2]
      ensures forall j :: 2 <= j < |normals| ==> normals[j] == NormalVector(pts[0], pts[j - 1], pts[j])
      ensures |pts| >= 3 ==> normals == [FaceNormals(pts)[0], FaceNormals(pts)[0]] + FaceNormals(pts)
    {
      normals := [];
      var i := 2;
      while i < |pts|
        invariant 2 <= i && (i == 2 || i <= |pts|)
        invariant |normals| == (if i == 2 then 0 else i)
        invariant forall j :: 2 <= j < |normals| ==> normals[j] == NormalVector(pts[0], pts[j - 1], pts[j])
        invariant |normals| > 0 ==> normals[0] == normals[1] == normals[2]
      {
        var normal := NormalVector(pts[0], pts[i - 1], pts[i]);
        if |normals| == 0 {
          normals := normals + [normal, normal, normal];
        } else {
          normals := normals + [normal];
        }
        i := i + 1;
      }
      if |pts| >= 3 {
        PointNormalsOfFace(pts, normals);
      }
    }

    /** The `bounds` getter: the first face's bounds, widened on each axis by
        every later face's. */
    method Bounds() returns (bounds: Bounds)
      requires Constructible(faces, |points|)
      ensures bounds == MeshBounds(faces, points)
    {
      var lists := PointLists(faces, points);
      bounds := FaceBounds(Deref(faces[0].points, points));
      var i := 1;
      while i < |faces|
        invariant 1 <= i <= |faces|
        invariant bounds == UnionOfFaces(lists[..i])
      {
        var viewedBounds := FaceBounds(Deref(faces[i].points, points));
        bounds := Widen(bounds, viewedBounds);
        UnionOfFacesStep(lists, i);
        i := i + 1;
      }
      assert lists[..i] == lists;
    }

    /** __preparePointsArray: push every face's points array, in face order. */
    method PreparePointsArray()
      requires PointsDefined(faces, |points|)
      modifies this`pointsCache
      ensures pointsCache == Some(PointsArrayOf(faces, points))
    {
      pointsCache := Some([]);
      var i := 0;
      while i < |faces|
        invariant 0 <= i <= |faces|
        invariant pointsCache == Some(PointsArrayOf(faces[..i], points))
      {
        var faceArray := PrepareFanArray(Deref(faces[i].points, points));
        pointsCache := Some(pointsCache.value + faceArray);
        assert faces[..i + 1][..i] == faces[..i];
        i := i + 1;
      }
      assert faces[..i] == faces;
    }

    /** __prepareNormalsArray: push every face's normals array, in face order.
        A face of three or more corners with an undefined normal throws half way,
        leaving the arrays of the faces before it in the cache. */
    method PrepareNormalsArray() returns (ok: bool)
      modifies this`normalsCache
      ensures normalsCache == Some(NormalsPrefix(faces, normals, vertexNormals))
      ensures ok <==> FirstUnreadable(faces, normals, vertexNormals) == |faces|
    {
      var fs, ns, vns := faces, normals, vertexNormals;
      normalsCache := Some([]);
      var stop := FirstUnreadable(fs, ns, vns);
      var i := 0;
      while i < |fs|
        invariant 0 <= i <= stop
        invariant normalsCache == Some(NormalsArrayOf(fs[..i], ns, vns))
      {
        if !NormalsReadable(fs[i], ns, vns) {
          ok := false;
          return;
        }
        var faceArray := FaceNormalsArrayOf(fs[i], ns, vns);
        NormalsArrayStep(fs, ns, vns, i);
        normalsCache := Some(normalsCache.value + faceArray);
        i := i + 1;
      }
      ok := true;
    }

    /** The `pointsArray` getter: build the array once, then serve the cache. */
    method PointsArray() returns (arr: seq<real>)
      requires Valid()
      modifies this`pointsCache
      ensures Valid()
      ensures arr == PointsArrayOf(faces, points)
      ensures pointsCache == Some(arr)
    {
      if pointsCache.None? {
        PreparePointsArray();
      }
      arr := pointsCache.value;
    }

    /** The `normalsArray` getter. A filled cache is served as it is, even one
        an earlier call left half-built when it threw. */
    method NormalsArray() returns (r: Result<seq<real>, Error>)
      requires Valid()
      modifies this`normalsCache
      ensures Valid()
      ensures old(normalsCache).Some? ==> r == Ok(old(normalsCache).value) && normalsCache == old(normalsCache)
      ensures old(normalsCache).None? ==>
        normalsCache == Some(NormalsPrefix(faces, normals, vertexNormals)) &&
        r == if FirstUnreadable(faces, normals, vertexNormals) == |faces|
             then Ok(NormalsArrayOf(faces, normals, vertexNormals)) else Err(TypeError)
    {
      if normalsCache.None? {
        var ok := PrepareNormalsArray();
        if !ok {
          return Err(TypeError);
        }
        assert faces[..|faces|] == faces;
      }
      r := Ok(normalsCache.value);
    }

    /** swapYZ: exchange y and z on every point and every `vn` normal, rebuild
        the arrays, and exchange y and z on size and center. It throws, after
        the arenas are exchanged and before anything else, when a face's
        normals cannot be read. The source's exchanges on a freshly computed
        `bounds` (lines 47-48) change nothing and are not modelled. */
    method SwapYZ() returns (ok: bool)
      requires Valid()
      modifies this`points, this`normals, this`pointsCache, this`normalsCache, this`size, this`center
      ensures points == SwapAll(old(points)) && normals == SwapAll(old(normals))
      ensures ok <==> FirstUnreadable(faces, normals, vertexNormals) == |faces|
      ensures ok ==> Valid() && size == old(size).SwapYZ() && center == old(center).SwapYZ()
      ensures ok ==> pointsCache == Some(PointsArrayOf(faces, points)) &&
                     normalsCache == Some(NormalsArrayOf(faces, normals, vertexNormals))
      ensures !ok ==> size == old(size) && center == old(center) &&
                      pointsCache == old(pointsCache) && normalsCache == old(normalsCache)
    {
      ghost var oldPoints, oldNormals, oldSize, oldCenter := points, normals, size, center;
      ghost var oldPointsCache, oldNormalsCache := pointsCache, normalsCache;
      SwapArenas();
      ok := RefreshFaceArrays();
      if ok {
        PointsDefinedSwap(faces, oldPoints);
        RebuildAfterSwap();
        SwapValid(faces, oldPoints, oldNormals, vertexNormals, oldSize, oldCenter, biggestDimension, oldPointsCache, oldNormalsCache,
                  points, normals, size, center, pointsCache, normalsCache);
        NormalsPrefixFull(faces, normals, vertexNormals);
      }
    }

    /** The rest of swapYZ once every face has rebuilt its arrays: rebuild the
        Model's arrays and exchange y and z on size and center. */
    method RebuildAfterSwap()
      requires PointsDefined(faces, |points|)
      modifies this`pointsCache, this`normalsCache, this`size, this`center
      ensures pointsCache == Some(PointsArrayOf(faces, points))
      ensures normalsCache == Some(NormalsPrefix(faces, normals, vertexNormals))
      ensures size == old(size).SwapYZ() && center == old(center).SwapYZ()
    {
      PreparePointsArray();
      var _ := PrepareNormalsArray();
      size := size.SwapYZ();
      center := center.SwapYZ();
    }

    /** The first two loops of swapYZ: exchange y and z on every shared point
        and every `vn` normal. */
    method SwapArenas()
      modifies this`points, this`normals
      ensures points == SwapAll(old(points)) && normals == SwapAll(old(normals))
    {
      ghost var ps, ns := points, normals;
      var i := 0;
      while i < |points|
        invariant 0 <= i <= |points| == |ps|
        modifies this`points
        invariant forall k :: 0 <= k < i ==> points[k] == ps[k].SwapYZ()
        invariant forall k :: i <= k < |ps| ==> points[k] == ps[k]
      {
        points := points[i := points[i].SwapYZ()];
        i := i + 1;
      }
      i := 0;
      while i < |normals|
        invariant 0 <= i <= |normals| == |ns|
        modifies this`normals
        invariant forall k :: 0 <= k < i ==> normals[k] == ns[k].SwapYZ()
        invariant forall k :: i <= k < |ns| ==> normals[k] == ns[k]
      {
        normals := normals[i := normals[i].SwapYZ()];
        i := i + 1;
      }
    }

    /** The third loop of swapYZ: every face rebuilds its own arrays, and
        Face.prepareNormalsArray throws at the first face with an unreadable
        normal. The face-level caches themselves are not modelled. */
    method RefreshFaceArrays() returns (ok: bool)
      ensures ok <==> FirstUnreadable(faces, normals, vertexNormals) == |faces|
    {
      var i := 0;
      while i < |faces|
        invariant 0 <= i <= |faces|
        invariant forall k :: 0 <= k < i ==> NormalsReadable(faces[k], normals, vertexNormals)
      {
        if !NormalsReadable(faces[i], normals, vertexNormals) {
          return false;
        }
        i := i + 1;
      }
      ok := true;
    }
  }

  /** Exchanging y and z on the arenas keeps a mesh's shape and exchanges y and
      z on its bounds. */
  lemma SwapKeepsShape(faces: seq<Face>, points: seq<Vector3>, normals: seq<Vector3>, vertexNormals: seq<Vector3>)
    requires Shaped(faces, points, normals, vertexNormals)
    ensures Shaped(faces, SwapAll(points), SwapAll(normals), vertexNormals)
    ensures MeshBounds(faces, SwapAll(points)) == MeshBounds(faces, points).SwapYZ()
  {
    MeshBoundsSwap(faces, points);
    forall i | 0 <= i < |faces|
      ensures |ArenaFor(faces[i], SwapAll(normals), vertexNormals)| == |ArenaFor(faces[i], normals, vertexNormals)|
    {
    }
  }

  /** The vertex loop of a smooth face line: the first '/'-field of every
      token, resolved against the points declared so far. */
  method ResolvePoints(tokens: seq<string>, count: nat) returns (refs: seq<Ref>)
    ensures refs == PointRefs(tokens, count)
  {
    refs := [];
    var i := 0;
    while i < |tokens|
      invariant 0 <= i <= |tokens|
      invariant refs == PointRefs(tokens[..i], count)
    {
      var subsegments := SplitOn(tokens[i], '/');
      refs := refs + [Resolve(FieldIndex(subsegments, 0), count)];
      i := i + 1;
    }
    assert tokens[..i] == tokens;
  }

  /** The vertex loop of a face line with explicit normals: the first and the
      third '/'-field of every token, resolved against the points and the
      `vn` normals declared so far. */
  method ResolveExplicit(tokens: seq<string>, count: nat, normalCount: nat) returns (pointRefs: seq<Ref>, normalRefs: seq<Ref>)
    ensures pointRefs == PointRefs(tokens, count)
    ensures normalRefs == NormalRefs(tokens, normalCount)
  {
    pointRefs, normalRefs := [], [];
    var i := 0;
    while i < |tokens|
      invariant 0 <= i <= |tokens|
      invariant pointRefs == PointRefs(tokens[..i], count)
      invariant normalRefs == NormalRefs(tokens[..i], normalCount)
    {
      var subsegments := SplitOn(tokens[i], '/');
      pointRefs := pointRefs + [Resolve(FieldIndex(subsegments, 0), count)];
      normalRefs := normalRefs + [Resolve(FieldIndex(subsegments, 2), normalCount)];
      i := i + 1;
    }
    assert tokens[..i] == tokens;
  }

  /** The accumulation loop of a smooth face: triangle i-2's normal is added
      in place to the accumulators of corners 0, i-1 and i. */
  method AccumulateFace(acc: seq<Vector3>, idx: seq<nat>, faceNormals: seq<Vector3>) returns (r: seq<Vector3>)
    requires |idx| >= 2 && |faceNormals| == |idx| - 2
    requires forall i :: 0 <= i < |idx| ==> idx[i] < |acc|
    ensures r == Accumulate(acc, idx, faceNormals, |faceNormals|)
    ensures forall j :: 0 <= j < |acc| ==> r[j] == acc[j].Add(Contribution(j, idx, faceNormals, |faceNormals|))
  {
    r := acc;
    var i := 2;
    while i < |idx|
      invariant 2 <= i <= |idx|
      invariant r == Accumulate(acc, idx, faceNormals, i - 2)
    {
      r := r[idx[0] := r[idx[0]].Add(faceNormals[i - 2])];
      r := r[idx[i - 1] := r[idx[i - 1]].Add(faceNormals[i - 2])];
      r := r[idx[i] := r[idx[i]].Add(faceNormals[i - 2])];
      i := i + 1;
    }
    forall j | 0 <= j < |acc| ensures r[j] == acc[j].Add(Contribution(j, idx, faceNormals, |faceNormals|)) {
      AccumulateSums(acc, idx, faceNormals, |faceNormals|, j);
    }
  }

  /** `vertexNormals.forEach(vn => vn.normalizeSelf())`. */
  method NormalizeAccumulators(vs: seq<Vector3>, sqrt: real -> real) returns (ws: seq<Vector3>)
    ensures ws == NormalizeAll(vs, sqrt)
  {
    ws := vs;
    var i := 0;
    while i < |ws|
      invariant 0 <= i <= |ws| == |vs|
      invariant forall k :: 0 <= k < i ==> ws[k] == vs[k].NormalizeSelf(sqrt)
      invariant forall k :: i <= k < |vs| ==> ws[k] == vs[k]
    {
      ws := ws[i := ws[i].NormalizeSelf(sqrt)];
      i := i + 1;
    }
  }

  /** What fromOBJ hands the constructor has the shape every Model has. */
  lemma ParsedShaped(st: ParseState, sqrt: real -> real)
    requires WellFormed(st) && Constructible(st.faces, |st.points|)
    ensures Shaped(st.faces, st.points, st.normals, NormalizeAll(st.accum, sqrt))
  {
    forall i | 0 <= i < |st.faces|
      ensures |st.faces[i].normals| == |st.faces[i].points|
      ensures InRange(st.faces[i].normals, |ArenaFor(st.faces[i], st.normals, NormalizeAll(st.accum, sqrt))|)
    {
      assert st.faces[i] in st.faces;
    }
  }

  /** Which faces have readable normals does not change when the arenas'
      vectors are exchanged: only the arena sizes matter. */
  lemma {:induction false} FirstUnreadableSwap(faces: seq<Face>, normals: seq<Vector3>, vertexNormals: seq<Vector3>)
    ensures FirstUnreadable(faces, SwapAll(normals), vertexNormals) == FirstUnreadable(faces, normals, vertexNormals)
  {
    if |faces| > 0 {
      FirstUnreadableSwap(faces[1..], normals, vertexNormals);
    }
  }
}
