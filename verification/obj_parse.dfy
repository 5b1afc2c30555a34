/** What Model.fromOBJ (src/js/Model.js) computes, as functions of the text:
    the effect of one line on the arenas and faces, the fold over all lines,
    the synthesis of smooth vertex normals, and the checks that throw. */
module ObjParse {
  import opened Host
  import opened Vectors
  import opened Faces
  import opened ObjText

  /** The two exceptions fromOBJ lets escape: the string "Corrupted file", and a
      TypeError from reading a coordinate of `undefined`. */
  datatype Error = CorruptedFile | TypeError

  /** The arrays fromOBJ builds, without the `undefined` placeholder at index 0:
      the `v` points, the `vn` normals, one normal accumulator per point, and the faces. */
  datatype ParseState = ParseState(points: seq<Vector3>, normals: seq<Vector3>, accum: seq<Vector3>, faces: seq<Face>)

  const Empty: ParseState := ParseState([], [], [], [])

  /** `parseFloat(segments[k])`; a missing segment reads as the string "undefined". */
  function Coordinate(seg: seq<string>, k: nat, parseFloat: string -> real): real
  {
    parseFloat(if k < |seg| then seg[k] else "undefined")
  }

  /** The vector of a `v` or `vn` line: its next three segments. */
  function LineVector(seg: seq<string>, parseFloat: string -> real): Vector3
  {
    Vector3(Coordinate(seg, 1, parseFloat), Coordinate(seg, 2, parseFloat), Coordinate(seg, 3, parseFloat))
  }

  /** `parseFloat(subsegments[k])` of an index field: the integer when the field
      reads `-?\d+`, otherwise NaN (None). */
  function FieldIndex(fields: seq<string>, k: nat): Option<int>
  {
    if k < |fields| && IsInt(fields[k]) then Some(IntValue(fields[k])) else None
  }

  /** `arena[index > 0 ? index : arena.length + index]` on an arena of `count`
      elements behind the placeholder: JavaScript index k is slot k-1, and an
      index that names no slot gives `undefined`. */
  function Resolve(index: Option<int>, count: nat): Ref
  {
    match index
    case None => Undefined
    case Some(i) =>
      var k := if i > 0 then i else count + 1 + i;
      if 1 <= k <= count then At(k - 1) else Undefined
  }

  /** A positive index n is the n-th element, a negative index -n the n-th from
      the end, and nothing else resolves (0 and anything past either end included). */
  lemma ResolveMeaning(index: Option<int>, count: nat)
    ensures Resolve(index, count).At? ==> Resolve(index, count).index < count
    ensures Resolve(index, count).At? <==>
      index.Some? && (1 <= index.value <= count || -(count as int) <= index.value <= -1)
    ensures index.Some? && 1 <= index.value <= count ==> Resolve(index, count) == At(index.value - 1)
    ensures index.Some? && -(count as int) <= index.value <= -1 ==> Resolve(index, count) == At(count + index.value)
  {
  }

  /** The point references of a face line's vertex tokens: the first '/'-field of each. */
  function PointRefs(tokens: seq<string>, count: nat): (refs: seq<Ref>)
    ensures |refs| == |tokens|
  {
    seq(|tokens|, i requires 0 <= i < |tokens| => Resolve(FieldIndex(SplitOn(tokens[i], '/'), 0), count))
  }

  /** The explicit normal references of a face line: the third '/'-field of each token. */
  function NormalRefs(tokens: seq<string>, count: nat): (refs: seq<Ref>)
    ensures |refs| == |tokens|
  {
    seq(|tokens|, i requires 0 <= i < |tokens| => Resolve(FieldIndex(SplitOn(tokens[i], '/'), 2), count))
  }

  /** __getNormalVector, with the indices the source uses: the second entry of
      `first` subtracts triangle[1].y from itself, the third subtracts
      triangle[2].z, and the second of `second` subtracts triangle[1].y. */
  function NormalVector(t0: Vector3, t1: Vector3, t2: Vector3): Vector3
  {
    var first := [t1.x - t0.x, t1.y - t1.y, t1.z - t2.z];
    var second := [t2.x - t0.x, t2.y - t1.y, t2.z - t2.z];
    Vector3(first[1] * second[2] - first[2] * second[1],
            first[2] * second[0] - first[0] * second[2],
            first[0] * second[1] - first[1] * second[0])
  }

  /** As written, `first[1]` and `second[2]` are always zero, which leaves three products. */
  lemma NormalVectorReduced(t0: Vector3, t1: Vector3, t2: Vector3)
    ensures NormalVector(t0, t1, t2) ==
      Vector3(-((t1.z - t2.z) * (t2.y - t1.y)), (t1.z - t2.z) * (t2.x - t0.x), (t1.x - t0.x) * (t2.y - t1.y))
  {
  }

  /** It is not the cross product of the edges: the right triangle in the plane
      y = 0 with corners (0,0,0), (1,0,0), (0,0,1) gets the zero vector, while
      its edges' cross product is (0,-1,0). */
  lemma NormalVectorOfFlatTriangle()
    ensures NormalVector(Zero, Vector3(1.0, 0.0, 0.0), Vector3(0.0, 0.0, 1.0)) == Zero
    ensures Vector3(1.0, 0.0, 0.0).Cross(Vector3(0.0, 0.0, 1.0)) == Vector3(0.0, -1.0, 0.0)
  {
  }

  /** __createFaceNormals: the normal of each fan triangle (p0, p[k+1], p[k+2]). */
  function FaceNormals(pts: seq<Vector3>): seq<Vector3>
  {
    if |pts| < 3 then []
    else seq(|pts| - 2, k requires 0 <= k < |pts| - 2 => NormalVector(pts[0], pts[k + 1], pts[k + 2]))
  }

  /** The arena slots a list of defined references names. */
  function Slots(refs: seq<Ref>): (idx: seq<nat>)
    requires forall i :: 0 <= i < |refs| ==> refs[i].At?
    ensures |idx| == |refs|
    ensures forall i :: 0 <= i < |refs| ==> idx[i] == refs[i].index
  {
    seq(|refs|, i requires 0 <= i < |refs| => refs[i].index)
  }

  /** The accumulators after the first m fan triangles of a smooth face: triangle
      k's normal is added, in place and in this order, to the accumulators of
      idx[0], idx[k+1] and idx[k+2]. */
  function Accumulate(acc: seq<Vector3>, idx: seq<nat>, normals: seq<Vector3>, m: nat): (r: seq<Vector3>)
    requires |idx| >= 2 && |normals| == |idx| - 2 && m <= |normals|
    requires forall i :: 0 <= i < |idx| ==> idx[i] < |acc|
    ensures |r| == |acc|
  {
    if m == 0 then acc
    else
      var a := Accumulate(acc, idx, normals, m - 1);
      var n := normals[m - 1];
      var a1 := a[idx[0] := a[idx[0]].Add(n)];
      var a2 := a1[idx[m] := a1[idx[m]].Add(n)];
      a2[idx[m + 1] := a2[idx[m + 1]].Add(n)]
  }

  /** How many of triangle k's three corners are slot j. */
  function Multiplicity(j: nat, idx: seq<nat>, k: nat): nat
    requires k + 2 < |idx|
  {
    (if idx[0] == j then 1 else 0) + (if idx[k + 1] == j then 1 else 0) + (if idx[k + 2] == j then 1 else 0)
  }

  /** The sum over the first m triangles of each normal times the number of its
      corners at slot j: no averaging, no normalizing. */
  function Contribution(j: nat, idx: seq<nat>, normals: seq<Vector3>, m: nat): Vector3
    requires |normals| == |idx| - 2 && m <= |normals|
  {
    if m == 0 then Zero
    else Contribution(j, idx, normals, m - 1).Add(normals[m - 1].TimesScalar(Multiplicity(j, idx, m - 1) as real))
  }

  /** Adding n at three slots, one after the other, adds n at slot j as many
      times as the three slots name j. */
  lemma AddThree(a: seq<Vector3>, i0: nat, i1: nat, i2: nat, n: Vector3, j: nat)
    requires i0 < |a| && i1 < |a| && i2 < |a| && j < |a|
    ensures
      var a1 := a[i0 := a[i0].Add(n)];
      var a2 := a1[i1 := a1[i1].Add(n)];
      var a3 := a2[i2 := a2[i2].Add(n)];
      var mult := (if i0 == j then 1 else 0) + (if i1 == j then 1 else 0) + (if i2 == j then 1 else 0);
      a3[j] == a[j].Add(n.TimesScalar(mult as real))
  {
  }

  /** Every accumulator ends as its start plus its contribution; one that no
      corner names is untouched. */
  lemma {:induction false} AccumulateSums(acc: seq<Vector3>, idx: seq<nat>, normals: seq<Vector3>, m: nat, j: nat)
    requires |idx| >= 2 && |normals| == |idx| - 2 && m <= |normals|
    requires forall i :: 0 <= i < |idx| ==> idx[i] < |acc|
    requires j < |acc|
    ensures Accumulate(acc, idx, normals, m)[j] == acc[j].Add(Contribution(j, idx, normals, m))
    ensures (forall i :: 0 <= i < |idx| ==> idx[i] != j) ==> Accumulate(acc, idx, normals, m)[j] == acc[j]
  {
    if m > 0 {
      AccumulateSums(acc, idx, normals, m - 1, j);
      var a := Accumulate(acc, idx, normals, m - 1);
      AddThree(a, idx[0], idx[m], idx[m + 1], normals[m - 1], j);
    }
  }

  /** A smooth face line: a face whose first token reads `v` or `v/vt`. Its
      point references double as references into the accumulators; when it
      has three corners or more, a corner that resolves to nothing makes
      __getNormalVector read a coordinate of `undefined`. */
  function SmoothFace(st: ParseState, tokens: seq<string>): Result<ParseState, Error>
  {
    var refs := PointRefs(tokens, |st.points|);
    var face := Face(refs, refs, VertexNormals);
    if |refs| < 3 then Ok(st.(faces := st.faces + [face]))
    else if !AllDefined(refs, |st.points|) then Err(TypeError)
    else if |st.accum| != |st.points| then Ok(st.(faces := st.faces + [face]))
    else
      var normals := FaceNormals(Deref(refs, st.points));
      Ok(st.(accum := Accumulate(st.accum, Slots(refs), normals, |normals|), faces := st.faces + [face]))
  }

  /** A face line with explicit normals: every other accepted first token. */
  function ExplicitFace(st: ParseState, tokens: seq<string>): ParseState
  {
    st.(faces := st.faces + [Face(PointRefs(tokens, |st.points|), NormalRefs(tokens, |st.normals|), ExplicitNormals)])
  }

  /** `segments[0]`; JavaScript's `undefined` never equals a keyword, and neither does "". */
  function Keyword(seg: seq<string>): string
  {
    if |seg| > 0 then seg[0] else ""
  }

  /** An `f` line whose first vertex token is missing or fails faceSegmentRegex. */
  predicate IsCorruptFaceLine(seg: seq<string>)
  {
    Keyword(seg) == "f" && !(|seg| > 1 && IsFaceSegment(seg[1]))
  }

  /** One iteration of fromOBJ's line loop, on the segments of the line. */
  function Step(st: ParseState, seg: seq<string>, parseFloat: string -> real): Result<ParseState, Error>
  {
    if Keyword(seg) == "v" then
      Ok(st.(points := st.points + [LineVector(seg, parseFloat)], accum := st.accum + [Zero]))
    else if Keyword(seg) == "vn" then
      Ok(st.(normals := st.normals + [LineVector(seg, parseFloat)]))
    else if Keyword(seg) == "f" then
      if !(|seg| > 1 && IsFaceSegment(seg[1])) then Err(CorruptedFile)
      else if IsV(seg[1]) || IsVT(seg[1]) then SmoothFace(st, seg[1..])
      else Ok(ExplicitFace(st, seg[1..]))
    else Ok(st)
  }

  /** The loop over the lines, each given by its segments: the first error ends it. */
  function ParseLines(lines: seq<seq<string>>, parseFloat: string -> real): Result<ParseState, Error>
  {
    if |lines| == 0 then Ok(Empty)
    else match ParseLines(lines[..|lines| - 1], parseFloat)
      case Err(e) => Err(e)
      case Ok(st) => Step(st, lines[|lines| - 1], parseFloat)
  }

  /** The segments of every line of the text. */
  function SegmentedLines(text: string): (lines: seq<seq<string>>)
    ensures |lines| == |Lines(text)|
    ensures forall i :: 0 <= i < |lines| ==> lines[i] == Segments(Lines(text)[i])
  {
    seq(|Lines(text)|, i requires 0 <= i < |Lines(text)| => Segments(Lines(text)[i]))
  }

  /** Every line of a text segments into the single segment "" or into
      non-empty words, and no segment holds white space or a line terminator. */
  lemma TextSegments(text: string)
    ensures forall i :: 0 <= i < |SegmentedLines(text)| ==>
      SegmentedLines(text)[i] == [""] ||
      forall k :: 0 <= k < |SegmentedLines(text)[i]| ==> |SegmentedLines(text)[i][k]| > 0
    ensures forall i, k, j ::
      0 <= i < |SegmentedLines(text)| && 0 <= k < |SegmentedLines(text)[i]| && 0 <= j < |SegmentedLines(text)[i][k]|
      ==> !IsSpace(SegmentedLines(text)[i][k][j])
  {
    var lines := SegmentedLines(text);
    forall i | 0 <= i < |lines|
      ensures lines[i] == [""] || forall k :: 0 <= k < |lines[i]| ==> |lines[i][k]| > 0
      ensures forall k, j :: 0 <= k < |lines[i]| && 0 <= j < |lines[i][k]| ==> !IsSpace(lines[i][k][j])
    {
      LineSegments(Lines(text)[i]);
    }
  }

  /** A reference into an arena of `size` elements is undefined or in range. */
  predicate InRange(refs: seq<Ref>, size: nat)
  {
    forall i :: 0 <= i < |refs| ==> refs[i].At? ==> refs[i].index < size
  }

  /** What fromOBJ's arrays satisfy between lines: one accumulator per point,
      every reference undefined or in range, smooth faces sharing their point
      slots with the accumulators. */
  predicate WellFormed(st: ParseState)
  {
    |st.accum| == |st.points| &&
    forall f :: f in st.faces ==>
      |f.normals| == |f.points| && InRange(f.points, |st.points|) &&
      (f.normalArena == VertexNormals ==> f.normals == f.points) &&
      (f.normalArena == ExplicitNormals ==> InRange(f.normals, |st.normals|))
  }

  lemma ResolveInRange(tokens: seq<string>, count: nat, ncount: nat)
    ensures InRange(PointRefs(tokens, count), count)
    ensures InRange(NormalRefs(tokens, ncount), ncount)
  {
    forall i | 0 <= i < |tokens|
      ensures PointRefs(tokens, count)[i].At? ==> PointRefs(tokens, count)[i].index < count
      ensures NormalRefs(tokens, ncount)[i].At? ==> NormalRefs(tokens, ncount)[i].index < ncount
    {
      ResolveMeaning(FieldIndex(SplitOn(tokens[i], '/'), 0), count);
      ResolveMeaning(FieldIndex(SplitOn(tokens[i], '/'), 2), ncount);
    }
  }

  /** Every line keeps the arrays well formed. */
  lemma StepWellFormed(st: ParseState, seg: seq<string>, parseFloat: string -> real)
    requires WellFormed(st)
    ensures Step(st, seg, parseFloat).Ok? ==> WellFormed(Step(st, seg, parseFloat).value)
  {
    if Keyword(seg) == "v" {
      var st' := Step(st, seg, parseFloat).value;
      forall f | f in st'.faces
        ensures InRange(f.points, |st'.points|)
        ensures f.normalArena == VertexNormals ==> f.normals == f.points
      {
        assert f in st.faces;
      }
    } else if Keyword(seg) == "f" && |seg| > 1 {
      ResolveInRange(seg[1..], |st.points|, |st.normals|);
    }
  }

  /** The lines fail exactly when some line fails after all lines before it
      succeeded, with that line's error. */
  lemma FailFast(lines: seq<seq<string>>, parseFloat: string -> real, e: Error)
    ensures ParseLines(lines, parseFloat) == Err(e) <==>
      exists i :: 0 <= i < |lines| && FailsAt(lines, parseFloat, i, e)
  {
    if ParseLines(lines, parseFloat) == Err(e) {
      var i := FirstFailure(lines, parseFloat);
      assert FailsAt(lines, parseFloat, i, e);
    }
    forall i | 0 <= i < |lines| && FailsAt(lines, parseFloat, i, e)
      ensures ParseLines(lines, parseFloat) == Err(e)
    {
      FailureStops(lines, parseFloat, i, e);
    }
  }

  /** A line that is reached and fails decides the result. */
  lemma FailureStops(lines: seq<seq<string>>, parseFloat: string -> real, i: nat, e: Error)
    requires i < |lines| && FailsAt(lines, parseFloat, i, e)
    ensures ParseLines(lines, parseFloat) == Err(e)
  {
    assert lines[..i + 1][..i] == lines[..i];
    ErrorPersists(lines, parseFloat, i + 1, |lines|);
    assert lines[..|lines|] == lines;
  }

  /** Line i is reached and fails with e. */
  predicate FailsAt(lines: seq<seq<string>>, parseFloat: string -> real, i: nat, e: Error)
    requires i < |lines|
  {
    ParseLines(lines[..i], parseFloat).Ok? && Step(ParseLines(lines[..i], parseFloat).value, lines[i], parseFloat) == Err(e)
  }

  /** The line at which a failing parse failed. */
  lemma {:induction false} FirstFailure(lines: seq<seq<string>>, parseFloat: string -> real) returns (i: nat)
    requires ParseLines(lines, parseFloat).Err?
    ensures i < |lines| && ParseLines(lines[..i], parseFloat).Ok?
    ensures Step(ParseLines(lines[..i], parseFloat).value, lines[i], parseFloat) == ParseLines(lines, parseFloat)
  {
    var front := lines[..|lines| - 1];
    if ParseLines(front, parseFloat).Err? {
      i := FirstFailure(front, parseFloat);
      assert front[..i] == lines[..i];
    } else {
      i := |lines| - 1;
    }
  }

  /** Once a prefix fails, every longer prefix fails with the same error. */
  lemma {:induction false} ErrorPersists(lines: seq<seq<string>>, parseFloat: string -> real, i: nat, j: nat)
    requires 0 < i <= j <= |lines|
    requires ParseLines(lines[..i], parseFloat).Err?
    ensures ParseLines(lines[..j], parseFloat) == ParseLines(lines[..i], parseFloat)
    decreases j - i
  {
    if i < j {
      ErrorPersists(lines, parseFloat, i, j - 1);
      assert lines[..j][..j - 1] == lines[..j - 1];
    }
  }

  /** A line throws "Corrupted file" exactly when it is an `f` line whose first
      vertex token is missing or malformed, whatever came before; later tokens
      are never checked, so an accepted first token never causes it. */
  lemma StepCorrupted(st: ParseState, seg: seq<string>, parseFloat: string -> real)
    ensures Step(st, seg, parseFloat) == Err(CorruptedFile) <==> IsCorruptFaceLine(seg)
  {
  }

  /** A line throws a TypeError exactly when it is a smooth face of three or
      more corners one of which names no point declared so far. */
  lemma StepTypeError(st: ParseState, seg: seq<string>, parseFloat: string -> real)
    ensures Step(st, seg, parseFloat) == Err(TypeError) <==>
      (Keyword(seg) == "f" && |seg| > 1 && IsFaceSegment(seg[1]) && (IsV(seg[1]) || IsVT(seg[1])) &&
       |seg| - 1 >= 3 && !AllDefined(PointRefs(seg[1..], |st.points|), |st.points|))
  {
  }

  /** fromOBJ throws "Corrupted file" exactly when a corrupt face line comes
      before any other error. */
  lemma CorruptedExactly(lines: seq<seq<string>>, parseFloat: string -> real)
    ensures ParseLines(lines, parseFloat) == Err(CorruptedFile) <==>
      exists i :: 0 <= i < |lines| && ParseLines(lines[..i], parseFloat).Ok? && IsCorruptFaceLine(lines[i])
  {
    FailFast(lines, parseFloat, CorruptedFile);
    forall i | 0 <= i < |lines| && ParseLines(lines[..i], parseFloat).Ok?
      ensures FailsAt(lines, parseFloat, i, CorruptedFile) <==> IsCorruptFaceLine(lines[i])
    {
      StepCorrupted(ParseLines(lines[..i], parseFloat).value, lines[i], parseFloat);
    }
  }

  /** A face line with a valid first token is kept whatever its length: one or
      two corners are not rejected. */
  lemma ShortFacesKept(st: ParseState, seg: seq<string>, parseFloat: string -> real)
    requires Keyword(seg) == "f" && |seg| > 1 && IsFaceSegment(seg[1]) && |seg| <= 3
    ensures Step(st, seg, parseFloat).Ok?
    ensures |Step(st, seg, parseFloat).value.faces| == |st.faces| + 1
  {
  }

  /** The vectors of the lines whose first segment is `tag`, in file order. */
  function Tagged(lines: seq<seq<string>>, tag: string, parseFloat: string -> real): seq<Vector3>
  {
    if |lines| == 0 then []
    else
      var last := lines[|lines| - 1];
      Tagged(lines[..|lines| - 1], tag, parseFloat) +
        (if Keyword(last) == tag then [LineVector(last, parseFloat)] else [])
  }

  /** The number of `f` lines. */
  function FaceLineCount(lines: seq<seq<string>>): nat
  {
    if |lines| == 0 then 0
    else FaceLineCount(lines[..|lines| - 1]) + (if Keyword(lines[|lines| - 1]) == "f" then 1 else 0)
  }

  /** After the placeholder is dropped, `points` holds the `v` lines and
      `normals` the `vn` lines in file order, there is one accumulator per
      point, one face per `f` line, and the arrays are well formed. */
  lemma {:induction false} ArenasFollowLines(lines: seq<seq<string>>, parseFloat: string -> real)
    requires ParseLines(lines, parseFloat).Ok?
    ensures ParseLines(lines, parseFloat).value.points == Tagged(lines, "v", parseFloat)
    ensures ParseLines(lines, parseFloat).value.normals == Tagged(lines, "vn", parseFloat)
    ensures |ParseLines(lines, parseFloat).value.faces| == FaceLineCount(lines)
    ensures WellFormed(ParseLines(lines, parseFloat).value)
  {
    if |lines| > 0 {
      var front := lines[..|lines| - 1];
      ArenasFollowLines(front, parseFloat);
      StepWellFormed(ParseLines(front, parseFloat).value, lines[|lines| - 1], parseFloat);
    }
  }

  /** The result of fromOBJ before the Model constructor runs. */
  datatype Mesh = Mesh(faces: seq<Face>, points: seq<Vector3>, normals: seq<Vector3>, vertexNormals: seq<Vector3>)

  /** `vertexNormals.forEach(vn => vn.normalizeSelf())`. */
  function NormalizeAll(vs: seq<Vector3>, sqrt: real -> real): (ws: seq<Vector3>)
    ensures |ws| == |vs|
  {
    seq(|vs|, i requires 0 <= i < |vs| => vs[i].NormalizeSelf(sqrt))
  }

  /** Each accumulator is normalised once: unit length when it is not zero,
      the zero sentinel otherwise. */
  lemma NormalizeAllUnit(vs: seq<Vector3>, sqrt: real -> real)
    requires IsSqrt(sqrt)
    ensures forall i :: 0 <= i < |vs| && !vs[i].IsZero() ==> NormalizeAll(vs, sqrt)[i].LengthSquared() == 1.0
    ensures forall i :: 0 <= i < |vs| && vs[i].IsZero() ==> NormalizeAll(vs, sqrt)[i] == vs[i]
  {
    forall i | 0 <= i < |vs| {
      NormalizeSelfIsUnit(vs[i], sqrt);
    }
  }

  /** What the Model constructor needs to get past its `bounds` getter: a first
      face, and a first point and a point behind every point reference on each face. */
  predicate Constructible(faces: seq<Face>, pointCount: nat)
  {
    |faces| > 0 && forall i :: 0 <= i < |faces| ==> |faces[i].points| > 0 && AllDefined(faces[i].points, pointCount)
  }

  /** fromOBJ: parse every line, normalise the accumulators, construct. */
  function FromObjSpec(text: string, parseFloat: string -> real, sqrt: real -> real): Result<Mesh, Error>
  {
    match ParseLines(SegmentedLines(text), parseFloat)
    case Err(e) => Err(e)
    case Ok(st) =>
      if Constructible(st.faces, |st.points|) then
        Ok(Mesh(st.faces, st.points, st.normals, NormalizeAll(st.accum, sqrt)))
      else Err(TypeError)
  }
}
