/** Face of src/js/model.js: the triangle-fan arrays and the bounds of a face,
    and the union of face bounds that Model's `bounds` getter computes. */
module Faces {
  import opened Host
  import opened Vectors

  /** A face's reference to a shared Vector3: a slot of an arena, or JavaScript's
      `undefined` when the file's index did not name a declared element. */
  datatype Ref = At(index: nat) | Undefined

  /** The arena a face's normal references point into: the `vn` normals of the
      file, or the per-vertex accumulators synthesized for smooth faces. */
  datatype Arena = ExplicitNormals | VertexNormals

  /** A Face holds its points and its normals by reference. */
  datatype Face = Face(points: seq<Ref>, normals: seq<Ref>, normalArena: Arena)

  /** Every reference names a slot of an arena of `size` elements. */
  predicate AllDefined(refs: seq<Ref>, size: nat)
  {
    forall i :: 0 <= i < |refs| ==> refs[i].At? && refs[i].index < size
  }

  /** The vectors the references share with the arena. */
  function Deref(refs: seq<Ref>, arena: seq<Vector3>): (vs: seq<Vector3>)
    requires AllDefined(refs, |arena|)
    ensures |vs| == |refs|
    ensures forall i :: 0 <= i < |refs| ==> vs[i] == arena[refs[i].index]
  {
    seq(|refs|, i requires 0 <= i < |refs| => arena[refs[i].index])
  }

  /** The nine numbers one triangle contributes to a flattened array. */
  function TriangleCoords(a: Vector3, b: Vector3, c: Vector3): seq<real>
  {
    [a.x, a.y, a.z, b.x, b.y, b.z, c.x, c.y, c.z]
  }

  /** The flattened triangle fan of a polygon: triangles (v0, v[i-1], v[i]) for
      i = 2 .. n-1, nine numbers each. */
  function FanArray(vs: seq<Vector3>): seq<real>
  {
    if |vs| < 3 then []
    else FanArray(vs[..|vs| - 1]) + TriangleCoords(vs[0], vs[|vs| - 2], vs[|vs| - 1])
  }

  /** Triangle k of a fan: corners 0, k+1 and k+2. */
  function FanTriangle(vs: seq<Vector3>, k: nat): seq<real>
    requires k + 2 < |vs|
  {
    TriangleCoords(vs[0], vs[k + 1], vs[k + 2])
  }

  /** A polygon of n >= 3 corners yields 9(n-2) numbers; fewer yield none. */
  lemma {:induction false} FanArrayLength(vs: seq<Vector3>)
    ensures |FanArray(vs)| == if |vs| < 3 then 0 else 9 * (|vs| - 2)
  {
    if |vs| >= 3 {
      FanArrayLength(vs[..|vs| - 1]);
    }
  }

  /** Triangle k sits at offset 9k. */
  lemma {:induction false} FanArrayTriangle(vs: seq<Vector3>, k: nat)
    requires k + 2 < |vs|
    ensures 9 * k + 9 <= |FanArray(vs)|
    ensures FanArray(vs)[9 * k .. 9 * k + 9] == FanTriangle(vs, k)
  {
    var front := vs[..|vs| - 1];
    var last := TriangleCoords(vs[0], vs[|vs| - 2], vs[|vs| - 1]);
    assert FanArray(vs) == FanArray(front) + last;
    FanArrayLength(front);
    if k + 2 < |front| {
      FanArrayTriangle(front, k);
      assert FanArray(vs)[9 * k .. 9 * k + 9] == FanArray(front)[9 * k .. 9 * k + 9];
      assert FanTriangle(front, k) == FanTriangle(vs, k);
    } else {
      assert 9 * k == |FanArray(front)|;
      assert FanArray(vs)[9 * k .. 9 * k + 9] == last;
    }
  }

  /** A polygon of n >= 3 corners yields 9(n-2) numbers, the nine of triangle k
      (corners 0, k+1 and k+2, each written x, y, z) at offset 9k. Fewer corners
      yield nothing. */
  lemma FanArrayShape(vs: seq<Vector3>)
    ensures |vs| < 3 ==> FanArray(vs) == []
    ensures |vs| >= 3 ==> |FanArray(vs)| == 9 * (|vs| - 2)
    ensures forall k: nat :: k + 2 < |vs| ==> FanArray(vs)[9 * k .. 9 * k + 9] == FanTriangle(vs, k)
  {
    FanArrayLength(vs);
    forall k: nat | k + 2 < |vs|
      ensures FanArray(vs)[9 * k .. 9 * k + 9] == FanTriangle(vs, k)
    {
      FanArrayTriangle(vs, k);
    }
  }

  /** Face.preparePointsArray and Face.prepareNormalsArray: the loop that pushes
      one triangle per corner from the third on. */
  method PrepareFanArray(vs: seq<Vector3>) returns (arr: seq<real>)
    ensures arr == FanArray(vs)
  {
    arr := [];
    var i := 2;
    while i < |vs|
      invariant 2 <= i
      invariant |vs| >= 2 ==> i <= |vs| && arr == FanArray(vs[..i])
      invariant |vs| < 2 ==> arr == []
    {
      assert vs[..i + 1][..i] == vs[..i];
      arr := arr + TriangleCoords(vs[0], vs[i - 1], vs[i]);
      i := i + 1;
    }
    if |vs| >= 2 {
      assert vs[..i] == vs;
    }
  }

  /** A bounds grown to take in one more point. */
  function Extend(b: Bounds, p: Vector3): Bounds
  {
    Bounds(Vector3(Min(b.minBound.x, p.x), Min(b.minBound.y, p.y), Min(b.minBound.z, p.z)),
           Vector3(Max(b.maxBound.x, p.x), Max(b.maxBound.y, p.y), Max(b.maxBound.z, p.z)))
  }

  /** The componentwise union of two bounds. */
  function Union(a: Bounds, b: Bounds): Bounds
  {
    Bounds(Vector3(Min(a.minBound.x, b.minBound.x), Min(a.minBound.y, b.minBound.y), Min(a.minBound.z, b.minBound.z)),
           Vector3(Max(a.maxBound.x, b.maxBound.x), Max(a.maxBound.y, b.maxBound.y), Max(a.maxBound.z, b.maxBound.z)))
  }

  /** The smallest axis-aligned box around a non-empty list of points. */
  function BoundsOf(pts: seq<Vector3>): Bounds
    requires |pts| > 0
  {
    if |pts| == 1 then Bounds(pts[0], pts[0]) else Extend(BoundsOf(pts[..|pts| - 1]), pts[|pts| - 1])
  }

  /** Each of the six bounds is a coordinate of some point. */
  predicate Attained(b: Bounds, pts: seq<Vector3>)
  {
    (exists i :: 0 <= i < |pts| && pts[i].x == b.minBound.x) &&
    (exists i :: 0 <= i < |pts| && pts[i].y == b.minBound.y) &&
    (exists i :: 0 <= i < |pts| && pts[i].z == b.minBound.z) &&
    (exists i :: 0 <= i < |pts| && pts[i].x == b.maxBound.x) &&
    (exists i :: 0 <= i < |pts| && pts[i].y == b.maxBound.y) &&
    (exists i :: 0 <= i < |pts| && pts[i].z == b.maxBound.z)
  }

  /** BoundsOf is ordered, holds every point, and every bound is attained. */
  lemma {:induction false} BoundsOfTight(pts: seq<Vector3>)
    requires |pts| > 0
    ensures BoundsOf(pts).Ordered()
    ensures forall i :: 0 <= i < |pts| ==> BoundsOf(pts).Contains(pts[i])
    ensures Attained(BoundsOf(pts), pts)
  {
    if |pts| > 1 {
      var front := pts[..|pts| - 1];
      var p := pts[|pts| - 1];
      BoundsOfTight(front);
      var b := BoundsOf(front);
      forall i | 0 <= i < |pts| ensures BoundsOf(pts).Contains(pts[i]) {
        if i < |pts| - 1 { assert pts[i] == front[i]; }
      }
      AttainedExtend(b, front, p);
      assert pts == front + [p];
    }
  }

  lemma AttainedExtend(b: Bounds, front: seq<Vector3>, p: Vector3)
    requires Attained(b, front)
    ensures Attained(Extend(b, p), front + [p])
  {
    var pts := front + [p];
    var e := Extend(b, p);
    assert pts[|front|] == p;
    forall i | 0 <= i < |front| ensures pts[i] == front[i] {}
    if e.minBound.x == p.x { assert pts[|front|].x == e.minBound.x; }
    else { var i :| 0 <= i < |front| && front[i].x == b.minBound.x; assert pts[i].x == e.minBound.x; }
    if e.minBound.y == p.y { assert pts[|front|].y == e.minBound.y; }
    else { var i :| 0 <= i < |front| && front[i].y == b.minBound.y; assert pts[i].y == e.minBound.y; }
    if e.minBound.z == p.z { assert pts[|front|].z == e.minBound.z; }
    else { var i :| 0 <= i < |front| && front[i].z == b.minBound.z; assert pts[i].z == e.minBound.z; }
    if e.maxBound.x == p.x { assert pts[|front|].x == e.maxBound.x; }
    else { var i :| 0 <= i < |front| && front[i].x == b.maxBound.x; assert pts[i].x == e.maxBound.x; }
    if e.maxBound.y == p.y { assert pts[|front|].y == e.maxBound.y; }
    else { var i :| 0 <= i < |front| && front[i].y == b.maxBound.y; assert pts[i].y == e.maxBound.y; }
    if e.maxBound.z == p.z { assert pts[|front|].z == e.maxBound.z; }
    else { var i :| 0 <= i < |front| && front[i].z == b.maxBound.z; assert pts[i].z == e.maxBound.z; }
  }

  /** Face.bounds: starting from copies of the first point, each later point
      lowers the minimum or else raises the maximum on each axis. The `else`
      loses nothing, so the result is the smallest box around the points. */
  method FaceBounds(pts: seq<Vector3>) returns (b: Bounds)
    requires |pts| > 0
    ensures b == BoundsOf(pts)
  {
    var minBound := pts[0];
    var maxBound := pts[0];
    var i := 1;
    while i < |pts|
      invariant 1 <= i <= |pts|
      invariant Bounds(minBound, maxBound) == BoundsOf(pts[..i])
      invariant Bounds(minBound, maxBound).Ordered()
    {
      var p := pts[i];
      if p.x < minBound.x {
        minBound := minBound.(x := p.x);
      } else if p.x > maxBound.x {
        maxBound := maxBound.(x := p.x);
      }
      if p.y < minBound.y {
        minBound := minBound.(y := p.y);
      } else if p.y > maxBound.y {
        maxBound := maxBound.(y := p.y);
      }
      if p.z < minBound.z {
        minBound := minBound.(z := p.z);
      } else if p.z > maxBound.z {
        maxBound := maxBound.(z := p.z);
      }
      assert pts[..i + 1][..i] == pts[..i];
      i := i + 1;
    }
    assert pts[..i] == pts;
    b := Bounds(minBound, maxBound);
  }

  /** The bounds of two lists of points together is the union of their bounds. */
  lemma {:induction false} BoundsOfConcat(a: seq<Vector3>, c: seq<Vector3>)
    requires |a| > 0 && |c| > 0
    ensures BoundsOf(a + c) == Union(BoundsOf(a), BoundsOf(c))
  {
    if |c| == 1 {
      assert (a + c)[..|a + c| - 1] == a;
    } else {
      var front := c[..|c| - 1];
      BoundsOfConcat(a, front);
      assert (a + c)[..|a + c| - 1] == a + front;
    }
  }

  /** Exchanging y and z on every point exchanges them on the bounds. */
  lemma {:induction false} BoundsOfSwapYZ(pts: seq<Vector3>)
    requires |pts| > 0
    ensures BoundsOf(SwapAll(pts)) == BoundsOf(pts).SwapYZ()
  {
    if |pts| > 1 {
      BoundsOfSwapYZ(pts[..|pts| - 1]);
      assert SwapAll(pts)[..|pts| - 1] == SwapAll(pts[..|pts| - 1]);
    }
  }

  /** Every vector with y and z exchanged. */
  function SwapAll(vs: seq<Vector3>): (ws: seq<Vector3>)
    ensures |ws| == |vs|
    ensures forall i :: 0 <= i < |vs| ==> ws[i] == vs[i].SwapYZ()
  {
    seq(|vs|, i requires 0 <= i < |vs| => vs[i].SwapYZ())
  }

  /** Model's `bounds` getter over the point lists of the faces: the union of the face bounds. */
  function UnionOfFaces(faces: seq<seq<Vector3>>): Bounds
    requires |faces| > 0
    requires forall i :: 0 <= i < |faces| ==> |faces[i]| > 0
  {
    if |faces| == 1 then BoundsOf(faces[0])
    else Union(UnionOfFaces(faces[..|faces| - 1]), BoundsOf(faces[|faces| - 1]))
  }

  /** Taking in one more face widens the union by that face's bounds. */
  lemma UnionOfFacesStep(faces: seq<seq<Vector3>>, i: nat)
    requires 1 <= i < |faces|
    requires forall k :: 0 <= k < |faces| ==> |faces[k]| > 0
    ensures UnionOfFaces(faces[..i + 1]) == Union(UnionOfFaces(faces[..i]), BoundsOf(faces[i]))
  {
    assert faces[..i + 1][..i] == faces[..i];
  }

  /** All the points of all the faces, in order. */
  function Concat(faces: seq<seq<Vector3>>): seq<Vector3>
  {
    if |faces| == 0 then [] else Concat(faces[..|faces| - 1]) + faces[|faces| - 1]
  }

  /** The union of the face bounds is the bounds of all their points together,
      so it is ordered, holds every point of every face and is attained. */
  lemma {:induction false} UnionOfFacesTight(faces: seq<seq<Vector3>>)
    requires |faces| > 0
    requires forall i :: 0 <= i < |faces| ==> |faces[i]| > 0
    ensures |Concat(faces)| > 0
    ensures UnionOfFaces(faces) == BoundsOf(Concat(faces))
  {
    if |faces| == 1 {
      assert Concat(faces) == Concat(faces[..0]) + faces[0];
      assert faces[..0] == [];
      assert Concat(faces) == faces[0];
    } else {
      var front := faces[..|faces| - 1];
      UnionOfFacesTight(front);
      BoundsOfConcat(Concat(front), faces[|faces| - 1]);
    }
  }
}
