/** The value types of src/js/model.js: Vector3, Bounds, Orientation and InputAxes.
    JavaScript numbers are modelled as reals; IEEE rounding, Infinity and NaN are not. */
module Vectors {
  import opened Host

  /** A Vector3 as a value. The in-place variants of the source (addToSelf,
      subFromSelf, timesScalarSelf, negativeSelf, normalizeSelf) become updates
      of the arena slot that holds the vector; see MeshModel. */
  datatype Vector3 = Vector3(x: real, y: real, z: real)
  {
    /** The square of `length`, without the host's square root. */
    function LengthSquared(): real { Square(x) + Square(y) + Square(z) }

    /** The `length` getter: Math.sqrt of the squared length. */
    function Length(sqrt: real -> real): real { sqrt(LengthSquared()) }

    function Add(other: Vector3): Vector3
    {
      Vector3(x + other.x, y + other.y, z + other.z)
    }

    function Sub(other: Vector3): Vector3
    {
      Vector3(x - other.x, y - other.y, z - other.z)
    }

    function Cross(other: Vector3): Vector3
    {
      Vector3(y * other.z - z * other.y, z * other.x - x * other.z, x * other.y - y * other.x)
    }

    function TimesScalar(scalar: real): Vector3
    {
      Vector3(x * scalar, y * scalar, z * scalar)
    }

    function Negative(): Vector3 { Vector3(-x, -y, -z) }

    predicate IsZero() { x == 0.0 && y == 0.0 && z == 0.0 }

    /** The exchange of y and z that Model.swapYZ applies to each shared vector. */
    function SwapYZ(): Vector3 { Vector3(x, z, y) }

    /** `normalize`: the vector scaled by 1/length when the length is positive,
        the all-Infinity vector otherwise. */
    function Normalize(sqrt: real -> real): Normalized
    {
      var l := Length(sqrt);
      if l > 0.0 then Finite(TimesScalar(1.0 / l)) else AllInfinity
    }

    /** `normalizeSelf` has no zero guard: on a zero vector JavaScript computes
        0 * (1/0), a NaN triple. The model keeps the zero vector in that case,
        as the sentinel for "no direction". */
    function NormalizeSelf(sqrt: real -> real): Vector3
    {
      var l := Length(sqrt);
      if l > 0.0 then TimesScalar(1.0 / l) else this
    }
  }

  /** Result of `normalize`: a finite vector, or the (Infinity, Infinity, Infinity) sentinel. */
  datatype Normalized = Finite(v: Vector3) | AllInfinity

  const Zero: Vector3 := Vector3(0.0, 0.0, 0.0)

  function Dot(a: Vector3, b: Vector3): real { a.x * b.x + a.y * b.y + a.z * b.z }

  lemma SquareIsNonNegative(a: real)
    ensures Square(a) >= 0.0
    ensures a != 0.0 ==> Square(a) > 0.0
    ensures a == 0.0 ==> Square(a) == 0.0
  {
    if a < 0.0 {
      var b := -a;
      assert Square(a) == b * Same(b);
    }
  }

  /** The squared length is never negative, and it is zero exactly on the zero vector. */
  lemma SquaresNonNegative(v: Vector3)
    ensures v.LengthSquared() >= 0.0
    ensures v.LengthSquared() == 0.0 <==> v.IsZero()
  {
    SquareIsNonNegative(v.x);
    SquareIsNonNegative(v.y);
    SquareIsNonNegative(v.z);
  }

  lemma ScaledLengthSquared(v: Vector3, s: real)
    ensures v.TimesScalar(s).LengthSquared() == Square(s) * v.LengthSquared()
  {
  }

  lemma ReciprocalSquare(l: real)
    requires l > 0.0
    ensures Square(1.0 / l) * Square(l) == 1.0
  {
    var s := 1.0 / l;
    assert s * l == 1.0;
    assert Square(s) * Square(l) == (s * l) * (s * l);
  }

  /** A non-negative root of a non-negative number is positive exactly when the number is. */
  lemma RootIsPositive(l: real, sq: real)
    requires 0.0 <= l && Square(l) == sq
    ensures l > 0.0 <==> sq > 0.0
  {
    SquareIsNonNegative(l);
  }

  /** The host square root is positive exactly on vectors of positive length. */
  lemma LengthPositive(v: Vector3, sqrt: real -> real)
    requires IsSqrt(sqrt)
    ensures v.Length(sqrt) > 0.0 <==> !v.IsZero()
  {
    SquaresNonNegative(v);
    var sq := v.LengthSquared();
    var l := sqrt(sq);
    assert 0.0 <= l && Square(l) == sq;
    RootIsPositive(l, sq);
  }

  /** Scaling by the reciprocal of a positive root of the squared length gives
      squared length one. */
  lemma ReciprocalScaling(v: Vector3, l: real)
    requires l > 0.0 && Square(l) == v.LengthSquared()
    ensures v.TimesScalar(1.0 / l).LengthSquared() == 1.0
  {
    ScaledLengthSquared(v, 1.0 / l);
    ReciprocalSquare(l);
  }

  /** `normalize` yields a finite vector exactly when the input is not zero. */
  lemma NormalizeIsFinite(v: Vector3, sqrt: real -> real)
    requires IsSqrt(sqrt)
    ensures v.Normalize(sqrt).Finite? <==> !v.IsZero()
  {
    LengthPositive(v, sqrt);
  }

  /** A finite result of `normalize` has unit length. */
  lemma NormalizeIsUnit(v: Vector3, sqrt: real -> real)
    requires IsSqrt(sqrt)
    ensures v.Normalize(sqrt).Finite? ==> v.Normalize(sqrt).v.LengthSquared() == 1.0
  {
    if v.Normalize(sqrt).Finite? {
      LengthPositive(v, sqrt);
      SquaresNonNegative(v);
      ReciprocalScaling(v, v.Length(sqrt));
    }
  }

  /** A finite result of `normalize` is the input scaled by a positive factor. */
  lemma NormalizeKeepsDirection(v: Vector3, sqrt: real -> real)
    ensures v.Normalize(sqrt).Finite? ==> exists s: real :: s > 0.0 && v.Normalize(sqrt).v == v.TimesScalar(s)
  {
    if v.Normalize(sqrt).Finite? {
      var s := 1.0 / v.Length(sqrt);
      assert s > 0.0 && v.Normalize(sqrt).v == v.TimesScalar(s);
    }
  }

  /** `normalizeSelf` gives unit length on every non-zero vector and keeps the
      zero vector (the NaN sentinel) otherwise. */
  lemma NormalizeSelfIsUnit(v: Vector3, sqrt: real -> real)
    requires IsSqrt(sqrt)
    ensures !v.IsZero() ==> v.NormalizeSelf(sqrt).LengthSquared() == 1.0
    ensures v.IsZero() ==> v.NormalizeSelf(sqrt) == v
  {
    LengthPositive(v, sqrt);
    if !v.IsZero() {
      SquaresNonNegative(v);
      ReciprocalScaling(v, v.Length(sqrt));
    }
  }

  /** `cross` is perpendicular to both operands. */
  lemma CrossIsOrthogonal(a: Vector3, b: Vector3)
    ensures Dot(a.Cross(b), a) == 0.0 && Dot(a.Cross(b), b) == 0.0
  {
    assert Dot(a.Cross(b), a) == (a.y * b.z - a.z * b.y) * a.x + (a.z * b.x - a.x * b.z) * a.y + (a.x * b.y - a.y * b.x) * a.z;
  }

  /** `sub` undoes `add`, and adding the `negative` is subtracting. */
  lemma AddSubInverse(v: Vector3, w: Vector3)
    ensures v.Add(w).Sub(w) == v
    ensures v.Add(w).Add(w.Negative()) == v
    ensures v.Add(w.Negative()) == v.Sub(w)
  {
  }

  /** Exchanging y and z twice restores the vector. */
  lemma SwapYZInvolution(v: Vector3)
    ensures v.SwapYZ().SwapYZ() == v
    ensures v.SwapYZ().LengthSquared() == v.LengthSquared()
  {
  }

  /** Axis-aligned bounds; `size` is the extent on each axis. */
  datatype Bounds = Bounds(minBound: Vector3, maxBound: Vector3)
  {
    function Size(): Vector3 { maxBound.Sub(minBound) }

    predicate Ordered()
    {
      minBound.x <= maxBound.x && minBound.y <= maxBound.y && minBound.z <= maxBound.z
    }

    predicate Contains(p: Vector3)
    {
      minBound.x <= p.x <= maxBound.x &&
      minBound.y <= p.y <= maxBound.y &&
      minBound.z <= p.z <= maxBound.z
    }

    function SwapYZ(): Bounds { Bounds(minBound.SwapYZ(), maxBound.SwapYZ()) }
  }

  /** `size` is non-negative on every axis exactly when the bounds are ordered,
      and adding it to the minimum gives the maximum. */
  lemma SizeOfOrderedBounds(b: Bounds)
    ensures b.Ordered() <==> (b.Size().x >= 0.0 && b.Size().y >= 0.0 && b.Size().z >= 0.0)
    ensures b.minBound.Add(b.Size()) == b.maxBound
  {
  }

  /** A camera pose: position, Euler rotation (x pitch, y yaw) and elevation. */
  datatype Orientation = Orientation(position: Vector3, rotation: Vector3, elevation: real)
  {
    function Add(other: Orientation): Orientation
    {
      Orientation(position.Add(other.position), rotation.Add(other.rotation), elevation + other.elevation)
    }

    function TimesScalar(scalar: real): Orientation
    {
      Orientation(position.TimesScalar(scalar), rotation.TimesScalar(scalar), elevation * scalar)
    }

    predicate IsZero() { position.IsZero() && rotation.IsZero() && elevation == 0.0 }
  }

  /** `isZero` holds exactly of the orientation that `add` leaves every orientation
      unchanged with, and scaling by zero yields it. */
  lemma OrientationZero(o: Orientation, other: Orientation)
    ensures o.IsZero() <==> o == Orientation(Zero, Zero, 0.0)
    ensures o.IsZero() ==> other.Add(o) == other
    ensures other.TimesScalar(0.0).IsZero()
  {
  }

  /** Raw per-frame intent: a translation axis, two rotation axes and a zoom scalar. */
  datatype InputAxes = InputAxes(tAxis1: Vector3, dAxis1: Vector3, dAxis2: Vector3, sAxis1: real)
  {
    function Add(other: InputAxes): InputAxes
    {
      InputAxes(tAxis1.Add(other.tAxis1), dAxis1.Add(other.dAxis1), dAxis2.Add(other.dAxis2), sAxis1 + other.sAxis1)
    }

    function TimesScalar(scalar: real): InputAxes
    {
      InputAxes(tAxis1.TimesScalar(scalar), dAxis1.TimesScalar(scalar), dAxis2.TimesScalar(scalar), sAxis1 * scalar)
    }

    predicate IsZero() { tAxis1.IsZero() && dAxis1.IsZero() && dAxis2.IsZero() && sAxis1 == 0.0 }
  }

  /** The same three facts for InputAxes. */
  lemma InputAxesZero(a: InputAxes, other: InputAxes)
    ensures a.IsZero() <==> a == InputAxes(Zero, Zero, Zero, 0.0)
    ensures a.IsZero() ==> other.Add(a) == other
    ensures other.TimesScalar(0.0).IsZero()
  {
  }
}
