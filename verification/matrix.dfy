/** Model of Matrix4 in src/js/matrix.js: 4x4 matrices as arrays of sixteen
    numbers in column-major order (entry c*4 + r is row r of column c), and
    3-vectors as arrays of three. */
module Matrix {
  import opened Host
  import opened Vectors

  /** An array of sixteen numbers. */
  predicate IsMatrix(m: seq<real>) { |m| == 16 }

  /** The entry in row r of column c. */
  function At(m: seq<real>, c: nat, r: nat): real
    requires IsMatrix(m) && c < 4 && r < 4
  {
    m[c * 4 + r]
  }

  /** The product of two numbers. Naming it keeps the solver from treating
      the sixteen sums of products as one polynomial problem. */
  function Mul(x: real, y: real): real { x * y }

  /** Entry (column c, row r) of the product `multiply(a, b)`: column c of b
      combines the columns of a. */
  function ProductEntry(a: seq<real>, b: seq<real>, c: nat, r: nat): real
    requires IsMatrix(a) && IsMatrix(b) && c < 4 && r < 4
  {
    Mul(b[c * 4 + 0], a[0 * 4 + r]) + Mul(b[c * 4 + 1], a[1 * 4 + r]) + Mul(b[c * 4 + 2], a[2 * 4 + r]) + Mul(b[c * 4 + 3], a[3 * 4 + r])
  }

  /** `multiply(a, b)`, entry by entry as the source spells it out. */
  function Multiply(a: seq<real>, b: seq<real>): (m: seq<real>)
    requires IsMatrix(a) && IsMatrix(b)
    ensures IsMatrix(m)
  {
    var a00, a01, a02, a03 := a[0], a[1], a[2], a[3];
    var a10, a11, a12, a13 := a[4], a[5], a[6], a[7];
    var a20, a21, a22, a23 := a[8], a[9], a[10], a[11];
    var a30, a31, a32, a33 := a[12], a[13], a[14], a[15];
    var b00, b01, b02, b03 := b[0], b[1], b[2], b[3];
    var b10, b11, b12, b13 := b[4], b[5], b[6], b[7];
    var b20, b21, b22, b23 := b[8], b[9], b[10], b[11];
    var b30, b31, b32, b33 := b[12], b[13], b[14], b[15];
    [
      Mul(b00, a00) + Mul(b01, a10) + Mul(b02, a20) + Mul(b03, a30),
      Mul(b00, a01) + Mul(b01, a11) + Mul(b02, a21) + Mul(b03, a31),
      Mul(b00, a02) + Mul(b01, a12) + Mul(b02, a22) + Mul(b03, a32),
      Mul(b00, a03) + Mul(b01, a13) + Mul(b02, a23) + Mul(b03, a33),
      Mul(b10, a00) + Mul(b11, a10) + Mul(b12, a20) + Mul(b13, a30),
      Mul(b10, a01) + Mul(b11, a11) + Mul(b12, a21) + Mul(b13, a31),
      Mul(b10, a02) + Mul(b11, a12) + Mul(b12, a22) + Mul(b13, a32),
      Mul(b10, a03) + Mul(b11, a13) + Mul(b12, a23) + Mul(b13, a33),
      Mul(b20, a00) + Mul(b21, a10) + Mul(b22, a20) + Mul(b23, a30),
      Mul(b20, a01) + Mul(b21, a11) + Mul(b22, a21) + Mul(b23, a31),
      Mul(b20, a02) + Mul(b21, a12) + Mul(b22, a22) + Mul(b23, a32),
      Mul(b20, a03) + Mul(b21, a13) + Mul(b22, a23) + Mul(b23, a33),
      Mul(b30, a00) + Mul(b31, a10) + Mul(b32, a20) + Mul(b33, a30),
      Mul(b30, a01) + Mul(b31, a11) + Mul(b32, a21) + Mul(b33, a31),
      Mul(b30, a02) + Mul(b31, a12) + Mul(b32, a22) + Mul(b33, a32),
      Mul(b30, a03) + Mul(b31, a13) + Mul(b32, a23) + Mul(b33, a33)
    ]
  }

  /** Entry (c, r) of `multiply(a, b)` is row r of a against column c of b. */
  lemma MultiplyEntries(a: seq<real>, b: seq<real>)
    requires IsMatrix(a) && IsMatrix(b)
    ensures forall c: nat, r: nat :: c < 4 && r < 4 ==> At(Multiply(a, b), c, r) == ProductEntry(a, b, c, r)
  {
    forall c: nat, r: nat | c < 4 && r < 4 ensures At(Multiply(a, b), c, r) == ProductEntry(a, b, c, r) {
      assert c == 0 || c == 1 || c == 2 || c == 3;
    }
  }

  /** `identity()`: ones on the diagonal, zeros elsewhere. */
  function Identity(): (m: seq<real>)
    ensures IsMatrix(m)
    ensures forall c: nat, r: nat :: c < 4 && r < 4 ==> At(m, c, r) == if c == r then 1.0 else 0.0
  {
    [1.0, 0.0, 0.0, 0.0,
     0.0, 1.0, 0.0, 0.0,
     0.0, 0.0, 1.0, 0.0,
     0.0, 0.0, 0.0, 1.0]
  }

  /** Every index of a matrix is c*4 + r for one column and one row. */
  lemma Entries(m: seq<real>, n: seq<real>)
    requires IsMatrix(m) && IsMatrix(n)
    requires forall c: nat, r: nat :: c < 4 && r < 4 ==> At(m, c, r) == At(n, c, r)
    ensures m == n
  {
    forall i | 0 <= i < 16 ensures m[i] == n[i] {
      assert At(m, i / 4, i % 4) == At(n, i / 4, i % 4);
    }
  }

  /** The identity is a unit for `multiply` on both sides. */
  lemma IdentityIsUnit(m: seq<real>)
    requires IsMatrix(m)
    ensures Multiply(Identity(), m) == m
    ensures Multiply(m, Identity()) == m
  {
    Entries(Multiply(Identity(), m), m);
    Entries(Multiply(m, Identity()), m);
  }

  /** `translation(tx, ty, tz)`: the identity with the offsets at entries 12, 13 and 14. */
  function Translation(tx: real, ty: real, tz: real): (m: seq<real>)
    ensures IsMatrix(m)
    ensures m[12] == tx && m[13] == ty && m[14] == tz
    ensures forall i :: 0 <= i < 16 && i != 12 && i != 13 && i != 14 ==> m[i] == Identity()[i]
  {
    [1.0, 0.0, 0.0, 0.0,
     0.0, 1.0, 0.0, 0.0,
     0.0, 0.0, 1.0, 0.0,
     tx, ty, tz, 1.0]
  }

  /** `translate(m, tx, ty, tz)`: m times a translation. */
  function Translate(m: seq<real>, tx: real, ty: real, tz: real): (r: seq<real>)
    requires IsMatrix(m)
    ensures IsMatrix(r)
  {
    Multiply(m, Translation(tx, ty, tz))
  }

  /** Translating the identity gives the translation, a translation leaves
      the first three columns of m alone, and two translations add up. */
  lemma TranslateMeaning(m: seq<real>, tx: real, ty: real, tz: real, ux: real, uy: real, uz: real)
    requires IsMatrix(m)
    ensures Translate(Identity(), tx, ty, tz) == Translation(tx, ty, tz)
    ensures Translate(m, tx, ty, tz)[..12] == m[..12]
    ensures Translate(Translation(tx, ty, tz), ux, uy, uz) == Translation(tx + ux, ty + uy, tz + uz)
  {
    IdentityIsUnit(Translation(tx, ty, tz));
    var t := Translate(m, tx, ty, tz);
    forall i | 0 <= i < 12 ensures t[i] == m[i] {
      assert i == (i / 4) * 4 + i % 4;
    }
    Entries(Translate(Translation(tx, ty, tz), ux, uy, uz), Translation(tx + ux, ty + uy, tz + uz));
  }

  /** `xRotation(angle)`, with the host's cosine and sine. */
  function XRotation(angle: real, trig: Trig): (m: seq<real>)
    ensures IsMatrix(m)
  {
    var c, s := trig.cos(angle), trig.sin(angle);
    [1.0, 0.0, 0.0, 0.0,
     0.0, c, s, 0.0,
     0.0, -s, c, 0.0,
     0.0, 0.0, 0.0, 1.0]
  }

  /** `yRotation(angle)`. */
  function YRotation(angle: real, trig: Trig): (m: seq<real>)
    ensures IsMatrix(m)
  {
    var c, s := trig.cos(angle), trig.sin(angle);
    [c, 0.0, -s, 0.0,
     0.0, 1.0, 0.0, 0.0,
     s, 0.0, c, 0.0,
     0.0, 0.0, 0.0, 1.0]
  }

  /** `zRotation(angle)`. */
  function ZRotation(angle: real, trig: Trig): (m: seq<real>)
    ensures IsMatrix(m)
  {
    var c, s := trig.cos(angle), trig.sin(angle);
    [c, s, 0.0, 0.0,
     -s, c, 0.0, 0.0,
     0.0, 0.0, 1.0, 0.0,
     0.0, 0.0, 0.0, 1.0]
  }

  /** A rotation is the identity when the angle has cosine 1 and sine 0, and
      it never moves the axis it turns about. */
  lemma RotationsAtRest(angle: real, trig: Trig)
    ensures trig.cos(angle) == 1.0 && trig.sin(angle) == 0.0 ==>
      XRotation(angle, trig) == Identity() && YRotation(angle, trig) == Identity() && ZRotation(angle, trig) == Identity()
    ensures XRotation(angle, trig)[..4] == Identity()[..4]
    ensures YRotation(angle, trig)[4..8] == Identity()[4..8]
    ensures ZRotation(angle, trig)[8..12] == Identity()[8..12]
  {
  }

  /** `yRotate(m, angle)`. */
  function YRotate(m: seq<real>, angle: real, trig: Trig): (r: seq<real>)
    requires IsMatrix(m)
    ensures IsMatrix(r)
  {
    Multiply(m, YRotation(angle, trig))
  }

  /** `zRotate(m, angle)`. */
  function ZRotate(m: seq<real>, angle: real, trig: Trig): (r: seq<real>)
    requires IsMatrix(m)
    ensures IsMatrix(r)
  {
    Multiply(m, ZRotation(angle, trig))
  }

  /** Rotating by an angle at rest leaves the matrix as it is; a y rotation
      keeps column 1 and a z rotation keeps column 2. */
  lemma RotateMeaning(m: seq<real>, angle: real, trig: Trig)
    requires IsMatrix(m)
    ensures trig.cos(angle) == 1.0 && trig.sin(angle) == 0.0 ==>
      YRotate(m, angle, trig) == m && ZRotate(m, angle, trig) == m
    ensures YRotate(m, angle, trig)[4..8] == m[4..8]
    ensures ZRotate(m, angle, trig)[8..12] == m[8..12]
  {
    RotationsAtRest(angle, trig);
    IdentityIsUnit(m);
    var y := YRotate(m, angle, trig);
    var z := ZRotate(m, angle, trig);
    MultiplyEntries(m, YRotation(angle, trig));
    MultiplyEntries(m, ZRotation(angle, trig));
    forall r: nat | r < 4 ensures At(y, 1, r) == At(m, 1, r) && At(z, 2, r) == At(m, 2, r) {
    }
  }

  /** `normalize(v)`: v divided by its length, or the zero vector when the
      length is at most 0.00001. */
  function Normalize(v: seq<real>, sqrt: real -> real): (r: seq<real>)
    requires |v| == 3
    ensures |r| == 3
  {
    var length := sqrt(Square(v[0]) + Square(v[1]) + Square(v[2]));
    if length > 0.00001 then [v[0] / length, v[1] / length, v[2] / length]
    else [0.0, 0.0, 0.0]
  }

  /** A vector longer than the threshold becomes a unit vector pointing the
      same way; any other becomes zero. */
  lemma NormalizeMeaning(v: seq<real>, sqrt: real -> real)
    requires |v| == 3 && IsSqrt(sqrt)
    ensures var w := Vector3(v[0], v[1], v[2]);
      w.Length(sqrt) > 0.00001 ==>
        Vector3(Normalize(v, sqrt)[0], Normalize(v, sqrt)[1], Normalize(v, sqrt)[2]).LengthSquared() == 1.0 &&
        Vector3(Normalize(v, sqrt)[0], Normalize(v, sqrt)[1], Normalize(v, sqrt)[2]) == w.TimesScalar(1.0 / w.Length(sqrt))
    ensures Vector3(v[0], v[1], v[2]).Length(sqrt) <= 0.00001 ==> Normalize(v, sqrt) == [0.0, 0.0, 0.0]
  {
    var w := Vector3(v[0], v[1], v[2]);
    var l := w.Length(sqrt);
    if l > 0.00001 {
      LengthPositive(w, sqrt);
      SquaresNonNegative(w);
      ReciprocalScaling(w, l);
      var r := Normalize(v, sqrt);
      assert r[0] == v[0] * (1.0 / l) && r[1] == v[1] * (1.0 / l) && r[2] == v[2] * (1.0 / l);
    }
  }
}
