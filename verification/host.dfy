/** Values the viewer takes from its JavaScript host.
    Math.sqrt, Math.sin, Math.cos and parseFloat are not defined by the viewer;
    the model receives them as parameters. Math.PI is a positive constant. */
module Host {

  /** Math.PI, written with the digits JavaScript prints for it. */
  const Pi: real := 3.141592653589793

  /** Math.sin and Math.cos. No identity about them is assumed anywhere. */
  datatype Trig = Trig(sin: real -> real, cos: real -> real)

  /** The identity on reals. `Square` multiplies through it so that the solver
      sees a product of two terms; its reasoning about `a * a` on reals is weaker. */
  function Same(a: real): real { a }

  /** `a * a`. */
  function Square(a: real): real { a * Same(a) }

  /** The one property of Math.sqrt that the unit-length lemmas rely on. */
  ghost predicate IsSqrt(sqrt: real -> real)
  {
    forall x: real {:trigger sqrt(x)} :: 0.0 <= x ==> 0.0 <= sqrt(x) && Square(sqrt(x)) == x
  }

  datatype Option<+T> = None | Some(value: T)

  datatype Result<+T, +E> = Ok(value: T) | Err(error: E)

  function Min(a: real, b: real): real { if a <= b then a else b }

  function Max(a: real, b: real): real { if a >= b then a else b }
}
