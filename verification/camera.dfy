/** Model of the Camera of src/js/model.js: a stored orientation that `move`
    updates step by step, and two modes. In FREE mode the stored position is
    the eye; in FOCUSED mode it is the point the eye orbits, at distance
    `elevation`, and the `orientation` getter derives the eye from it. */
module CameraModel {
  import opened Host
  import opened Vectors

  /** CameraMode.FREE (0) and CameraMode.FOCUSED (1). */
  datatype CameraMode = Free | Focused

  const QuadFull: real := Pi / 2.0
  const Full: real := 2.0 * Pi

  /** The pitch clamp of `move`: rotation.x is held in [-PI/2, PI/2]. */
  function ClampPitch(x: real): (r: real)
    ensures -QuadFull <= r <= QuadFull
    ensures -QuadFull <= x <= QuadFull ==> r == x
    ensures x < -QuadFull ==> r == -QuadFull
    ensures x > QuadFull ==> r == QuadFull
  {
    if x < -QuadFull then -QuadFull else if x > QuadFull then QuadFull else x
  }

  /** The yaw wrap of `move`: a single step of 2*PI, so only a value within
      one turn of [0, 2*PI] lands in it, and 2*PI itself is kept. */
  function WrapYaw(y: real): (r: real)
    ensures -Full <= y <= 2.0 * Full ==> 0.0 <= r <= Full
    ensures 0.0 <= y <= Full ==> r == y
    ensures r == y || r == y + Full || r == y - Full
  {
    if y < 0.0 then y + Full else if y > Full then y - Full else y
  }

  /** One wrap does not bring a value from two turns below back into range. */
  lemma WrapYawIsSingleStep()
    ensures WrapYaw(-2.0 * Full - 1.0) < 0.0
    ensures WrapYaw(Full) == Full
  {
  }

  /** The orientation `move` leaves: translate (backwards in FOCUSED mode),
      rotate, in FOCUSED mode change the elevation and keep it non-negative,
      then clamp the pitch and wrap the yaw. */
  function Moved(info: Orientation, change: Orientation, mode: CameraMode): (r: Orientation)
    ensures -QuadFull <= r.rotation.x <= QuadFull
    ensures r.rotation.x == ClampPitch(info.rotation.x + change.rotation.x)
    ensures r.rotation.y == WrapYaw(info.rotation.y + change.rotation.y)
    ensures mode == Free ==> r.position == info.position.Add(change.position) && r.elevation == info.elevation
    ensures mode == Focused ==> r.elevation == Max(0.0, info.elevation + change.elevation)
    ensures mode == Focused ==> r.position == info.position.Sub(change.position) && r.elevation >= 0.0
    ensures mode == Focused && info.elevation + change.elevation >= 0.0 ==> r.elevation == info.elevation + change.elevation
    ensures r.rotation.z == info.rotation.z + change.rotation.z
    ensures 0.0 <= info.rotation.y <= Full && -Full <= change.rotation.y <= Full ==> 0.0 <= r.rotation.y <= Full
  {
    var turned := info.rotation.Add(change.rotation);
    var rotation := Vector3(ClampPitch(turned.x), WrapYaw(turned.y), turned.z);
    match mode
    case Free => Orientation(info.position.Add(change.position), rotation, info.elevation)
    case Focused => Orientation(info.position.Add(change.position.Negative()), rotation, Max(0.0, info.elevation + change.elevation))
  }

  /** `positionDeltaVector` of the mode setter, and the offset the `orientation`
      getter adds in FOCUSED mode: the eye's displacement from the focus. */
  function EyeOffset(info: Orientation, trig: Trig): Vector3
  {
    var elevatedDist := info.elevation * trig.cos(info.rotation.x);
    Vector3(elevatedDist * trig.sin(info.rotation.y),
            -info.elevation * trig.sin(info.rotation.x),
            elevatedDist * trig.cos(info.rotation.y))
  }

  /** The `orientation` getter: the stored orientation in FREE mode; in FOCUSED
      mode the eye at the offset from the focus, looking with the stored pitch
      and yaw and no roll, at elevation 0. */
  function View(info: Orientation, mode: CameraMode, trig: Trig): (r: Orientation)
    ensures mode == Free ==> r == info
    ensures mode == Focused ==> r.rotation == Vector3(info.rotation.x, info.rotation.y, 0.0) && r.elevation == 0.0
  {
    match mode
    case Free => info
    case Focused => Orientation(info.position.Add(EyeOffset(info, trig)), Vector3(info.rotation.x, info.rotation.y, 0.0), 0.0)
  }

  /** What the mode setter does to the stored orientation. */
  function Rebased(info: Orientation, mode: CameraMode, newMode: CameraMode, trig: Trig): (r: Orientation)
    ensures r.rotation == info.rotation && r.elevation == info.elevation
    ensures mode == newMode ==> r == info
  {
    if newMode == mode then info
    else if newMode == Free then info.(position := info.position.Add(EyeOffset(info, trig)))
    else info.(position := info.position.Add(EyeOffset(info, trig).Negative()))
  }

  /** A switch of mode does not move the eye: the position the getter derives
      is the same before and after. */
  lemma RebaseKeepsEye(info: Orientation, mode: CameraMode, newMode: CameraMode, trig: Trig)
    ensures View(Rebased(info, mode, newMode, trig), newMode, trig).position == View(info, mode, trig).position
  {
    var r := Rebased(info, mode, newMode, trig);
    assert EyeOffset(r, trig) == EyeOffset(info, trig);
  }

  /** Switching to FOCUSED and back to FREE, or the other way round, restores
      the stored orientation. */
  lemma RebaseRoundTrip(info: Orientation, trig: Trig)
    ensures Rebased(Rebased(info, Free, Focused, trig), Focused, Free, trig) == info
    ensures Rebased(Rebased(info, Focused, Free, trig), Free, Focused, trig) == info
  {
    var there := Rebased(info, Free, Focused, trig);
    assert EyeOffset(there, trig) == EyeOffset(info, trig);
    AddSubInverse(info.position, EyeOffset(info, trig).Negative());
    var back := Rebased(info, Focused, Free, trig);
    assert EyeOffset(back, trig) == EyeOffset(info, trig);
    AddSubInverse(info.position, EyeOffset(info, trig));
  }

  /** The pitch stays in range whatever the moves, and the yaw stays in
      [0, 2*PI] as long as no single move turns by more than a full turn. */
  lemma {:induction false} MovesKeepAngles(info: Orientation, changes: seq<Orientation>, mode: CameraMode)
    requires 0.0 <= info.rotation.y <= Full
    requires forall i :: 0 <= i < |changes| ==> -Full <= changes[i].rotation.y <= Full
    ensures 0.0 <= MoveAll(info, changes, mode).rotation.y <= Full
    ensures |changes| > 0 ==> -QuadFull <= MoveAll(info, changes, mode).rotation.x <= QuadFull
    ensures mode == Focused && |changes| > 0 ==> MoveAll(info, changes, mode).elevation >= 0.0
  {
    if |changes| > 0 {
      MovesKeepAngles(info, changes[..|changes| - 1], mode);
    }
  }

  /** A sequence of moves in one mode. */
  function MoveAll(info: Orientation, changes: seq<Orientation>, mode: CameraMode): Orientation
  {
    if |changes| == 0 then info
    else Moved(MoveAll(info, changes[..|changes| - 1], mode), changes[|changes| - 1], mode)
  }

  class Camera {
    /** `__orientationInfo`: the eye in FREE mode, the focus in FOCUSED mode. */
    var info: Orientation
    var fov: real
    var mode: CameraMode

    constructor (orientationInfo: Orientation, fov: real, mode: CameraMode)
      ensures info == orientationInfo && this.fov == fov && this.mode == mode
    {
      info := orientationInfo;
      this.fov := fov;
      this.mode := mode;
    }

    /** `move`: the stored orientation is updated field by field. */
    method Move(orientationChange: Orientation)
      modifies this`info
      ensures info == Moved(old(info), orientationChange, mode)
    {
      if mode == Free {
        info := info.(position := info.position.Add(orientationChange.position));
        info := info.(rotation := info.rotation.Add(orientationChange.rotation));
      } else {
        info := info.(position := info.position.Add(orientationChange.position.Negative()));
        info := info.(rotation := info.rotation.Add(orientationChange.rotation));
        info := info.(elevation := info.elevation + orientationChange.elevation);
        info := info.(elevation := Max(0.0, info.elevation));
      }
      var x := info.rotation.x;
      info := info.(rotation := info.rotation.(x := if x < -QuadFull then -QuadFull else if x > QuadFull then QuadFull else x));
      var y := info.rotation.y;
      info := info.(rotation := info.rotation.(y := if y < 0.0 then y + Full else if y > Full then y - Full else y));
    }

    /** The `orientation` getter. */
    function Orientation(trig: Trig): Vectors.Orientation
      reads this
    {
      View(info, mode, trig)
    }

    /** The `mode` setter: a new mode re-bases the stored position by the eye
        offset so that the eye stays where it was. */
    method SetMode(newMode: CameraMode, trig: Trig)
      modifies this`mode, this`info
      ensures mode == newMode
      ensures info == Rebased(old(info), old(mode), newMode, trig)
      ensures Orientation(trig).position == old(Orientation(trig)).position
    {
      if newMode != mode {
        mode := newMode;
        var positionDeltaVector := EyeOffset(info, trig);
        if newMode == Free {
          info := info.(position := info.position.Add(positionDeltaVector));
        } else {
          info := info.(position := info.position.Add(positionDeltaVector.Negative()));
        }
      }
      RebaseKeepsEye(old(info), old(mode), newMode, trig);
    }
  }
}
