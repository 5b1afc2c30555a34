/** Model of src/js/InputHandler.js: a dictionary of pressed keys that the
    keydown and keyup handlers update, and the `axes` getter that reads ten
    of its entries as the intent for one frame. */
module Input {
  import opened Vectors

  /** The ten keys of the initial dictionary. */
  const Tracked: set<string> := {"ArrowUp", "ArrowDown", "ArrowLeft", "ArrowRight", "w", "s", "a", "d", "q", "e"}

  /** The dictionary the constructor creates: every tracked key released. */
  const InitialKeys: map<string, bool> := map k | k in Tracked :: false

  /** Every tracked key has an entry, so no lookup of `axes` is `undefined`. */
  predicate Covers(keys: map<string, bool>)
  {
    forall k :: k in Tracked ==> k in keys
  }

  /** A boolean used as a number: true is 1, false is 0. */
  function Num(keys: map<string, bool>, k: string): real
    requires k in keys
  {
    if keys[k] then 1.0 else 0.0
  }

  /** -1, 0 or 1. */
  predicate IsUnit(c: real)
  {
    c == -1.0 || c == 0.0 || c == 1.0
  }

  /** The `axes` getter: translation (d - a, e - q, s - w), rotation
      (ArrowUp - ArrowDown, 0, ArrowLeft - ArrowRight), elevation 0. */
  function AxesOf(keys: map<string, bool>): (r: Orientation)
    requires Covers(keys)
    ensures IsUnit(r.position.x) && IsUnit(r.position.y) && IsUnit(r.position.z)
    ensures IsUnit(r.rotation.x) && r.rotation.y == 0.0 && IsUnit(r.rotation.z)
    ensures r.elevation == 0.0
    ensures r.position.x > 0.0 <==> keys["d"] && !keys["a"]
    ensures r.position.x < 0.0 <==> keys["a"] && !keys["d"]
    ensures r.position.y > 0.0 <==> keys["e"] && !keys["q"]
    ensures r.position.y < 0.0 <==> keys["q"] && !keys["e"]
    ensures r.position.z > 0.0 <==> keys["s"] && !keys["w"]
    ensures r.position.z < 0.0 <==> keys["w"] && !keys["s"]
    ensures r.rotation.x > 0.0 <==> keys["ArrowUp"] && !keys["ArrowDown"]
    ensures r.rotation.x < 0.0 <==> keys["ArrowDown"] && !keys["ArrowUp"]
    ensures r.rotation.z > 0.0 <==> keys["ArrowLeft"] && !keys["ArrowRight"]
    ensures r.rotation.z < 0.0 <==> keys["ArrowRight"] && !keys["ArrowLeft"]
  {
    Orientation(
      Vector3(Num(keys, "d") - Num(keys, "a"), Num(keys, "e") - Num(keys, "q"), Num(keys, "s") - Num(keys, "w")),
      Vector3(Num(keys, "ArrowUp") - Num(keys, "ArrowDown"), 0.0, Num(keys, "ArrowLeft") - Num(keys, "ArrowRight")),
      0.0)
  }

  /** With nothing pressed there is no intent. */
  lemma InitialAxesZero()
    ensures Covers(InitialKeys)
    ensures AxesOf(InitialKeys).IsZero()
  {
    assert forall k :: k in Tracked ==> k in InitialKeys && !InitialKeys[k];
  }

  /** Holding both keys of an opposing pair gives 0 on that axis, exactly as
      holding neither does. */
  lemma OpposingKeysCancel(keys: map<string, bool>)
    requires Covers(keys)
    ensures keys["d"] == keys["a"] ==> AxesOf(keys).position.x == 0.0
    ensures keys["e"] == keys["q"] ==> AxesOf(keys).position.y == 0.0
    ensures keys["s"] == keys["w"] ==> AxesOf(keys).position.z == 0.0
    ensures keys["ArrowUp"] == keys["ArrowDown"] ==> AxesOf(keys).rotation.x == 0.0
    ensures keys["ArrowLeft"] == keys["ArrowRight"] ==> AxesOf(keys).rotation.z == 0.0
  {
  }

  /** A key outside the ten never changes the axes. */
  lemma UntrackedKeysIgnored(keys: map<string, bool>, key: string, pressed: bool)
    requires Covers(keys) && key !in Tracked
    ensures Covers(keys[key := pressed])
    ensures AxesOf(keys[key := pressed]) == AxesOf(keys)
  {
    assert forall k :: k in Tracked ==> keys[key := pressed][k] == keys[k];
  }

  class InputHandler {
    /** `pressedKeys`: every key seen so far, pressed or released. */
    var pressedKeys: map<string, bool>

    constructor ()
      ensures pressedKeys == InitialKeys
    {
      pressedKeys := InitialKeys;
    }

    /** The keydown handler: the key is pressed; every other entry is kept. */
    method KeyDown(key: string)
      modifies this
      ensures pressedKeys == old(pressedKeys)[key := true]
      ensures Covers(old(pressedKeys)) ==> Covers(pressedKeys)
    {
      pressedKeys := pressedKeys[key := true];
    }

    /** The keyup handler: the key is released; every other entry is kept. */
    method KeyUp(key: string)
      modifies this
      ensures pressedKeys == old(pressedKeys)[key := false]
      ensures Covers(old(pressedKeys)) ==> Covers(pressedKeys)
    {
      pressedKeys := pressedKeys[key := false];
    }

    /** The `axes` getter. */
    function Axes(): Orientation
      reads this
      requires Covers(pressedKeys)
    {
      AxesOf(pressedKeys)
    }
  }

  /** Pressing a key and releasing it leaves the dictionary as if the key had
      only ever been released. */
  lemma PressThenRelease(keys: map<string, bool>, key: string)
    ensures keys[key := true][key := false] == keys[key := false]
    ensures Covers(keys) && key in Tracked ==> AxesOf(keys[key := true][key := false]) == AxesOf(keys[key := false])
  {
  }
}
