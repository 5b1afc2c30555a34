/** Model of src/js/Renderer.js: the list of renderables and the flag that
    lets at most one animation frame be requested per change. The browser's
    requestAnimationFrame is modelled as a counter of requests. */
module Rendering {

  /** `indexOf`: the first position of x, or -1 when x is absent. */
  function IndexOf<T(==)>(s: seq<T>, x: T): (i: int)
    ensures -1 <= i < |s|
    ensures i == -1 <==> x !in s
    ensures 0 <= i ==> s[i] == x && x !in s[..i]
  {
    if |s| == 0 then -1
    else if s[0] == x then 0
    else
      var j := IndexOf(s[1..], x);
      assert j >= 0 ==> s[1..][..j] == s[1..j + 1];
      if j == -1 then -1 else j + 1
  }

  /** `splice(start, 1)`: a negative start counts from the end (and is taken
      as 0 past the front); a start at or past the end removes nothing. */
  function SpliceOne<T>(s: seq<T>, start: int): (r: seq<T>)
    ensures |s| == 0 ==> r == s
    ensures 0 <= start < |s| ==> r == s[..start] + s[start + 1..]
    ensures start >= |s| ==> r == s
  {
    var k := if start < 0 then (if |s| + start < 0 then 0 else |s| + start) else start;
    if k < |s| then s[..k] + s[k + 1..] else s
  }

  /** `removeRenderable`'s effect on the list. */
  function Removed<T(==)>(s: seq<T>, x: T): seq<T>
  {
    SpliceOne(s, IndexOf(s, x))
  }

  /** The first occurrence goes, and only it; when x is absent, indexOf gives
      -1 and the last element goes instead. */
  lemma RemovedMeaning<T>(s: seq<T>, x: T)
    ensures x in s ==> |Removed(s, x)| == |s| - 1 && multiset(Removed(s, x)) == multiset(s) - multiset{x}
    ensures x in s ==> exists i :: 0 <= i < |s| && s[i] == x && x !in s[..i] && Removed(s, x) == s[..i] + s[i + 1..]
    ensures x !in s && |s| > 0 ==> Removed(s, x) == s[..|s| - 1]
    ensures |s| == 0 ==> Removed(s, x) == s
  {
    var i := IndexOf(s, x);
    if x in s {
      assert s == s[..i] + [x] + s[i + 1..];
      assert multiset(s) == multiset(s[..i]) + multiset{x} + multiset(s[i + 1..]);
    }
  }

  /** Adding an item not yet listed and removing it restores the list. */
  lemma AddThenRemove<T>(s: seq<T>, x: T)
    requires x !in s
    ensures Removed(s + [x], x) == s
  {
    assert (s + [x])[..|s|] == s;
    assert IndexOf(s + [x], x) == |s|;
  }

  /** Calls on a renderer, in order. */
  datatype Call = SignifyChange | RequestRender

  /** The number of frames requested by a run of calls from a flag value. */
  function Requests(calls: seq<Call>, queued: bool): nat
  {
    if |calls| == 0 then 0
    else if calls[0] == SignifyChange then Requests(calls[1..], true)
    else if queued then 1 + Requests(calls[1..], false)
    else Requests(calls[1..], false)
  }

  function Signals(calls: seq<Call>): nat
  {
    if |calls| == 0 then 0
    else (if calls[0] == SignifyChange then 1 else 0) + Signals(calls[1..])
  }

  /** No more frames are requested than there were changes signified, plus
      one for a change already queued. */
  lemma {:induction false} RequestsBounded(calls: seq<Call>, queued: bool)
    ensures Requests(calls, queued) <= Signals(calls) + (if queued then 1 else 0)
  {
    if |calls| > 0 {
      if calls[0] == SignifyChange {
        RequestsBounded(calls[1..], true);
      } else {
        RequestsBounded(calls[1..], false);
      }
    }
  }

  /** Any number of render requests with no change in between issue at most
      one frame request. */
  lemma {:induction false} RequestsWithoutChange(calls: seq<Call>, queued: bool)
    requires forall i :: 0 <= i < |calls| ==> calls[i] == RequestRender
    ensures Requests(calls, queued) == if queued && |calls| > 0 then 1 else 0
  {
    if |calls| > 0 {
      RequestsWithoutChange(calls[1..], false);
    }
  }

  class Renderer<T(==)> {
    var renderables: seq<T>
    var rerenderQueued: bool
    /** Calls to requestAnimationFrame so far. */
    var frameRequests: nat

    /** A new renderer owns no renderables and has a render queued. */
    constructor ()
      ensures renderables == [] && rerenderQueued && frameRequests == 0
    {
      renderables := [];
      rerenderQueued := true;
      frameRequests := 0;
    }

    method SignifyChange()
      modifies this`rerenderQueued
      ensures rerenderQueued
    {
      rerenderQueued := true;
    }

    /** `push`: appended at the end. */
    method AddRenderable(renderable: T)
      modifies this`renderables
      ensures renderables == old(renderables) + [renderable]
    {
      renderables := renderables + [renderable];
    }

    method RemoveRenderable(renderable: T)
      modifies this`renderables
      ensures renderables == Removed(old(renderables), renderable)
    {
      renderables := SpliceOne(renderables, IndexOf(renderables, renderable));
    }

    /** A queued render clears the flag and requests one frame; otherwise
        nothing happens. */
    method RequestRender()
      modifies this`rerenderQueued, this`frameRequests
      ensures !rerenderQueued
      ensures frameRequests == old(frameRequests) + Requests([Call.RequestRender], old(rerenderQueued))
    {
      if rerenderQueued {
        rerenderQueued := false;
        frameRequests := frameRequests + 1;
      }
    }
  }
}
