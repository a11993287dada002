/** Moving between the four tabs of the mobile layout with a horizontal
    swipe. */
module TabSwipe {

  /** The tab keys, in the order the tab bar shows them. */
  const Tabs: seq<string> := ["plan", "pack", "reminders", "settings"]

  /** A swipe must travel strictly more than this many pixels. */
  const SwipeDistance: real := 60.0

  /** `findIndex`: the first position of `key`, or -1. */
  function IndexOf(keys: seq<string>, key: string): (i: int)
    ensures -1 <= i < |keys|
    ensures i >= 0 ==> keys[i] == key && forall j :: 0 <= j < i ==> keys[j] != key
    ensures i == -1 <==> key !in keys
  {
    if keys == [] then -1
    else if keys[0] == key then 0
    else
      var j := IndexOf(keys[1..], key);
      if j == -1 then -1 else j + 1
  }

  function Abs(x: real): real {
    if x < 0.0 then -x else x
  }

  function Min(a: int, b: int): int { if a < b then a else b }

  function Max(a: int, b: int): int { if a > b then a else b }

  /** The tab keys are distinct: each is found at its own position. */
  lemma TabAt(k: int)
    requires 0 <= k < |Tabs|
    ensures IndexOf(Tabs, Tabs[k]) == k
  {
    assert Tabs[1..][1..][1..] == ["settings"];
  }

  /** The tab shown after a swipe of horizontal travel `delta`: one tab
      further for a leftward swipe (negative travel), one back for a rightward
      one, only when the travel exceeds 60 pixels either way, and never past
      the first or the last tab. */
  function SwipeTab(active: string, delta: real): (next: string)
    ensures -SwipeDistance <= delta <= SwipeDistance ==> next == active
    ensures active in Tabs ==> next in Tabs
    ensures active in Tabs && delta < -SwipeDistance ==>
              IndexOf(Tabs, next) == Min(IndexOf(Tabs, active) + 1, |Tabs| - 1)
    ensures active in Tabs && delta > SwipeDistance ==>
              IndexOf(Tabs, next) == Max(IndexOf(Tabs, active) - 1, 0)
  {
    var current := IndexOf(Tabs, active);
    if Abs(delta) > SwipeDistance then
      var nextIndex := if delta < 0.0 then current + 1 else current - 1;
      if 0 <= nextIndex < |Tabs| then TabAt(nextIndex); Tabs[nextIndex] else active
    else active
  }

  /** The two positions the swipe handlers remember. The handlers are built
      anew on every render, so both start at 0. */
  class SwipeGesture {
    var startX: real
    var endX: real

    constructor ()
      ensures startX == 0.0 && endX == 0.0
    {
      startX := 0.0;
      endX := 0.0;
    }

    /** Touch start as written: only the start position is recorded. */
    method OnTouchStart(x: real)
      modifies this
      ensures startX == x && endX == old(endX)
    {
      startX := x;
    }

    /** Touch start as evidently intended: the end position starts where the
        finger went down, so a touch without movement has no travel. */
    method OnTouchStartAnchored(x: real)
      modifies this
      ensures startX == x && endX == x
    {
      startX := x;
      endX := x;
    }

    method OnTouchMove(x: real)
      modifies this
      ensures endX == x && startX == old(startX)
    {
      endX := x;
    }

    /** Touch end: the tab to show, from the travel between the two
        positions. */
    method OnTouchEnd(active: string) returns (next: string)
      ensures next == SwipeTab(active, endX - startX)
    {
      next := SwipeTab(active, endX - startX);
    }
  }

  /** As written, a tap (touch start and end, no move) more than 60 pixels
      from the left edge on the "plan" tab reads as a leftward swipe of
      travel `-x` and opens the "pack" tab. */
  method TapAsWritten(x: real) returns (next: string)
    requires x > SwipeDistance
    ensures next == "pack"
  {
    var g := new SwipeGesture();
    g.OnTouchStart(x);
    next := g.OnTouchEnd("plan");
  }

  /** With the start anchored, a tap never changes the tab, and a gesture with
      a last move to `moveX` travels `moveX - x`, as intended. */
  method GestureAnchored(x: real, lastMove: real, moved: bool, active: string) returns (next: string)
    ensures !moved ==> next == active
    ensures moved ==> next == SwipeTab(active, lastMove - x)
  {
    var g := new SwipeGesture();
    g.OnTouchStartAnchored(x);
    if moved {
      g.OnTouchMove(lastMove);
    }
    next := g.OnTouchEnd(active);
  }
}
