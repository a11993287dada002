/** Pull to refresh: a touch that starts at the top of a scrolled container
    arms a pull, and dragging down far enough fires one refresh. */
module PullToRefreshHook {
  import opened Wrappers

  /** The distance, in pixels, a pull must exceed when the caller sets none. */
  const DefaultThreshold: real := 68.0

  class PullToRefresh {
    /** Where the armed touch started; None when no pull is armed. */
    var startY: Option<real>
    var isPulling: bool
    /** Whether a container element is attached. */
    var hasContainer: bool
    const threshold: real

    /** An armed pull always knows where it started. */
    ghost predicate Valid()
      reads this
    {
      isPulling ==> startY.Some?
    }

    constructor (threshold: Option<real>)
      ensures Valid() && startY == None && !isPulling && !hasContainer
      ensures this.threshold == (if threshold.Some? then threshold.value else DefaultThreshold)
    {
      startY := None;
      isPulling := false;
      hasContainer := false;
      this.threshold := if threshold.Some? then threshold.value else DefaultThreshold;
    }

    /** `setRef`: attach a container (`attach`) or detach the current one. */
    method SetRef(attach: bool)
      modifies this`hasContainer
      ensures hasContainer == attach
    {
      hasContainer := attach;
    }

    /** Touch start: with a container scrolled to the top, arm a pull at the
        touch's height; otherwise do nothing. */
    method OnTouchStart(scrollTop: real, clientY: real)
      requires Valid()
      modifies this`startY, this`isPulling
      ensures Valid()
      ensures hasContainer && scrollTop == 0.0 ==> isPulling && startY == Some(clientY)
      ensures !(hasContainer && scrollTop == 0.0) ==>
                isPulling == old(isPulling) && startY == old(startY)
    {
      if !hasContainer {
        return;
      }
      if scrollTop == 0.0 {
        startY := Some(clientY);
        isPulling := true;
      }
    }

    /** Touch move: an armed pull that has moved down strictly more than the
        threshold fires the refresh and disarms; anything else changes
        nothing. */
    method OnTouchMove(currentY: real) returns (fired: bool)
      requires Valid()
      modifies this`startY, this`isPulling
      ensures Valid()
      ensures fired <==> old(isPulling) && old(startY).Some? && currentY - old(startY).value > threshold
      ensures fired ==> !isPulling && startY == None
      ensures !fired ==> isPulling == old(isPulling) && startY == old(startY)
    {
      if !isPulling || startY.None? {
        return false;
      }
      var distance := currentY - startY.value;
      if distance > threshold {
        isPulling := false;
        startY := None;
        return true;
      }
      fired := false;
    }

    /** Touch end: disarm. */
    method Reset()
      modifies this`startY, this`isPulling
      ensures Valid() && !isPulling && startY == None
    {
      isPulling := false;
      startY := None;
    }
  }

  /** One whole gesture from rest: a touch at height `y` with the container
      scrolled to `scrollTop`, the heights of its moves, then the touch end.
      It fires at most one refresh, exactly when the pull was armed and some
      move went more than the threshold below `y`, and it ends at rest. */
  method Gesture(p: PullToRefresh, scrollTop: real, y: real, moves: seq<real>) returns (refreshes: nat)
    requires p.Valid() && !p.isPulling
    modifies p`startY, p`isPulling
    ensures p.Valid() && !p.isPulling && p.startY == None
    ensures refreshes <= 1
    ensures refreshes == 1 <==>
              p.hasContainer && scrollTop == 0.0
              && exists i :: 0 <= i < |moves| && moves[i] - y > p.threshold
  {
    p.OnTouchStart(scrollTop, y);
    ghost var armed := p.hasContainer && scrollTop == 0.0;
    refreshes := 0;
    var i := 0;
    while i < |moves|
      invariant 0 <= i <= |moves|
      invariant p.Valid() && refreshes <= 1
      invariant armed == (p.hasContainer && scrollTop == 0.0)
      invariant p.isPulling ==> p.startY == Some(y)
      invariant refreshes == 1 <==> armed && exists j :: 0 <= j < i && moves[j] - y > p.threshold
      invariant refreshes == 0 <==> p.isPulling == armed
    {
      var fired := p.OnTouchMove(moves[i]);
      if fired {
        refreshes := refreshes + 1;
      }
      i := i + 1;
    }
    p.Reset();
  }
}
