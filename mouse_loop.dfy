/** Cursor wrap-around across the edges of the screens (Models/MouseLoop.cs).
    With LRLoop on, a cursor at the right edge of the desktop reappears at the
    left and the other way round; with UDLoop on, a cursor at the bottom of a
    screen reappears at its top and the other way round. Loop is a subscriber
    of the mouse hook: it moves the cursor and asks the hook to swallow the
    event.

    Screen.AllScreens is a sequence of rectangles; Screen.FromPoint is a total
    function `fromPoint` of the point, and the screen it names is the one at
    index `fromPoint(p) % |screens|`. Two screens are the same screen when
    their indices are equal. Setting Cursor.Position is a returned value. */
module MouseLoop {
  import MH = MouseHook

  datatype Option<T> = None | Some(value: T)

  datatype Point = Point(x: int, y: int)

  /** A screen's Bounds: a System.Drawing.Rectangle. */
  datatype Rect = Rect(left: int, top: int, width: int, height: int) {
    function Right(): int { left + width }
    function Bottom(): int { top + height }
  }

  /** How far inside the opposite edge the cursor lands. */
  const BoundaryOffset: int := 3

  /** How far beside the cursor the same-screen probe looks. */
  const ProbeDistance: int := 50

  /** The identity of the Loop delegate in the mouse hook's subscriber list. */
  const LoopHandler: nat := 0

  /** The sum of the screens' widths. */
  function WidthSum(screens: seq<Rect>): int
  {
    if screens == [] then 0 else screens[0].width + WidthSum(screens[1..])
  }

  /** Screens of non-negative width sum to at least the widest of them. */
  lemma {:induction false} WidthSumBoundsEachScreen(screens: seq<Rect>, i: nat)
    requires forall k :: 0 <= k < |screens| ==> screens[k].width >= 0
    requires i < |screens|
    ensures screens[i].width <= WidthSum(screens)
    ensures WidthSum(screens) >= 0
  {
    if i == 0 {
      WidthSumNonNegative(screens[1..]);
    } else {
      WidthSumBoundsEachScreen(screens[1..], i - 1);
    }
  }

  lemma {:induction false} WidthSumNonNegative(screens: seq<Rect>)
    requires forall k :: 0 <= k < |screens| ==> screens[k].width >= 0
    ensures WidthSum(screens) >= 0
  {
    if screens != [] {
      WidthSumNonNegative(screens[1..]);
    }
  }

  /** The index of the screen Screen.FromPoint returns for `p`. */
  function Resolve(screens: seq<Rect>, fromPoint: Point -> nat, p: Point): (s: nat)
    requires |screens| > 0
    ensures s < |screens|
  {
    fromPoint(p) % |screens|
  }

  /** Whether the point 50 pixels to the left (or right) of `p` lies on screen `s`. */
  predicate IsSameScreen(screens: seq<Rect>, fromPoint: Point -> nat, p: Point, s: nat, isLeft: bool)
    requires |screens| > 0
  {
    Resolve(screens, fromPoint, Point(p.x + ProbeDistance * (if isLeft then -1 else 1), p.y)) == s
  }

  /** The right-edge test. */
  predicate AtRightEdge(screens: seq<Rect>, fromPoint: Point -> nat, p: Point, s: nat)
    requires |screens| > 0 && s < |screens|
  {
    p.x >= screens[s].Right() - 1 && IsSameScreen(screens, fromPoint, p, s, false)
  }

  /** The left-edge test as written: it compares the y coordinate with the
      screen's left bound. */
  predicate AtLeftEdge(screens: seq<Rect>, fromPoint: Point -> nat, p: Point, s: nat)
    requires |screens| > 0 && s < |screens|
  {
    p.y <= screens[s].left && IsSameScreen(screens, fromPoint, p, s, true)
  }

  /** The new x after the horizontal test, if it fired. */
  function StepX(lrLoop: bool, widthSum: int, screens: seq<Rect>, fromPoint: Point -> nat,
                 p: Point, s: nat): Option<int>
    requires |screens| > 0 && s < |screens|
  {
    if !lrLoop then None
    else if AtRightEdge(screens, fromPoint, p, s) then Some(p.x - (widthSum - BoundaryOffset))
    else if AtLeftEdge(screens, fromPoint, p, s) then Some(p.x + (widthSum - BoundaryOffset))
    else None
  }

  /** The new y after the vertical test against screen `r`, if it fired. */
  function StepY(udLoop: bool, r: Rect, y: int): Option<int>
  {
    if !udLoop then None
    else if y >= r.Bottom() - 1 then Some(y - (r.height - BoundaryOffset))
    else if y <= r.top then Some(y + (r.height - BoundaryOffset))
    else None
  }

  function OrElse(o: Option<int>, d: int): int
  {
    if o.Some? then o.value else d
  }

  /** The point after the horizontal and vertical shifts, before the fix-up. */
  function Shifted(lrLoop: bool, udLoop: bool, widthSum: int, screens: seq<Rect>,
                   fromPoint: Point -> nat, p: Point): Point
    requires |screens| > 0
  {
    var s := Resolve(screens, fromPoint, p);
    Point(OrElse(StepX(lrLoop, widthSum, screens, fromPoint, p, s), p.x),
          OrElse(StepY(udLoop, screens[s], p.y), p.y))
  }

  /** Where Loop puts the cursor for a mouse event at `p`, or None when it
      leaves the cursor alone. */
  function LoopTarget(lrLoop: bool, udLoop: bool, widthSum: int, screens: seq<Rect>,
                      fromPoint: Point -> nat, p: Point): Option<Point>
    requires |screens| > 0
  {
    var s := Resolve(screens, fromPoint, p);
    if StepX(lrLoop, widthSum, screens, fromPoint, p, s).None? && StepY(udLoop, screens[s], p.y).None? then
      None
    else
      var q := Shifted(lrLoop, udLoop, widthSum, screens, fromPoint, p);
      var after := screens[Resolve(screens, fromPoint, q)];
      Some(if q.y < after.top then Point(q.x, after.top - 1 - BoundaryOffset) else q)
  }

  /** With both loop settings off the cursor never moves. */
  lemma NoWrapWhenDisabled(widthSum: int, screens: seq<Rect>, fromPoint: Point -> nat, p: Point)
    requires |screens| > 0
    ensures LoopTarget(false, false, widthSum, screens, fromPoint, p) == None
  {
  }

  /** The cursor is moved exactly when one of the four edge tests fires on
      the screen under the cursor. */
  lemma CursorMovesIffAnEdgeTestFires(lrLoop: bool, udLoop: bool, widthSum: int, screens: seq<Rect>,
                                      fromPoint: Point -> nat, p: Point)
    requires |screens| > 0
    ensures var r := screens[Resolve(screens, fromPoint, p)];
            LoopTarget(lrLoop, udLoop, widthSum, screens, fromPoint, p).Some? <==>
              ((lrLoop && ((p.x >= r.Right() - 1 &&
                              Resolve(screens, fromPoint, Point(p.x + 50, p.y)) == Resolve(screens, fromPoint, p))
                           || (p.y <= r.left &&
                              Resolve(screens, fromPoint, Point(p.x - 50, p.y)) == Resolve(screens, fromPoint, p))))
               || (udLoop && (p.y >= r.Bottom() - 1 || p.y <= r.top)))
  {
  }

  /** At the right edge, with the probe still on the same screen, x moves
      left by the desktop width less the offset; the right test wins over
      the left one. */
  lemma RightWrap(lrLoop: bool, udLoop: bool, widthSum: int, screens: seq<Rect>,
                  fromPoint: Point -> nat, p: Point)
    requires |screens| > 0 && lrLoop
    requires AtRightEdge(screens, fromPoint, p, Resolve(screens, fromPoint, p))
    ensures LoopTarget(lrLoop, udLoop, widthSum, screens, fromPoint, p).Some?
    ensures LoopTarget(lrLoop, udLoop, widthSum, screens, fromPoint, p).value.x
            == p.x - widthSum + BoundaryOffset
  {
  }

  /** The left test, reached only when the right one fails, moves x right by
      the desktop width less the offset. */
  lemma LeftWrapAsWritten(lrLoop: bool, udLoop: bool, widthSum: int, screens: seq<Rect>,
                          fromPoint: Point -> nat, p: Point)
    requires |screens| > 0 && lrLoop
    requires !AtRightEdge(screens, fromPoint, p, Resolve(screens, fromPoint, p))
    requires AtLeftEdge(screens, fromPoint, p, Resolve(screens, fromPoint, p))
    ensures LoopTarget(lrLoop, udLoop, widthSum, screens, fromPoint, p).Some?
    ensures LoopTarget(lrLoop, udLoop, widthSum, screens, fromPoint, p).value.x
            == p.x + widthSum - BoundaryOffset
  {
  }

  /** With the width sum Setup computes, a right wrap moves the cursor left by
      at least the width of the screen it was on, less the offset. */
  lemma RightWrapMovesPastItsScreen(lrLoop: bool, udLoop: bool, screens: seq<Rect>,
                                    fromPoint: Point -> nat, p: Point)
    requires |screens| > 0 && lrLoop
    requires forall k :: 0 <= k < |screens| ==> screens[k].width >= 0
    requires AtRightEdge(screens, fromPoint, p, Resolve(screens, fromPoint, p))
    ensures LoopTarget(lrLoop, udLoop, WidthSum(screens), screens, fromPoint, p).Some?
    ensures LoopTarget(lrLoop, udLoop, WidthSum(screens), screens, fromPoint, p).value.x
            <= p.x - (screens[Resolve(screens, fromPoint, p)].width - BoundaryOffset)
  {
    WidthSumBoundsEachScreen(screens, Resolve(screens, fromPoint, p));
  }

  /** x is shifted at most once, by the desktop width less the offset; y is
      shifted at most once by the screen height less the offset, or set by
      the fix-up to 4 pixels above the top of the screen it lands on. */
  lemma AtMostOneShiftPerAxis(lrLoop: bool, udLoop: bool, widthSum: int, screens: seq<Rect>,
                              fromPoint: Point -> nat, p: Point)
    requires |screens| > 0
    ensures var t := LoopTarget(lrLoop, udLoop, widthSum, screens, fromPoint, p);
            var r := screens[Resolve(screens, fromPoint, p)];
            var q := Shifted(lrLoop, udLoop, widthSum, screens, fromPoint, p);
            t.Some? ==>
              (t.value.x == p.x || t.value.x == p.x - (widthSum - 3) || t.value.x == p.x + (widthSum - 3))
              && (t.value.y == p.y || t.value.y == p.y - (r.height - 3) || t.value.y == p.y + (r.height - 3)
                  || t.value.y == screens[Resolve(screens, fromPoint, q)].top - 4)
  {
  }

  /** The fix-up: a shifted point above the top of the screen it lands on is
      put at that screen's top minus 4, which is still above the top. A
      shifted point at or below the top is kept. */
  lemma FixUpAboveTop(lrLoop: bool, udLoop: bool, widthSum: int, screens: seq<Rect>,
                      fromPoint: Point -> nat, p: Point)
    requires |screens| > 0
    requires LoopTarget(lrLoop, udLoop, widthSum, screens, fromPoint, p).Some?
    ensures var q := Shifted(lrLoop, udLoop, widthSum, screens, fromPoint, p);
            var top := screens[Resolve(screens, fromPoint, q)].top;
            var t := LoopTarget(lrLoop, udLoop, widthSum, screens, fromPoint, p).value;
            t.x == q.x
            && (q.y < top ==> t.y == top - 4 && t.y < top)
            && (q.y >= top ==> t.y == q.y)
  {
  }

  /** One full-HD monitor at the origin, to which every point resolves. */
  const FullHD: seq<Rect> := [Rect(0, 0, 1920, 1080)]

  function OnlyScreen(p: Point): nat { 0 }

  /** On one monitor: the right edge wraps to x = 2, the bottom edge to
      y = 2, the top edge to y = 1077, and the bottom-right corner to (2, 2). */
  lemma SingleMonitorWraps()
    ensures LoopTarget(true, false, 1920, FullHD, OnlyScreen, Point(1919, 500)) == Some(Point(2, 500))
    ensures LoopTarget(false, true, 1920, FullHD, OnlyScreen, Point(500, 1079)) == Some(Point(500, 2))
    ensures LoopTarget(false, true, 1920, FullHD, OnlyScreen, Point(500, 0)) == Some(Point(500, 1077))
    ensures LoopTarget(true, true, 1920, FullHD, OnlyScreen, Point(1919, 1079)) == Some(Point(2, 2))
  {
  }

  /** On one monitor the left test compares y with the left bound: the left
      edge below the top row does not wrap, while top-row points, the corner
      included, wrap to the right. */
  lemma SingleMonitorLeftTest()
    ensures LoopTarget(true, false, 1920, FullHD, OnlyScreen, Point(0, 500)) == None
    ensures LoopTarget(true, false, 1920, FullHD, OnlyScreen, Point(500, 0)) == Some(Point(2417, 0))
    ensures LoopTarget(true, false, 1920, FullHD, OnlyScreen, Point(10, 0)) == Some(Point(1927, 0))
    ensures LoopTarget(true, false, 1920, FullHD, OnlyScreen, Point(0, 0)) == Some(Point(1917, 0))
  {
  }

  /** The same for every point: with LRLoop alone on one 1920-wide monitor,
      each top-row point left of the right-edge column moves right by 1917,
      and no left-edge point below the top row moves. */
  lemma SingleMonitorTopRowWrapsRight(x: int, y: int)
    requires 0 <= x < 1919 && 0 < y
    ensures LoopTarget(true, false, 1920, FullHD, OnlyScreen, Point(x, 0)) == Some(Point(x + 1917, 0))
    ensures LoopTarget(true, false, 1920, FullHD, OnlyScreen, Point(0, y)) == None
  {
  }

  /** On one monitor of positive size, a point strictly inside never wraps,
      so a cursor that has just wrapped right (to x = 2) is not wrapped back
      unless it is on the top row. */
  lemma SingleMonitorInteriorNeverWraps(r: Rect, lrLoop: bool, udLoop: bool, p: Point)
    requires r.left < p.x < r.Right() - 1 && r.top < p.y < r.Bottom() - 1 && r.left < p.y
    ensures LoopTarget(lrLoop, udLoop, r.width, [r], OnlyScreen, p) == None
  {
  }

  /** The static class MouseLoop, as one object. */
  class MouseLoop {
    const hook: MH.MouseHook
    var udLoop: bool
    var lrLoop: bool
    var screenWidthSum: int
    var pos: Point

    constructor (hook: MH.MouseHook)
      ensures this.hook == hook
      ensures !udLoop && !lrLoop && screenWidthSum == 0 && pos == Point(0, 0)
    {
      this.hook := hook;
      udLoop, lrLoop := false, false;
      screenWidthSum := 0;
      pos := Point(0, 0);
    }

    /** Reads the screens' total width and the two settings, and subscribes
        Loop to the mouse hook when either setting is on. */
    method Setup(screens: seq<Rect>, udSetting: bool, lrSetting: bool)
      requires hook.Valid()
      modifies this`screenWidthSum, this`udLoop, this`lrLoop, hook`hookHandler
      ensures hook.Valid()
      ensures screenWidthSum == WidthSum(screens)
      ensures udLoop == udSetting && lrLoop == lrSetting
      ensures udLoop || lrLoop ==> LoopHandler in hook.hookHandler
      ensures udLoop || lrLoop ==>
                hook.hookHandler == (if LoopHandler in old(hook.hookHandler) then old(hook.hookHandler)
                                     else old(hook.hookHandler) + [LoopHandler])
      ensures !udLoop && !lrLoop ==> hook.hookHandler == old(hook.hookHandler)
    {
      screenWidthSum := WidthSum(screens);
      udLoop := udSetting;
      lrLoop := lrSetting;
      if udLoop || lrLoop {
        hook.AddHandler(LoopHandler);
      }
    }

    /** The PropertyChanged handler Setup installs: `name` is the changed
        setting and `udSetting`/`lrSetting` the settings' current values. */
    method OnSettingChanged(name: string, udSetting: bool, lrSetting: bool)
      requires hook.Valid()
      modifies this`udLoop, this`lrLoop, hook`hookHandler
      ensures hook.Valid()
      ensures name == "UDLoop" ==> udLoop == udSetting && lrLoop == old(lrLoop)
      ensures name == "LRLoop" ==> lrLoop == lrSetting && udLoop == old(udLoop)
      ensures name == "UDLoop" || name == "LRLoop" ==> (LoopHandler in hook.hookHandler <==> udLoop || lrLoop)
      ensures name == "UDLoop" || name == "LRLoop" ==>
                hook.hookHandler ==
                  (if udLoop || lrLoop then
                     (if LoopHandler in old(hook.hookHandler) then old(hook.hookHandler)
                      else old(hook.hookHandler) + [LoopHandler])
                   else MH.Without(old(hook.hookHandler), LoopHandler))
      ensures name != "UDLoop" && name != "LRLoop" ==>
                udLoop == old(udLoop) && lrLoop == old(lrLoop) && hook.hookHandler == old(hook.hookHandler)
    {
      if name == "UDLoop" {
        udLoop := udSetting;
      } else if name == "LRLoop" {
        lrLoop := lrSetting;
      } else {
        return;
      }
      if !udLoop && !lrLoop {
        hook.RemoveHandler(LoopHandler);
      } else {
        hook.AddHandler(LoopHandler);
      }
    }

    /** The LRLoop block of Loop: `screen` is the screen under `pos`. */
    method LoopHorizontally(screens: seq<Rect>, fromPoint: Point -> nat, screen: nat)
      returns (isBoundaryX: bool)
      requires |screens| > 0 && screen < |screens|
      modifies this`pos
      ensures isBoundaryX == StepX(lrLoop, screenWidthSum, screens, fromPoint, old(pos), screen).Some?
      ensures pos == old(pos).(x := OrElse(StepX(lrLoop, screenWidthSum, screens, fromPoint, old(pos), screen),
                                           old(pos).x))
    {
      isBoundaryX := false;
      if lrLoop {
        if pos.x >= screens[screen].Right() - 1 && IsSameScreen(screens, fromPoint, pos, screen, false) {
          pos := pos.(x := pos.x - (screenWidthSum - BoundaryOffset));
          isBoundaryX := true;
        } else if pos.y <= screens[screen].left && IsSameScreen(screens, fromPoint, pos, screen, true) {
          pos := pos.(x := pos.x + (screenWidthSum - BoundaryOffset));
          isBoundaryX := true;
        }
      }
    }

    /** The UDLoop block of Loop: `bounds` is the screen under the cursor. */
    method LoopVertically(bounds: Rect) returns (isBoundaryY: bool)
      modifies this`pos
      ensures isBoundaryY == StepY(udLoop, bounds, old(pos).y).Some?
      ensures pos == old(pos).(y := OrElse(StepY(udLoop, bounds, old(pos).y), old(pos).y))
    {
      isBoundaryY := false;
      if udLoop {
        if pos.y >= bounds.Bottom() - 1 {
          pos := pos.(y := pos.y - (bounds.height - BoundaryOffset));
          isBoundaryY := true;
        } else if pos.y <= bounds.top {
          pos := pos.(y := pos.y + (bounds.height - BoundaryOffset));
          isBoundaryY := true;
        }
      }
    }

    /** The mouse hook subscriber. Returns the new Cursor.Position when it
        sets it. */
    method Loop(state: MH.StateMouse, screens: seq<Rect>, fromPoint: Point -> nat)
      returns (cursor: Option<Point>)
      requires |screens| > 0
      modifies this`pos, hook`isCancel
      ensures cursor == LoopTarget(lrLoop, udLoop, screenWidthSum, screens, fromPoint, Point(state.x, state.y))
      ensures hook.isCancel == (old(hook.isCancel) || cursor.Some?)
      ensures pos == Point(0, 0)
    {
      pos := Point(state.x, state.y);
      var screen := Resolve(screens, fromPoint, pos);

      var isBoundaryX := LoopHorizontally(screens, fromPoint, screen);
      var isBoundaryY := LoopVertically(screens[screen]);

      cursor := None;
      if isBoundaryX || isBoundaryY {
        var screenAfterLoop := Resolve(screens, fromPoint, pos);
        pos := pos.(y := if pos.y < screens[screenAfterLoop].top
                         then screens[screenAfterLoop].top - 1 - BoundaryOffset else pos.y);
        cursor := Some(pos);
        hook.Cancel();
      }

      pos := Point(0, 0);
    }
  }
}
