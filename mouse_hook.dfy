/** The mouse side of HIDUtilities' hook plumbing (Models/MouseHook.cs): the
    classification of a low-level mouse message into a `Stroke`, the
    duplicate-free subscriber list behind `hookEvent`, and the static hook's
    handle, cancel flag and last recorded `state`.

    SetWindowsHookEx, UnhookWindowsHookEx and CallNextHookEx are OS calls:
    their results are parameters. A subscriber is identified by a number;
    two subscribers with the same number are equal delegates. */
module MouseHook {
  import opened HookErrors

  /** C# `uint`. */
  newtype uint32 = x: int | 0 <= x < 0x1_0000_0000

  /** The window messages GetStroke knows. */
  const WM_MOUSEMOVE: uint32 := 0x0200
  const WM_LBUTTONDOWN: uint32 := 0x0201
  const WM_LBUTTONUP: uint32 := 0x0202
  const WM_RBUTTONDOWN: uint32 := 0x0204
  const WM_RBUTTONUP: uint32 := 0x0205
  const WM_MBUTTONDOWN: uint32 := 0x0207
  const WM_MBUTTONUP: uint32 := 0x0208
  const WM_MOUSEWHEEL: uint32 := 0x020A
  const WM_XBUTTONDOWN: uint32 := 0x020B
  const WM_XBUTTONUP: uint32 := 0x020C

  datatype Stroke =
    | Move
    | LeftDown | LeftUp
    | RightDown | RightUp
    | MiddleDown | MiddleUp
    | WheelDown | WheelUp
    | X1Down | X1Up
    | X2Down | X2Up
    | Unknown

  /** `mouseData >> 16`: the wheel delta or the X button number. */
  function HighWord(mouseData: uint32): (w: uint32)
    ensures w < 0x10000
    ensures mouseData == w * 0x10000 + mouseData % 0x10000
  {
    mouseData / 0x10000
  }

  /** The cast `(short)w` of a 16-bit word: two's complement. */
  function ToShort(w: uint32): (v: int)
    requires w < 0x10000
    ensures -0x8000 <= v < 0x8000
    ensures (v - w as int) % 0x10000 == 0
  {
    if w < 0x8000 then w as int else w as int - 0x10000
  }

  /** An X button message's stroke: button 1, button 2, or unknown. */
  function XButton(mouseData: uint32, first: Stroke, second: Stroke): Stroke
  {
    match HighWord(mouseData)
    case 1 => first
    case 2 => second
    case _ => Unknown
  }

  /** The stroke of message `msg`; `mouseData` is consulted only for the
      wheel and X button messages. */
  function GetStroke(msg: uint32, mouseData: uint32): (r: Stroke)
    ensures msg == WM_MOUSEMOVE <==> r == Move
    ensures msg == WM_LBUTTONDOWN <==> r == LeftDown
    ensures msg == WM_LBUTTONUP <==> r == LeftUp
    ensures msg == WM_RBUTTONDOWN <==> r == RightDown
    ensures msg == WM_RBUTTONUP <==> r == RightUp
    ensures msg == WM_MBUTTONDOWN <==> r == MiddleDown
    ensures msg == WM_MBUTTONUP <==> r == MiddleUp
    // The wheel turned away from the user: a positive signed high word.
    ensures r == WheelUp <==> (msg == WM_MOUSEWHEEL && 0x1_0000 <= mouseData < 0x8000_0000)
    // Zero and negative deltas both count as down.
    ensures r == WheelDown <==> (msg == WM_MOUSEWHEEL && (mouseData < 0x1_0000 || 0x8000_0000 <= mouseData))
    ensures r == X1Down <==> (msg == WM_XBUTTONDOWN && 0x1_0000 <= mouseData < 0x2_0000)
    ensures r == X2Down <==> (msg == WM_XBUTTONDOWN && 0x2_0000 <= mouseData < 0x3_0000)
    ensures r == X1Up <==> (msg == WM_XBUTTONUP && 0x1_0000 <= mouseData < 0x2_0000)
    ensures r == X2Up <==> (msg == WM_XBUTTONUP && 0x2_0000 <= mouseData < 0x3_0000)
    ensures r == Unknown <==>
              (!(msg in {WM_MOUSEMOVE, WM_LBUTTONDOWN, WM_LBUTTONUP, WM_RBUTTONDOWN, WM_RBUTTONUP,
                         WM_MBUTTONDOWN, WM_MBUTTONUP, WM_MOUSEWHEEL, WM_XBUTTONDOWN, WM_XBUTTONUP})
               || ((msg == WM_XBUTTONDOWN || msg == WM_XBUTTONUP) && !(0x1_0000 <= mouseData < 0x3_0000)))
  {
    match msg
    case 0x0200 => Move
    case 0x0201 => LeftDown
    case 0x0202 => LeftUp
    case 0x0204 => RightDown
    case 0x0205 => RightUp
    case 0x0207 => MiddleDown
    case 0x0208 => MiddleUp
    case 0x020A => if ToShort(HighWord(mouseData)) > 0 then WheelUp else WheelDown
    case 0x020B => XButton(mouseData, X1Down, X2Down)
    case 0x020C => XButton(mouseData, X1Up, X2Up)
    case _ => Unknown
  }

  /** A message and mouse data that produce each known stroke: the one-notch
      wheel delta (120) for the wheel, the button number for X buttons. */
  function Encode(s: Stroke): (m: (uint32, uint32))
    requires s != Unknown
  {
    match s
    case Move => (WM_MOUSEMOVE, 0)
    case LeftDown => (WM_LBUTTONDOWN, 0)
    case LeftUp => (WM_LBUTTONUP, 0)
    case RightDown => (WM_RBUTTONDOWN, 0)
    case RightUp => (WM_RBUTTONUP, 0)
    case MiddleDown => (WM_MBUTTONDOWN, 0)
    case MiddleUp => (WM_MBUTTONUP, 0)
    case WheelUp => (WM_MOUSEWHEEL, 120 * 0x1_0000)
    case WheelDown => (WM_MOUSEWHEEL, (0x1_0000 - 120) * 0x1_0000)
    case X1Down => (WM_XBUTTONDOWN, 0x1_0000)
    case X1Up => (WM_XBUTTONUP, 0x1_0000)
    case X2Down => (WM_XBUTTONDOWN, 0x2_0000)
    case X2Up => (WM_XBUTTONUP, 0x2_0000)
  }

  /** Every stroke but Unknown is produced by some message. */
  lemma GetStrokeIsOnto(s: Stroke)
    requires s != Unknown
    ensures GetStroke(Encode(s).0, Encode(s).1) == s
  {
  }

  /** The low word of mouseData never affects the stroke. */
  lemma LowWordIgnored(msg: uint32, d1: uint32, d2: uint32)
    requires HighWord(d1) == HighWord(d2)
    ensures GetStroke(msg, d1) == GetStroke(msg, d2)
  {
  }

  /** A wheel message is always classified as a wheel stroke, whatever the data. */
  lemma WheelIsNeverUnknown(mouseData: uint32)
    ensures GetStroke(WM_MOUSEWHEEL, mouseData) in {WheelUp, WheelDown}
    ensures HighWord(mouseData) == 0 ==> GetStroke(WM_MOUSEWHEEL, mouseData) == WheelDown
  {
  }

  /** The handler list without its first occurrence of `h`, order kept. On a
      duplicate-free list this removes its only occurrence, which is what
      `Delegate.Remove` leaves when every handler is a single delegate. */
  function Without(handlers: seq<nat>, h: nat): (r: seq<nat>)
    ensures h !in handlers ==> r == handlers
    ensures multiset(r) == multiset(handlers) - multiset{h}
  {
    if handlers == [] then []
    else if handlers[0] == h then
      assert handlers == [h] + handlers[1..];
      handlers[1..]
    else
      assert handlers == [handlers[0]] + handlers[1..];
      [handlers[0]] + Without(handlers[1..], h)
  }

  predicate NoDuplicates(s: seq<nat>)
  {
    forall i, j :: 0 <= i < j < |s| ==> s[i] != s[j]
  }

  /** Removing from a duplicate-free list removes the handler entirely, keeps
      the list duplicate-free and shortens it by one when it was present. */
  lemma {:induction false} WithoutKeepsNoDuplicates(handlers: seq<nat>, h: nat)
    requires NoDuplicates(handlers)
    ensures NoDuplicates(Without(handlers, h))
    ensures h !in Without(handlers, h)
    ensures h in handlers ==> |Without(handlers, h)| == |handlers| - 1
  {
    var r := Without(handlers, h);
    assert |r| == |multiset(r)|;
    if handlers != [] {
      TailKeepsNoDuplicates(handlers);
      if handlers[0] != h {
        var rt := Without(handlers[1..], h);
        WithoutKeepsNoDuplicates(handlers[1..], h);
        WithoutOnlyRemoves(handlers[1..], h, handlers[0]);
        ConsKeepsNoDuplicates(handlers[0], rt);
      }
    }
  }

  /** A duplicate-free list's head does not recur in its tail, which is duplicate-free. */
  lemma TailKeepsNoDuplicates(s: seq<nat>)
    requires NoDuplicates(s) && s != []
    ensures NoDuplicates(s[1..]) && s[0] !in s[1..]
  {
  }

  /** Without introduces no handler. */
  lemma WithoutOnlyRemoves(handlers: seq<nat>, h: nat, x: nat)
    ensures x in Without(handlers, h) ==> x in handlers
  {
    assert x in Without(handlers, h) <==> x in multiset(Without(handlers, h));
    assert x in handlers <==> x in multiset(handlers);
  }

  lemma ConsKeepsNoDuplicates(x: nat, t: seq<nat>)
    requires NoDuplicates(t) && x !in t
    ensures NoDuplicates([x] + t)
  {
  }

  /** Appending a handler that is not present keeps the list duplicate-free. */
  lemma AppendAbsentKeepsNoDuplicates(s: seq<nat>, h: nat)
    requires NoDuplicates(s) && h !in s
    ensures NoDuplicates(s + [h])
  {
  }

  /** What the hook recorded about the last mouse event. */
  datatype StateMouse = StateMouse(stroke: Stroke, x: int, y: int, data: uint32, flags: uint32,
                                   time: uint32, extraInfo: int)

  /** MSLLHOOKSTRUCT, with its POINT flattened into x and y. */
  datatype MsLLHookStruct = MsLLHookStruct(x: int, y: int, mouseData: uint32, flags: uint32,
                                           time: uint32, extraInfo: int)

  /** Whether some subscriber, called with `state`, calls Cancel. */
  predicate AnyRequestsCancel(handlers: seq<nat>, state: StateMouse,
                              requestsCancel: (nat, StateMouse) -> bool)
  {
    exists i :: 0 <= i < |handlers| && requestsCancel(handlers[i], state)
  }

  /** The static class MouseHook, as one object. */
  class MouseHook {
    var hHook: int
    var isCancel: bool
    // The invocation list of hookHandler, empty when it is null.
    var hookHandler: seq<nat>
    var state: StateMouse

    ghost predicate Valid()
      reads this
    {
      NoDuplicates(hookHandler)
    }

    constructor ()
      ensures Valid()
      ensures hHook == 0 && !isCancel && hookHandler == []
      ensures state == StateMouse(Move, 0, 0, 0, 0, 0, 0)
    {
      hHook := 0;
      isCancel := false;
      hookHandler := [];
      state := StateMouse(Move, 0, 0, 0, 0, 0, 0);
    }

    /** The `add` accessor of hookEvent: a handler already subscribed is not added again. */
    method AddHandler(value: nat)
      requires Valid()
      modifies this`hookHandler
      ensures Valid()
      ensures value in old(hookHandler) ==> hookHandler == old(hookHandler)
      ensures value !in old(hookHandler) ==> hookHandler == old(hookHandler) + [value]
      ensures value in hookHandler
    {
      if value in hookHandler {
        return;
      }
      AppendAbsentKeepsNoDuplicates(hookHandler, value);
      hookHandler := hookHandler + [value];
    }

    /** The `remove` accessor: a handler not subscribed is left alone. */
    method RemoveHandler(value: nat)
      requires Valid()
      modifies this`hookHandler
      ensures Valid()
      ensures hookHandler == Without(old(hookHandler), value)
      ensures value !in hookHandler
      ensures forall h :: h != value ==> (h in hookHandler <==> h in old(hookHandler))
    {
      if value !in hookHandler {
        return;
      }
      WithoutKeepsNoDuplicates(hookHandler, value);
      hookHandler := Without(hookHandler, value);
      forall h | h != value
        ensures h in hookHandler <==> h in old(hookHandler)
      {
        assert h in hookHandler <==> h in multiset(hookHandler);
        assert h in old(hookHandler) <==> h in multiset(old(hookHandler));
      }
    }

    /** Asks the hook procedure to swallow the event it is dispatching. */
    method Cancel()
      modifies this`isCancel
      ensures isCancel
    {
      isCancel := true;
    }

    /** `handle` is what SetWindowsHookEx returned; it replaces hHook before
        it is checked, and a zero handle throws. */
    method Start(handle: int) returns (r: Outcome)
      modifies this`hHook
      ensures hHook == handle
      ensures r == (if handle == 0 then Thrown(SetHookFailed) else Done)
    {
      hHook := handle;
      if hHook == 0 {
        return Thrown(SetHookFailed);
      }
      r := Done;
    }

    /** `unhooked` is what UnhookWindowsHookEx would return; it is consulted
        only when a hook is installed. */
    method Stop(unhooked: bool) returns (r: Outcome)
      modifies this`hHook
      ensures old(hHook) == 0 ==> hHook == 0 && r == Done
      ensures old(hHook) != 0 && unhooked ==> hHook == 0 && r == Done
      ensures old(hHook) != 0 && !unhooked ==> hHook == old(hHook) && r == Thrown(UnhookFailed)
      ensures r == Done <==> hHook == 0
    {
      r := Done;
      if hHook != 0 {
        if !unhooked {
          return Thrown(UnhookFailed);
        }
        hHook := 0;
      }
    }

    /** The hook procedure. For a positive nCode it records the event in
        `state` and invokes every subscriber with it;
        `requestsCancel(h, state)` says whether subscriber h calls Cancel.
        A pending cancel is consumed and the event swallowed (return 1);
        otherwise the result of CallNextHookEx, `nextHook`, is returned. */
    method MouseHookProc(nCode: int, msg: uint32, s: MsLLHookStruct,
                         requestsCancel: (nat, StateMouse) -> bool, nextHook: int)
      returns (ret: int)
      modifies this`state, this`isCancel
      ensures nCode > 0 ==>
                state == StateMouse(GetStroke(msg, s.mouseData), s.x, s.y, s.mouseData, s.flags,
                                    s.time, s.extraInfo)
      ensures nCode > 0 ==> !isCancel
      ensures nCode > 0 ==>
                ret == (if old(isCancel) || AnyRequestsCancel(hookHandler, state, requestsCancel)
                        then 1 else nextHook)
      ensures nCode <= 0 ==> state == old(state) && isCancel == old(isCancel) && ret == nextHook
    {
      if nCode > 0 {
        state := state.(stroke := GetStroke(msg, s.mouseData));
        state := state.(x := s.x);
        state := state.(y := s.y);
        state := state.(data := s.mouseData);
        state := state.(flags := s.flags);
        state := state.(time := s.time);
        state := state.(extraInfo := s.extraInfo);

        if AnyRequestsCancel(hookHandler, state, requestsCancel) {
          Cancel();
        }

        if isCancel {
          isCancel := false;
          return 1;
        }
      }
      ret := nextHook;
    }
  }
}
