/** The keyboard side of HIDUtilities' hook plumbing (Models/KeyHook.cs):
    the `InputKey` value type with its equality operators and hash, and the
    static low-level keyboard hook with its handle and its cancel flag.

    C# `int` values that the code only compares and XORs (a virtual-key code,
    a message identifier) are kept as their 32-bit pattern, a `bv32`.
    SetWindowsHookEx, UnhookWindowsHookEx, CallNextHookEx and the marshalling of
    the hook structure are OS calls: their results are parameters. */
module KeyHook {
  import opened HookErrors

  /** The two named members of InputKey.InputType. */
  const WM_KEYDOWN: bv32 := 0x0100
  const WM_KEYUP: bv32 := 0x0101

  /** What Object.Equals makes of its argument: a value, or the
      InvalidCastException of the cast `(InputKey)obj`. */
  datatype CastResult = Value(b: bool) | InvalidCast

  class InputKey {
    var key: bv32
    // An int-backed enum: any wParam may be cast to it, named or not.
    var input: bv32

    constructor (key: bv32, input: bv32)
      ensures this.key == key && this.input == input
    {
      this.key := key;
      this.input := input;
    }

    /** The override of Object.Equals: `this == (InputKey)obj`. */
    function Equals(obj: object?): (r: CastResult)
      reads this, obj
      ensures r == InvalidCast <==> obj != null && !(obj is InputKey)
      ensures obj == null ==> r == Value(false)
    {
      if obj == null then Value(Equal(this, null))
      else if obj is InputKey then Value(Equal(this, obj as InputKey))
      else InvalidCast
    }

    /** The override of GetHashCode: the key XORed with the enum's hash,
        which for an int-backed enum is its value. */
    function GetHashCode(): bv32
      reads this
    {
      key ^ input
    }
  }

  /** `operator ==`: reference equality first (which covers two nulls),
      then false when one side is null, then field-wise comparison. */
  function Equal(i1: InputKey?, i2: InputKey?): (r: bool)
    reads i1, i2
    ensures r <==> ((i1 == null && i2 == null)
                    || (i1 != null && i2 != null && i1.key == i2.key && i1.input == i2.input))
  {
    if i1 == i2 then true
    else if i1 == null || i2 == null then false
    else i1.key == i2.key && i1.input == i2.input
  }

  /** `operator !=`, defined as the negation of `==`. */
  function NotEqual(i1: InputKey?, i2: InputKey?): (r: bool)
    reads i1, i2
    ensures r <==> ((i1 == null) != (i2 == null)
                    || (i1 != null && i2 != null && (i1.key != i2.key || i1.input != i2.input)))
  {
    !Equal(i1, i2)
  }

  lemma EqualIsEquivalence(a: InputKey?, b: InputKey?, c: InputKey?)
    ensures Equal(a, a)
    ensures Equal(a, b) == Equal(b, a)
    ensures Equal(a, b) && Equal(b, c) ==> Equal(a, c)
  {
  }

  lemma NotEqualIsNegation(a: InputKey?, b: InputKey?)
    ensures NotEqual(a, b) != Equal(a, b)
  {
  }

  /** Equals agrees with `==` whenever the argument is an InputKey or null. */
  lemma EqualsAgreesWithEqual(a: InputKey, b: InputKey?)
    ensures a.Equals(b) == Value(Equal(a, b))
  {
  }

  /** Equal keys hash alike; keys with the same input but different key codes never collide. */
  lemma HashConsistentWithEqual(a: InputKey, b: InputKey)
    ensures Equal(a, b) ==> a.GetHashCode() == b.GetHashCode()
    ensures a.input == b.input ==> (a.GetHashCode() == b.GetHashCode() <==> Equal(a, b))
  {
  }

  /** KBDLLHOOKSTRUCT as read from lParam. */
  datatype KeyboardLLHookStruct =
    KeyboardLLHookStruct(vkCode: bv32, scanCode: bv32, flags: bv32, time: bv32, extraInfo: int)

  /** The static class KeyHook, as one object: the hook id returned by
      SetWindowsHookEx (0 when no hook is installed) and the cancel flag. */
  class KeyHook {
    var hHook: int
    var isCancel: bool

    constructor ()
      ensures hHook == 0 && !isCancel
    {
      hHook := 0;
      isCancel := false;
    }

    /** Asks the hook procedure to swallow the event it is dispatching. */
    method Cancel()
      modifies this`isCancel
      ensures isCancel
    {
      isCancel := true;
    }

    /** `hookId` is what SetWindowsHookEx returned. The id is stored before it
        is checked, and a zero id throws. */
    method Start(hookId: int) returns (r: Outcome)
      modifies this`hHook
      ensures hHook == hookId
      ensures r == (if hookId == 0 then Thrown(SetHookFailed) else Done)
    {
      hHook := hookId;
      if hHook == 0 {
        return Thrown(SetHookFailed);
      }
      r := Done;
    }

    /** `unhooked` is what UnhookWindowsHookEx would return; it is consulted
        only when a hook is installed. */
    method Stop(unhooked: bool) returns (r: Outcome)
      modifies this`hHook
      ensures old(hHook) == 0 ==> hHook == 0 && r == Done
      ensures old(hHook) != 0 && unhooked ==> hHook == 0 && r == Done
      ensures old(hHook) != 0 && !unhooked ==> hHook == old(hHook) && r == Thrown(UnhookFailed)
      ensures r == Done <==> hHook == 0
    {
      r := Done;
      if hHook != 0 {
        if !unhooked {
          return Thrown(UnhookFailed);
        }
        hHook := 0;
      }
    }

    /** The hook procedure. When nCode is 0 it builds an InputKey from the
        virtual-key code and wParam and hands it to the subscribers of
        hookEvent; `requestsCancel(key, input)` says whether one of them calls
        Cancel. A pending cancel is consumed and the event swallowed (return 1);
        otherwise the result of CallNextHookEx, `nextHook`, is returned. */
    method KeyHookProc(nCode: int, wParam: bv32, info: KeyboardLLHookStruct,
                       requestsCancel: (bv32, bv32) -> bool, nextHook: int)
      returns (ret: int, dispatched: InputKey?)
      modifies this`isCancel
      ensures nCode == 0 ==> dispatched != null && fresh(dispatched)
                             && dispatched.key == info.vkCode && dispatched.input == wParam
      ensures nCode == 0 ==> !isCancel
      ensures nCode == 0 ==> ret == (if old(isCancel) || requestsCancel(info.vkCode, wParam) then 1 else nextHook)
      ensures nCode != 0 ==> dispatched == null && ret == nextHook && isCancel == old(isCancel)
    {
      dispatched := null;
      if nCode == 0 {
        dispatched := new InputKey(info.vkCode, wParam);
        if requestsCancel(dispatched.key, dispatched.input) {
          Cancel();
        }
        if isCancel {
          isCancel := false;
          return 1, dispatched;
        }
      }
      ret := nextHook;
    }
  }
}
