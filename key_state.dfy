/** The key-state bookkeeping of the main window's view model
    (ViewModels/MainWindowViewModel.cs): a 32-bit mask of the keys that are
    down, and the trigger and release masks derived from each keyboard event.

    A 32-bit mask is modelled by the set of positions (0 to 31) of its set
    bits: `|=` is union, `&` intersection, `a & ~b` difference, and `^=` with a
    single bit adds the position when absent and removes it when present.
    A key is the int value of a System.Windows.Forms.Keys. */
module MainWindowViewModel {
  import KeyHook

  /** The stroke kinds the view model switches on. */
  datatype Stroke = KeyDown | SysKeyDown | KeyUp | SysKeyUp | Unknown {
    predicate IsDownStroke() { this == KeyDown || this == SysKeyDown }
    predicate IsUpStroke() { this == KeyUp || this == SysKeyUp }
  }

  /** Keys.Capital (Caps Lock) and Keys.Insert. */
  const Capital: int := 0x14
  const Insert: int := 0x2D

  /** The positions of the set bits of a uint. */
  type Mask = set<nat>

  /** Every position is a bit of a 32-bit word. */
  predicate InWord(m: Mask)
  {
    forall j :: j in m ==> j < 32
  }

  /** The bit `1 << (int)key` sets. C# uses the low five bits of the count of
      a 32-bit shift, which is the count modulo 32 (also for a negative
      count), so keys 32 apart share a bit. */
  function Slot(key: int): (j: nat)
    ensures j < 32
  {
    key % 32
  }

  /** `m ^ (1 << j)`. */
  function Toggle(m: Mask, j: nat): (r: Mask)
    ensures j in r <==> j !in m
    ensures forall i :: i != j ==> (i in r <==> i in m)
  {
    if j in m then m - {j} else m + {j}
  }

  /** An event changes the masks unless key management is cancelled or the
      stroke is unknown. */
  predicate Handled(canceled: bool, stroke: Stroke)
  {
    !canceled && !stroke.Unknown?
  }

  /** keyDown after one keyboard event: a down stroke ORs the key's bit in,
      an up stroke XORs it. */
  function NextDown(down: Mask, canceled: bool, stroke: Stroke, key: int): Mask
  {
    if !Handled(canceled, stroke) then down
    else if stroke.IsDownStroke() then down + {Slot(key)}
    else Toggle(down, Slot(key))
  }

  /** keyTrigger, `keyDown & ~oldKeyDown`: the bits set now that were clear. */
  function Rising(before: Mask, after: Mask): Mask
  {
    after - before
  }

  /** keyRelease, `~keyDown & oldKeyDown`: the bits clear now that were set. */
  function Falling(before: Mask, after: Mask): Mask
  {
    before - after
  }

  /** Whether handling the event asks the keyboard hook to swallow it. */
  predicate RequestsCancel(canceled: bool, stroke: Stroke, key: int)
  {
    Handled(canceled, stroke) && (key == Capital || key == Insert)
  }

  /** The masks never grow beyond 32 bits. */
  lemma NextDownInWord(down: Mask, canceled: bool, stroke: Stroke, key: int)
    requires InWord(down)
    ensures InWord(NextDown(down, canceled, stroke, key))
    ensures InWord(Rising(down, NextDown(down, canceled, stroke, key)))
    ensures InWord(Falling(down, NextDown(down, canceled, stroke, key)))
  {
  }

  /** A down stroke sets the key's bit and leaves every other bit as it was. */
  lemma DownSetsOnlyItsBit(down: Mask, stroke: Stroke, key: int, j: nat)
    requires stroke.IsDownStroke()
    ensures Slot(key) in NextDown(down, false, stroke, key)
    ensures j != Slot(key) ==> (j in NextDown(down, false, stroke, key) <==> j in down)
  {
  }

  /** A down stroke for a key that is already down is not a new press. */
  lemma RepeatedDownIsIdempotent(down: Mask, stroke: Stroke, key: int)
    requires stroke.IsDownStroke() && Slot(key) in down
    ensures NextDown(down, false, stroke, key) == down
    ensures Rising(down, NextDown(down, false, stroke, key)) == {}
    ensures Falling(down, NextDown(down, false, stroke, key)) == {}
  {
  }

  /** An up stroke flips the key's bit, whichever way it stood, and no other. */
  lemma UpTogglesItsBit(down: Mask, stroke: Stroke, key: int, j: nat)
    requires stroke.IsUpStroke()
    ensures Slot(key) in NextDown(down, false, stroke, key) <==> Slot(key) !in down
    ensures j != Slot(key) ==> (j in NextDown(down, false, stroke, key) <==> j in down)
  {
  }

  /** Because the up stroke XORs, an up stroke for a key that is not down
      marks it down and reports a press. */
  lemma UpOfReleasedKeyPressesIt(down: Mask, stroke: Stroke, key: int)
    requires stroke.IsUpStroke() && Slot(key) !in down
    ensures Slot(key) in NextDown(down, false, stroke, key)
    ensures Rising(down, NextDown(down, false, stroke, key)) == {Slot(key)}
  {
  }

  /** The trigger and release masks split the bits that changed; the first
      lies inside the new mask and the second outside it. */
  lemma EdgesSplitChange(before: Mask, after: Mask, j: nat)
    ensures j in Rising(before, after) + Falling(before, after) <==> (j in after <==> j !in before)
    ensures Rising(before, after) !! Falling(before, after)
    ensures Rising(before, after) <= after
    ensures Falling(before, after) !! after
  {
  }

  /** Each event moves at most the key's own bit, and never both ways. */
  lemma EdgesAtMostTheKeysBit(down: Mask, canceled: bool, stroke: Stroke, key: int)
    requires Handled(canceled, stroke)
    ensures Rising(down, NextDown(down, canceled, stroke, key)) <= {Slot(key)}
    ensures Falling(down, NextDown(down, canceled, stroke, key)) <= {Slot(key)}
    ensures Rising(down, NextDown(down, canceled, stroke, key)) == {}
            || Falling(down, NextDown(down, canceled, stroke, key)) == {}
    ensures Rising(down, NextDown(down, canceled, stroke, key)) != {} <==> Slot(key) !in down
    ensures Falling(down, NextDown(down, canceled, stroke, key)) != {}
            <==> stroke.IsUpStroke() && Slot(key) in down
  {
  }

  lemma UnhandledChangesNothing(down: Mask, canceled: bool, stroke: Stroke, key: int)
    requires !Handled(canceled, stroke)
    ensures NextDown(down, canceled, stroke, key) == down
  {
  }

  /** Keys 32 apart are indistinguishable to the masks, while the cancel
      request compares the whole key: no alias of Caps Lock requests it. */
  lemma KeysAliasModulo32(down: Mask, canceled: bool, stroke: Stroke, key: int, n: int)
    ensures Slot(key + 32 * n) == Slot(key)
    ensures NextDown(down, canceled, stroke, key + 32 * n) == NextDown(down, canceled, stroke, key)
    ensures RequestsCancel(canceled, stroke, Capital + 32 * n) <==> Handled(canceled, stroke) && n == 0
  {
  }

  /** One keyboard event, as delivered to ManageKeyEvent. */
  datatype KeyEvent = KeyEvent(stroke: Stroke, key: int)

  /** keyDown after a sequence of events, key management not cancelled. */
  function RunDown(down: Mask, events: seq<KeyEvent>): Mask
    decreases |events|
  {
    if events == [] then down
    else RunDown(NextDown(down, false, events[0].stroke, events[0].key), events[1..])
  }

  lemma {:induction false} RunAppend(down: Mask, a: seq<KeyEvent>, b: seq<KeyEvent>)
    ensures RunDown(down, a + b) == RunDown(RunDown(down, a), b)
    decreases |a|
  {
    if a == [] {
      assert a + b == b;
    } else {
      assert (a + b)[1..] == a[1..] + b;
      RunAppend(NextDown(down, false, a[0].stroke, a[0].key), a[1..], b);
    }
  }

  /** Events for keys of other slots leave a slot's bit alone. */
  lemma {:induction false} RunKeepsUntouchedSlot(down: Mask, events: seq<KeyEvent>, j: nat)
    requires forall i :: 0 <= i < |events| ==> Slot(events[i].key) != j
    ensures j in RunDown(down, events) <==> j in down
    decreases |events|
  {
    if events != [] {
      RunKeepsUntouchedSlot(NextDown(down, false, events[0].stroke, events[0].key), events[1..], j);
    }
  }

  /** A key whose last event in the sequence (counting the keys it aliases)
      was a down stroke is down at the end. */
  lemma RunLastDownIsDown(down: Mask, before: seq<KeyEvent>, e: KeyEvent, after: seq<KeyEvent>)
    requires e.stroke.IsDownStroke()
    requires forall i :: 0 <= i < |after| ==> Slot(after[i].key) != Slot(e.key)
    ensures Slot(e.key) in RunDown(down, before + [e] + after)
  {
    RunAppend(down, before + [e], after);
    RunAppend(down, before, [e]);
    assert RunDown(RunDown(down, before), [e]) == NextDown(RunDown(down, before), false, e.stroke, e.key);
    RunKeepsUntouchedSlot(RunDown(down, before + [e]), after, Slot(e.key));
  }

  /** A key pressed and released once, with no other event on its bit, ends
      up, and the release is reported by the last event. */
  lemma PressReleaseEndsUp(down: Mask, press: Stroke, release: Stroke, key: int)
    requires press.IsDownStroke() && release.IsUpStroke()
    ensures Slot(key) !in RunDown(down, [KeyEvent(press, key), KeyEvent(release, key)])
    ensures Falling(NextDown(down, false, press, key),
                    RunDown(down, [KeyEvent(press, key), KeyEvent(release, key)])) == {Slot(key)}
  {
    var events := [KeyEvent(press, key), KeyEvent(release, key)];
    var pressed := NextDown(down, false, press, key);
    var released := NextDown(pressed, false, release, key);
    assert events[1..] == [KeyEvent(release, key)];
    assert RunDown(pressed, [KeyEvent(release, key)]) == RunDown(released, []);
    assert RunDown(down, events) == released;
    assert Slot(key) in Falling(pressed, released);
  }

  /** The view model's key-state fields. */
  class MainWindowViewModel {
    var keyDown: Mask
    var keyTrigger: Mask
    var keyRelease: Mask
    var isKeyManageCanceled: bool

    ghost predicate Valid()
      reads this
    {
      InWord(keyDown) && InWord(keyTrigger) && InWord(keyRelease)
    }

    constructor ()
      ensures Valid() && !isKeyManageCanceled
      ensures keyDown == {} && keyTrigger == {} && keyRelease == {}
    {
      keyDown, keyTrigger, keyRelease := {}, {}, {};
      isKeyManageCanceled := false;
    }

    /** `(keyDown & (1 << (int)key)) != 0`. */
    predicate IsDown(key: int)
      reads this
    {
      Slot(key) in keyDown
    }

    predicate IsTrigger(key: int)
      reads this
    {
      Slot(key) in keyTrigger
    }

    predicate IsRelease(key: int)
      reads this
    {
      Slot(key) in keyRelease
    }

    /** Each query tests the bit `key mod 32` of its mask, so keys 32 apart
        answer alike. */
    lemma QueriesTestKeyModulo32(key: int, n: int)
      ensures IsDown(key) <==> key % 32 in keyDown
      ensures IsTrigger(key) <==> key % 32 in keyTrigger
      ensures IsRelease(key) <==> key % 32 in keyRelease
      ensures IsDown(key + 32 * n) == IsDown(key)
      ensures IsTrigger(key + 32 * n) == IsTrigger(key)
      ensures IsRelease(key + 32 * n) == IsRelease(key)
    {
    }

    /** The handler of the keyboard hook's events. Showing the key's name and
        bracket completion (an empty method) follow the mask update; then
        Caps Lock and Insert ask `hook` to swallow the event. */
    method ManageKeyEvent(stroke: Stroke, key: int, hook: KeyHook.KeyHook)
      requires Valid()
      modifies this`keyDown, this`keyTrigger, this`keyRelease, hook`isCancel
      ensures Valid()
      ensures keyDown == NextDown(old(keyDown), isKeyManageCanceled, stroke, key)
      ensures Handled(isKeyManageCanceled, stroke) ==>
                keyTrigger == Rising(old(keyDown), keyDown) && keyRelease == Falling(old(keyDown), keyDown)
      ensures !Handled(isKeyManageCanceled, stroke) ==>
                keyTrigger == old(keyTrigger) && keyRelease == old(keyRelease)
      ensures Handled(isKeyManageCanceled, stroke) && stroke.IsDownStroke() ==> IsDown(key)
      ensures hook.isCancel == (old(hook.isCancel) || RequestsCancel(isKeyManageCanceled, stroke, key))
    {
      if isKeyManageCanceled {
        return;
      }
      var oldKeyDown := keyDown;
      match stroke {
        case KeyDown | SysKeyDown =>
          keyDown := keyDown + {Slot(key)};
        case KeyUp | SysKeyUp =>
          keyDown := Toggle(keyDown, Slot(key));
        case Unknown =>
          return;
      }
      keyTrigger := keyDown - oldKeyDown;
      keyRelease := oldKeyDown - keyDown;
      if key == Capital {
        hook.Cancel();
      } else if key == Insert {
        hook.Cancel();
      }
    }
  }
}
