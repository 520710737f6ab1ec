# HIDUtilities hook core in Dafny

HIDUtilities is a Windows tray utility. It installs low-level keyboard and
mouse hooks, keeps track of which keys are down, and can make the mouse
cursor wrap around the edges of the desktop. This project models the
sequential logic inside that hook plumbing and proves properties of it:

- `MainWindowViewModel` (key_state.dfy) models the key-state machine of the
  main window's view model. It keeps a 32-bit `keyDown` mask, where a down
  stroke ORs the key's bit in and an up stroke XORs it. It also keeps the
  `keyTrigger` and `keyRelease` edge masks, the `IsDown`/`IsTrigger`/`IsRelease`
  queries, and the request to swallow Caps Lock and Insert.
- `KeyHook` (key_hook.dfy) models the `InputKey` value type with its `==`,
  `!=`, `Equals` and `GetHashCode`. It also models the static keyboard hook:
  its handle, its `Start`/`Stop`, and the consume-and-clear cancel flag of
  `KeyHookProc`.
- `MouseHook` (mouse_hook.dfy) models:
  - the classification of a low-level mouse message into a `Stroke`;
  - the `hookEvent` subscriber list, which never holds a duplicate;
  - the static mouse hook's handle, cancel flag and recorded `state`.
- `MouseLoop` (mouse_loop.dfy) models cursor wrap-around:
  - `Setup`, which computes the desktop width and applies the rule that subscribes Loop to the hook;
  - the settings-change handler;
  - `Loop`, which tests the edges of the screen under the cursor, moves the cursor and asks the hook to swallow the event.
- `HookErrors` (hook_errors.dfy) holds the two exceptions the hooks throw, as values.

How the model represents the system:

- The uint key masks are sets of bit positions (0 to 31). OR is union,
  `a & ~b` is difference, and XOR with a single bit adds or removes that
  position.
- A key is the int value of `Keys`. The shift `1 << (int)key` uses the count
  modulo 32 (C# takes the low five bits), so keys 32 apart share a bit.
- Every OS call is a parameter or a result: `SetWindowsHookEx`,
  `UnhookWindowsHookEx`, `CallNextHookEx`, the marshalling of the hook
  structures, `Screen.FromPoint` and `Cursor.Position`.
- Whatever the subscribers of a hook's event do is a parameter that says
  whether they call `Cancel`.
- `Screen.FromPoint` is a total function from points to numbers. The screen
  it picks is the one at that number modulo the screen count. Two screens are
  the same screen exactly when their indices are equal.
- The static classes `KeyHook`, `MouseHook` and `MouseLoop` are each one
  object whose fields are the static fields.

Behaviour of the code the model keeps as written:

- The left-edge test of `Loop` compares the cursor's y coordinate with the
  screen's left bound (MouseLoop.cs line 79). On a single monitor at the
  origin:
  - a point on the left edge wraps only when it is on the top row;
  - every point of the top row left of the right-edge column wraps to the
    right, the top-left corner included.
  - `SingleMonitorLeftTest` and `SingleMonitorTopRowWrapsRight` show this.
- The 50-pixel probe of `IsSameScreen` must land on the same screen as the cursor.
- The vertical fix-up puts a cursor that landed above the top of its new
  screen at that top minus 4, which is still above the top.
- An up stroke XORs the key's bit, so an up stroke for a key that is not down marks it down.
- `Start` does not refuse to run when a hook is already installed; it overwrites the handle.
- A failed `Stop` throws and keeps the handle.

## Model

| member | source | states |
|---|---|---|
| MainWindowViewModel.Slot | HIDUtilities/ViewModels/MainWindowViewModel.cs:196 | The bit a key's shift sets is one of the 32 bits of the mask |
| MainWindowViewModel.Toggle | HIDUtilities/ViewModels/MainWindowViewModel.cs:201 | XOR with a single bit flips that bit and keeps every other bit |
| MainWindowViewModel.NextDownInWord | HIDUtilities/ViewModels/MainWindowViewModel.cs:191-209 | keyDown, keyTrigger and keyRelease stay within 32 bits after any event |
| MainWindowViewModel.DownSetsOnlyItsBit | HIDUtilities/ViewModels/MainWindowViewModel.cs:194-197 | A KEY_DOWN or SYSKEY_DOWN stroke sets the key's bit and leaves every other bit unchanged |
| MainWindowViewModel.RepeatedDownIsIdempotent | HIDUtilities/ViewModels/MainWindowViewModel.cs:196-209 | A down stroke for a key already down leaves keyDown unchanged, and keyTrigger and keyRelease are empty |
| MainWindowViewModel.UpTogglesItsBit | HIDUtilities/ViewModels/MainWindowViewModel.cs:199-202 | A KEY_UP or SYSKEY_UP stroke flips the key's bit whichever way it stood, and no other bit |
| MainWindowViewModel.UpOfReleasedKeyPressesIt | HIDUtilities/ViewModels/MainWindowViewModel.cs:199-208 | An up stroke for a key that is not down marks it down and reports a press in keyTrigger |
| MainWindowViewModel.EdgesSplitChange | HIDUtilities/ViewModels/MainWindowViewModel.cs:191-209 | keyTrigger and keyRelease are disjoint and together are the changed bits; keyTrigger lies in keyDown and keyRelease outside it |
| MainWindowViewModel.EdgesAtMostTheKeysBit | HIDUtilities/ViewModels/MainWindowViewModel.cs:194-209 | After a handled stroke both edge masks hold at most the key's bit and at most one is non-empty; a press is reported iff the bit was clear, a release iff an up stroke found it set |
| MainWindowViewModel.UnhandledChangesNothing | HIDUtilities/ViewModels/MainWindowViewModel.cs:185-206 | An UNKNOWN stroke, or any stroke while key management is cancelled, leaves keyDown unchanged |
| MainWindowViewModel.KeysAliasModulo32 | HIDUtilities/ViewModels/MainWindowViewModel.cs:194-226 | Keys 32 apart change keyDown alike, while only Caps Lock itself, not a key aliasing its bit, requests cancellation |
| MainWindowViewModel.RunAppend | HIDUtilities/ViewModels/MainWindowViewModel.cs:191-202 | Running two event sequences one after the other equals running their concatenation |
| MainWindowViewModel.RunKeepsUntouchedSlot | HIDUtilities/ViewModels/MainWindowViewModel.cs:194-202 | Events for keys of other bits never change a key's bit |
| MainWindowViewModel.RunLastDownIsDown | HIDUtilities/ViewModels/MainWindowViewModel.cs:194-202 | A key whose last event on its bit was a down stroke is down at the end of any event sequence |
| MainWindowViewModel.PressReleaseEndsUp | HIDUtilities/ViewModels/MainWindowViewModel.cs:194-209 | A press followed by a release leaves the key up and reports exactly its bit as released |
| MainWindowViewModel.MainWindowViewModel.constructor | HIDUtilities/ViewModels/MainWindowViewModel.cs:102-106 | All three masks start at zero and key management is not cancelled |
| MainWindowViewModel.MainWindowViewModel.QueriesTestKeyModulo32 | HIDUtilities/ViewModels/MainWindowViewModel.cs:108-110 | IsDown, IsTrigger and IsRelease test bit key mod 32 of their mask, so keys 32 apart answer alike |
| MainWindowViewModel.MainWindowViewModel.ManageKeyEvent | HIDUtilities/ViewModels/MainWindowViewModel.cs:183-227 | keyDown takes the next-state value; when the event is handled, keyTrigger and keyRelease are the rising and falling bits, otherwise they are unchanged; a handled down stroke leaves the key down; the keyboard hook's cancel flag is set exactly for a handled Caps Lock or Insert |
| KeyHook.InputKey.constructor | HIDUtilities/Models/KeyHook.cs:21-25 | The key and input fields take the given values |
| KeyHook.InputKey.Equals | HIDUtilities/Models/KeyHook.cs:50 | The cast throws exactly for a non-null argument that is not an InputKey; null is unequal |
| KeyHook.Equal | HIDUtilities/Models/KeyHook.cs:27-45 | == is true iff both sides are null, or both are non-null with equal key and input |
| KeyHook.NotEqual | HIDUtilities/Models/KeyHook.cs:48 | != is true iff exactly one side is null, or the key or the input differs |
| KeyHook.EqualIsEquivalence | HIDUtilities/Models/KeyHook.cs:27-45 | == is reflexive, symmetric and transitive |
| KeyHook.NotEqualIsNegation | HIDUtilities/Models/KeyHook.cs:48 | != is the negation of == |
| KeyHook.EqualsAgreesWithEqual | HIDUtilities/Models/KeyHook.cs:50 | Equals agrees with == for InputKey or null arguments |
| KeyHook.HashConsistentWithEqual | HIDUtilities/Models/KeyHook.cs:52-59 | GetHashCode, the key XORed with the input, is consistent with ==: equal InputKeys have equal hashes, and with equal inputs equal hashes imply equality |
| KeyHook.KeyHook.constructor | HIDUtilities/Models/KeyHook.cs:86-96 | No hook is installed and no cancel is pending |
| KeyHook.KeyHook.Cancel | HIDUtilities/Models/KeyHook.cs:97 | Cancel sets the cancel flag |
| KeyHook.KeyHook.Start | HIDUtilities/Models/KeyHook.cs:99-108 | The returned hook id is stored, and a zero id throws |
| KeyHook.KeyHook.Stop | HIDUtilities/Models/KeyHook.cs:110-122 | No-op without a hook; a successful unhook resets the id to zero; a failed one throws and keeps it |
| KeyHook.KeyHook.KeyHookProc | HIDUtilities/Models/KeyHook.cs:124-141 | For nCode 0 an InputKey of vkCode and wParam is dispatched, a pending or newly requested cancel is cleared and swallows the event (returns 1), otherwise the next hook's result is returned; for other nCode nothing is dispatched and the flag is untouched |
| MouseHook.HighWord | HIDUtilities/Models/MouseHook.cs:176-197 | mouseData >> 16 is a 16-bit word that, with the low word, rebuilds mouseData |
| MouseHook.ToShort | HIDUtilities/Models/MouseHook.cs:177 | The short cast yields a signed 16-bit value congruent to the word modulo 65536 |
| MouseHook.GetStroke | HIDUtilities/Models/MouseHook.cs:158-201 | Each button message maps to its stroke and back; WHEEL_UP iff the high word is positive as a short, WHEEL_DOWN otherwise including zero; X1/X2 iff the high word is 1/2; UNKNOWN iff the message is unknown or an X button's high word is neither 1 nor 2 |
| MouseHook.GetStrokeIsOnto | HIDUtilities/Models/MouseHook.cs:158-201 | Every stroke except UNKNOWN is produced by some message and mouse data |
| MouseHook.LowWordIgnored | HIDUtilities/Models/MouseHook.cs:176-197 | The low word of mouseData never affects the stroke |
| MouseHook.WheelIsNeverUnknown | HIDUtilities/Models/MouseHook.cs:176-177 | A wheel message always yields a wheel stroke, and a zero delta yields WHEEL_DOWN |
| MouseHook.Without | HIDUtilities/Models/MouseHook.cs:101 | Removing a handler takes exactly one copy of it out of the list, and removing an absent handler changes nothing |
| MouseHook.WithoutKeepsNoDuplicates | HIDUtilities/Models/MouseHook.cs:95-102 | Removing from a duplicate-free list keeps it duplicate-free, leaves the handler absent and shortens the list by one when it was present |
| MouseHook.AppendAbsentKeepsNoDuplicates | HIDUtilities/Models/MouseHook.cs:87-94 | Appending an absent handler keeps the list duplicate-free |
| MouseHook.MouseHook.constructor | HIDUtilities/Models/MouseHook.cs:76-105 | No hook installed, no subscribers, no cancel pending, a zeroed state |
| MouseHook.MouseHook.AddHandler | HIDUtilities/Models/MouseHook.cs:87-94 | Adding a present handler is a no-op, an absent one is appended; the list stays duplicate-free |
| MouseHook.MouseHook.RemoveHandler | HIDUtilities/Models/MouseHook.cs:95-102 | Removing takes the handler out and keeps every other subscriber; the list stays duplicate-free |
| MouseHook.MouseHook.Cancel | HIDUtilities/Models/MouseHook.cs:105-106 | Cancel sets the cancel flag |
| MouseHook.MouseHook.Start | HIDUtilities/Models/MouseHook.cs:110-119 | The returned handle is stored, and a zero handle throws |
| MouseHook.MouseHook.Stop | HIDUtilities/Models/MouseHook.cs:121-132 | No-op without a hook; a successful unhook resets the handle to zero; a failed one throws and keeps it |
| MouseHook.MouseHook.MouseHookProc | HIDUtilities/Models/MouseHook.cs:134-156 | For a positive nCode, state takes the stroke, position, data, flags, time and extra info, and a pending or requested cancel is cleared and swallows the event (returns 1); otherwise, and for nCode at most 0, the next hook's result is returned, and nCode at most 0 leaves state and flag alone |
| MouseLoop.WidthSumBoundsEachScreen | HIDUtilities/Models/MouseLoop.cs:25 | With non-negative widths the sum is at least each screen's width |
| MouseLoop.WidthSumNonNegative | HIDUtilities/Models/MouseLoop.cs:25 | With non-negative widths the sum is non-negative |
| MouseLoop.RightWrapMovesPastItsScreen | HIDUtilities/Models/MouseLoop.cs:25-78 | With the width sum Setup computes and non-negative widths, a right wrap moves x left by at least the width of the cursor's screen less 3 |
| MouseLoop.Resolve | HIDUtilities/Models/MouseLoop.cs:70 | Screen.FromPoint always names one of the screens |
| MouseLoop.NoWrapWhenDisabled | HIDUtilities/Models/MouseLoop.cs:72-99 | With both loop settings off, Loop never moves the cursor |
| MouseLoop.CursorMovesIffAnEdgeTestFires | HIDUtilities/Models/MouseLoop.cs:72-115 | The cursor is moved iff LRLoop holds and the right test or the left test with its 50-pixel same-screen probe fires, or UDLoop holds and the cursor is at the bottom or top of its screen |
| MouseLoop.RightWrap | HIDUtilities/Models/MouseLoop.cs:74-78 | At the right edge with the probe on the same screen, x moves left by the width sum less 3 |
| MouseLoop.LeftWrapAsWritten | HIDUtilities/Models/MouseLoop.cs:79-83 | When the right test fails and y is at most the left bound with the leftward probe on the same screen, x moves right by the width sum less 3 |
| MouseLoop.AtMostOneShiftPerAxis | HIDUtilities/Models/MouseLoop.cs:72-103 | x is shifted at most once by the width sum less 3; y at most once by the height less 3, or set by the fix-up |
| MouseLoop.FixUpAboveTop | HIDUtilities/Models/MouseLoop.cs:99-103 | A shifted point above the top of the screen it lands on gets y = top - 4, still above the top; otherwise it is kept |
| MouseLoop.SingleMonitorWraps | HIDUtilities/Models/MouseLoop.cs:72-106 | On one 1920x1080 monitor the right edge wraps to x = 2, the bottom to y = 2, the top to y = 1077, and the corner to (2, 2) |
| MouseLoop.SingleMonitorLeftTest | HIDUtilities/Models/MouseLoop.cs:79-83 | On one monitor the left edge below the top row does not wrap, while (500, 0), (10, 0) and the corner (0, 0) wrap to the right |
| MouseLoop.SingleMonitorTopRowWrapsRight | HIDUtilities/Models/MouseLoop.cs:72-84 | On one 1920-wide monitor every top-row point left of the right-edge column moves right by 1917, and no left-edge point below the top row moves |
| MouseLoop.SingleMonitorInteriorNeverWraps | HIDUtilities/Models/MouseLoop.cs:72-99 | On one monitor a point strictly inside, off the top row, never wraps, so a wrapped cursor is not wrapped back at once |
| MouseLoop.MouseLoop.constructor | HIDUtilities/Models/MouseLoop.cs:15-20 | Both loop flags off, width sum 0, pos at the origin |
| MouseLoop.MouseLoop.Setup | HIDUtilities/Models/MouseLoop.cs:22-61 | The width sum is the screens' total width, the flags take the settings, and Loop is subscribed once when either flag is on |
| MouseLoop.MouseLoop.OnSettingChanged | HIDUtilities/Models/MouseLoop.cs:31-55 | A UDLoop or LRLoop change updates that flag; Loop is then added once when a flag is on and removed otherwise, every other subscriber kept in order; any other property changes nothing |
| MouseLoop.MouseLoop.LoopHorizontally | HIDUtilities/Models/MouseLoop.cs:72-84 | The LRLoop block shifts x as the horizontal test says and reports whether it did |
| MouseLoop.MouseLoop.LoopVertically | HIDUtilities/Models/MouseLoop.cs:85-97 | The UDLoop block shifts y as the vertical test says and reports whether it did |
| MouseLoop.MouseLoop.Loop | HIDUtilities/Models/MouseLoop.cs:63-109 | The cursor is set to the wrap target exactly when an edge test fired, the mouse hook's cancel is requested exactly then, and pos is reset to the origin |

## Left out

- Platform invoke and marshalling are not modelled: `SetWindowsHookEx`, `UnhookWindowsHookEx`, `CallNextHookEx`, `Marshal.GetHINSTANCE` and `Marshal.PtrToStructure`. Their results are parameters.
- The static `hookCallback` events only keep the callback delegates alive for the garbage collector. They have no behaviour to state.
- `Properties.Settings` persistence and the `PropertyChanged` event source are not modelled. Only the changed property's name and the settings' values are inputs.
- Threading and re-entrant hook callbacks are not modelled. Every callback is a sequential method call.
- The UI and MVVM scaffolding of MainWindowViewModel.cs is not part of this model, including `KeyName` and the empty `AutoCompleteBrackets`.
- The keyboard hook's subscribers are abstract. Which of them call `Cancel` is a parameter of `KeyHookProc`, and ManageKeyEvent's effect on the hook is stated on its own.
- `KeyHook.StateKey` and `KeyHook.Stroke`, which the view model uses, are not part of this model. The stroke is a local enumeration of KEY_DOWN, SYSKEY_DOWN, KEY_UP, SYSKEY_UP and UNKNOWN.
- MouseHook.MouseHook.MouseHookProc: subscribers are invoked as one step. A subscriber that adds or removes handlers during the invocation is not modelled.
- MouseHook.MouseHook.AddHandler: a subscriber is a single delegate identified by a number. Multicast delegates passed to `+=` or `-=` are not modelled.
- MouseLoop.MouseLoop.Loop: coordinates and the width sum are unbounded integers. Overflow of the 32-bit `Point` fields in `pos.X -= ScreenWidthSum - 3` is not modelled.
- MouseLoop.Resolve: `Screen.FromPoint` is any function of the point. The OS rule that it returns the screen nearest the point is not modelled.
