/** Outcomes of installing and removing a low-level Windows hook.
    The C# code throws an exception where the model returns `Thrown`. */
module HookErrors {

  datatype HookError =
    | SetHookFailed     // SetWindowsHookEx returned a zero handle
    | UnhookFailed      // UnhookWindowsHookEx returned false

  datatype Outcome = Done | Thrown(error: HookError)
}
