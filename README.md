# screen-spy-viewer: capture collection and session gate in Dafny

This project models the state machine at the centre of screen-spy-viewer, a
React/Electron app that takes screenshots on demand and keeps them in the
browser's `localStorage`. The model covers:

- the screen-capture context: the `captures` list, the `selectedCapture`, the
  hydrate-or-clear effect, the persist effect, the state update of
  `captureScreen`, `deleteCapture` and `setSelectedCapture`;
- the authentication context: demo-account matching in `login`, `logout`, and
  restoring the user on mount;
- the timer panel's `formatTimeDisplay`, its presets and its slider bounds;
- the Electron `save-screenshot` handler's decision logic.

Modules:

- `AppState` (`app_state.dfy`). One class, `Session`, holds the state both
  contexts share: `user`, `captures`, `selected` and `storage` (the key-value
  store, keyed `"screenspy_user"` and `"screenspy_captures"`). A fifth field,
  `hydratedFor`, records the `isAuthenticated` value the hydrate-or-clear effect
  last ran with. This mirrors React's dependency array, so the effect re-runs
  only when authentication flips. `IsAuthenticated()` is `user.Some?`, as
  `isAuthenticated: !!user` is (src/contexts/AuthContext.tsx:82). `Valid()`
  says that a signed-in user is always the one recorded in the store. Every
  operation preserves it, so a reload restores the session.
- `Captures` (`captures.dfy`). The capture record, the acquisition outcome, and
  the `filter`-by-id computation with its properties.
- `Auth` (`auth.dfy`). The user record, `DEMO_USERS` and the `find` used by
  `login`.
- `CaptureTimer` (`capture_timer.dfy`) and `SaveBridge` (`save_bridge.dfy`). The
  pure helpers of the timer panel and of the Electron handler.
- `DecimalText` (`decimal_text.dfy`) and `Wrappers` (`wrappers.dfy`). Number
  spelling, as JavaScript's `toString`, and `Option`.
- `Scenarios` (`scenarios.dfy`). Client code that drives a `Session` through the
  steps the app performs, with the guarantees that follow.

Each React effect is a method the caller runs after the state change that
triggers it; `AfterRender` runs both effects in declaration order.

The model follows the code where it behaves differently from what a reader
might expect:

- A stored captures record that fails to parse leaves the in-memory list as it
  was; it does not empty it.
- The persist effect writes nothing when the list is empty. After the last
  capture is deleted, the store therefore keeps the previous one-entry list, and
  a reload brings that capture back (`Scenarios.DeleteLastThenReload`).
- The selection is an unchecked record, not an id. `setSelectedCapture` accepts
  any record, and nothing checks it against the list. Deleting clears it only
  when the ids match, and signing out clears it.
- Capture ids are `Date.now().toString()`, read separately from the timestamp.
  They are not unique in general, so deletion removes every entry with the id.
- The timer panel reads `startTimer`, `stopTimer`, `isTimerRunning` and
  `remainingTime` from the capture context. That context provides none of them,
  so there is no countdown to model.

## Model

| member | source | states |
|---|---|---|
| `DecimalText.FromNatSound` | src/contexts/ScreenCaptureContext.tsx:99 | the decimal spelling of a number (ids, timer fields) is non-empty, all digits, has no leading zero and denotes the number |
| `DecimalText.FromInt` | src/contexts/ScreenCaptureContext.tsx:99 | `toString` of an integer: at least one character, a leading '-' exactly for negatives, then canonical digits (no leading zero) that denote the magnitude |
| `Captures.NewCapture` | src/contexts/ScreenCaptureContext.tsx:98-103 | the new record's id spells the first clock reading in decimal, its timestamp is the second reading, the image data is kept, and the name is "Screenshot " followed by the locale text |
| `AppState.StoredCaptures` | src/contexts/ScreenCaptureContext.tsx:38-43 | the store yields a list exactly when the captures key is present and its record parses as a list |
| `AppState.StoredCapturesRoundTrip` | src/contexts/ScreenCaptureContext.tsx:38-56 | a list written under the captures key reads back as that list; a removed key reads as nothing; writes and removals under other keys do not change the read |
| `Captures.RemoveById` | src/contexts/ScreenCaptureContext.tsx:118 | an entry survives the filter iff it was in the list and its id differs from the deleted id; the list never grows |
| `Captures.RemoveByIdAppend` | src/contexts/ScreenCaptureContext.tsx:118 | filtering distributes over concatenation, so survivors keep their relative order |
| `Captures.RemoveByIdCount` | src/contexts/ScreenCaptureContext.tsx:118 | every entry with the id is gone; every other entry keeps its exact multiplicity |
| `Captures.RemoveByIdUnchangedIff` | src/contexts/ScreenCaptureContext.tsx:118 | deletion leaves the list equal iff no entry carries the id (an absent id is a no-op) |
| `Captures.RemoveByIdIdempotent` | src/contexts/ScreenCaptureContext.tsx:118 | deleting the same id twice equals deleting it once |
| `Captures.RemoveByIdCommute` | src/contexts/ScreenCaptureContext.tsx:118 | deletions of two ids commute |
| `Auth.Find` | src/contexts/AuthContext.tsx:50-52 | `find` returns a match iff some account matches (name equal ignoring case, password equal); the result is the first matching account |
| `Auth.FindDemoAccount` | src/contexts/AuthContext.tsx:27-52 | `DEMO_USERS.find(...)`: an account found is one of the demo accounts, matches the credentials, and its password is "password" |
| `Auth.LoginAcceptsExactly` | src/contexts/AuthContext.tsx:28-52 | a login succeeds iff the lower-cased name is "demo" or "user" and the password is exactly "password" |
| `Auth.LoginNameIsCanonical` | src/contexts/AuthContext.tsx:54-58 | the account found carries the canonical demo spelling, which equals the typed name lower-cased |
| `Auth.LoginIgnoresNameCase` | src/contexts/AuthContext.tsx:50-56 | "DeMo" and "USER" with the right password find the accounts "demo" and "user" |
| `Auth.LoginRejects` | src/contexts/AuthContext.tsx:50-67 | a wrong-case password or an unknown name finds nothing |
| `AppState.Session.IsAuthenticated` | src/contexts/AuthContext.tsx:82 | signed in exactly when a user is present; with the session invariant, a signed-in user has a user record in the store |
| `AppState.Session.Mount` | src/contexts/AuthContext.tsx:33-46 | mounting starts with an empty list and no selection; a stored user record is restored, an unparseable one is removed and leaves no user, an absent one leaves no user |
| `AppState.Session.Login` | src/contexts/AuthContext.tsx:48-68 | returns true iff a demo account matches; then the user is the account's spelling with the given time and is stored under the user key; otherwise user and store are unchanged |
| `AppState.Session.Logout` | src/contexts/AuthContext.tsx:70-75 | the user becomes none and both the user key and the captures key are erased, nothing else in the store changes |
| `AppState.Session.HydrateOrClear` | src/contexts/ScreenCaptureContext.tsx:37-51 | signed in: a stored list replaces the captures, an absent or unparseable record leaves them; signed out: captures empty and selection cleared |
| `AppState.Session.Persist` | src/contexts/ScreenCaptureContext.tsx:54-58 | the whole list is written under the captures key only when signed in and non-empty; otherwise the store is unchanged |
| `AppState.Session.AfterRender` | src/contexts/ScreenCaptureContext.tsx:36-58 | hydrate-or-clear runs only when authentication flipped since its last run, then persist; no write happens while signed out |
| `AppState.Session.CaptureScreen` | src/contexts/ScreenCaptureContext.tsx:98-114 | success returns the new record and puts exactly it in front of the unchanged old list; failure returns none and leaves the list unchanged; the selection is never touched |
| `AppState.Session.DeleteCapture` | src/contexts/ScreenCaptureContext.tsx:117-123 | the list becomes the filter by id; the selection is cleared iff it had that id, so it never dangles on the deleted id |
| `AppState.Session.SelectCapture` | src/contexts/ScreenCaptureContext.tsx:33 | the selection becomes exactly the given record or none, unchecked |
| `Scenarios.LogoutThenLogin` | src/contexts/AuthContext.tsx:70-75 | logout followed by login leaves an empty list, no selection and no captures key, whether or not the login succeeds |
| `Scenarios.CaptureThenReload` | src/contexts/ScreenCaptureContext.tsx:37-58 | a capture while signed in is written through, and a fresh mount over the same store restores the same user and the same list, newest first |
| `Scenarios.DeleteLastThenReload` | src/contexts/ScreenCaptureContext.tsx:54-58 | deleting the last capture empties the list but the store keeps the old one-entry list, which a reload brings back |
| `Scenarios.SelectThenDelete` | src/contexts/ScreenCaptureContext.tsx:117-121 | selecting a record and deleting its id leaves no selection and no entry with that id |
| `CaptureTimer.JsRemainder` | src/components/CaptureTimer.tsx:32 | JavaScript `%`: agrees with the mathematical remainder for non-negative operands; for negative ones it is the truncated remainder, `a == -((-a) / m) * m + r` with `-m < r <= 0` |
| `CaptureTimer.PadStart` | src/components/CaptureTimer.tsx:33 | `padStart`: a string at least as long as the width is unchanged; otherwise fill characters are prepended up to the width and the original is the suffix |
| `CaptureTimer.FormatTimeDisplay` | src/components/CaptureTimer.tsx:30-34 | a negative count displays with a leading '-' |
| `CaptureTimer.TwoDigitSeconds` | src/components/CaptureTimer.tsx:33 | the seconds field of a count below 60 has exactly two digits, denotes the count, and starts with '0' iff the count is below 10 |
| `CaptureTimer.FormatTimeFields` | src/components/CaptureTimer.tsx:30-34 | for seconds >= 0 the display has the `m:ss` shape, the minutes field is the canonical, unpadded spelling of seconds / 60 and denotes it, the two-digit field = seconds % 60, with a leading '0' iff below 10 |
| `CaptureTimer.FormatTimeRoundTrip` | src/components/CaptureTimer.tsx:30-34 | reading the display back as minutes * 60 + seconds gives the original count |
| `CaptureTimer.FormatTimeExamples` | src/components/CaptureTimer.tsx:30-34 | 5 shows "0:05", 300 shows "5:00", 1800 shows "30:00", -5 shows "-1:-5" |
| `CaptureTimer.PresetsOnSlider` | src/components/CaptureTimer.tsx:11-63 | the presets 30, 60, 300, 900, 1800 and the default 30 lie in 5..1800 on the step-5 grid |
| `CaptureTimer.StartEnabledOnSlider` | src/components/CaptureTimer.tsx:100 | start is disabled exactly for times <= 0, so it is enabled at every slider position |
| `SaveBridge.StripDataUrlPrefix` | electron/main.js:79 | the result is a suffix of the input; a leading png, jpg or jpeg base64 data-URL header is removed exactly once; without one the input is returned unchanged |
| `SaveBridge.PrefixesExclusive` | electron/main.js:79 | no string starts with two of the three headers, so the alternation order does not matter |
| `SaveBridge.StripRemovesOnce` | electron/main.js:79 | a doubled header loses only its first copy |
| `SaveBridge.StripIsAnchored` | electron/main.js:79 | a header that does not start the string is kept |
| `SaveBridge.StripKeepsOtherTypes` | electron/main.js:79 | a gif data URL passes through unchanged |
| `SaveBridge.SaveScreenshot` | electron/main.js:66-89 | a dialog exception gives an error reply; a missing or empty path gives "Save cancelled" and no write; otherwise the stripped data is written to the chosen path, and the reply is success with that path or the write's error message |
| `SaveBridge.SavedOnlyAfterWrite` | electron/main.js:76-88 | a success reply is given iff a write was requested and completed, and it names the written, non-empty path |

## Left out

- Screen acquisition (src/contexts/ScreenCaptureContext.tsx:63-95: `getDisplayMedia`, the video element, canvas drawing, JPEG encoding at quality 0.85, stopping the tracks) is browser API work. The model takes its outcome as an input: the image data, or a failure for denial or a missing 2D context.
- A timer countdown is not modelled. The panel asks the capture context for `startTimer`, `stopTimer`, `isTimerRunning` and `remainingTime`, but the context supplies none of them.
- JSON text is not modelled. A stored value is a `Stored`: a capture list, a user record, or text that fails to parse.
- AppState.Session.Mount: a record under the user key that parses but is not a user (a list, a number or a string) would be installed as the user by the source; the model leaves the user absent.
- AppState.Session.HydrateOrClear: a record under the captures key that parses but is not a list would be installed as the captures value by the source; the model leaves the list as it was. An empty-string record, which the source skips as falsy, is not representable.
- Clock reads (`Date.now()`) and `toLocaleString()` are parameters: two clock readings and an opaque locale text for a capture, one reading for a login.
- Auth.Find: names are compared under ASCII lower-casing, not Unicode `toLowerCase`. The two demo names are ASCII, and this matters only for non-ASCII letters that lower-case to ASCII ones.
- DecimalText.FromNatSound: covers integral values only; JavaScript writes numbers of 10^21 and above in exponent form.
- CaptureTimer.FormatTimeDisplay: takes integers only. JavaScript numbers are doubles, so fractional seconds and `NaN` (what the missing `remainingTime` would display) are not covered.
- Toast notifications and `console.error` are side effects with no state and are left out.
- Exceptions from `localStorage.setItem` (a full quota) are not modelled.
- React scheduling is not modelled: effects run as explicit steps on the current state, with no stale closures. The persist effect runs after every step, which is what its dependency list gives, because rewriting an unchanged list is idempotent.
- The view components (gallery, viewer with its anchor-click download, dashboard, header, login page, capture button), the Electron window lifecycle (electron/main.js:10-63), the native dialog and `fs.writeFileSync`, and the preload forwarder are not part of this model. The dialog's and the write's outcomes are inputs to `SaveBridge.SaveScreenshot`.
