# caffeine-cosmic: a Dafny model of the caffeine-mode core

This project models the core of the COSMIC panel applet "caffeine". The applet keeps the screen from idling for a chosen time:
indefinitely, one hour, two hours, or a number of minutes the user types in. Several applet instances can run at once. One of them
owns the coordination service on the session bus; the others reach it through a proxy. The model covers four parts:

- `State` (src/state.rs): the timer selections, their durations, the three-field `CaffeineState` record with its `-1`
  "no expiry" sentinel, and the clamped remaining-time computation. The clock is the parameter `now`.
- `Backend` (src/backend.rs): the single inhibit-handle slot as a class. `Inhibit` is idempotent and stores a handle only after
  the portal grants one. `Uninhibit` takes the handle out of the slot before closing it. The desktop portal is a class
  `Portal` whose calls succeed or fail nondeterministically. Ghost logs in `Portal` record every call made to it.
- `Service` (src/service.rs): decoding of SetState requests (selection index, zero minutes meaning "none", expiry
  `now + duration`, the reason string). The class `CaffeineService` holds the stored state and a log of emitted
  StateChanged signals. `SetState` drives the backend and `GetState` reads the stored state. Its invariant `Valid` says the
  stored state is active exactly when the backend holds a handle.
- `App` (src/app.rs): the applet model as a class. `Update` reacts to each message and returns the follow-up task as a
  value. The module also holds the digit-only input filter, the (index, minutes) encoding with its fallback to 30, the
  expiry test on each timer tick, the tick-subscription condition and the hours/minutes split of the status line.
- `Session` ties these together: the two-outcome choice of owning the service, and the round trip from an expiring tick
  to the broadcast inactive state.

Fixed-width integers are ranges (`Numeric`). A `u64` stored as `i64` is reinterpreted in two's complement. The sums and
products that could overflow a `u64` wrap around, as a release build does.

The model follows the code as written. Three consequences are easy to miss:
- SetState(true, 3, 0) becomes an active Manual state with no expiry (`ManualZeroRunsWithoutExpiry`), not a 30-minute
  timer. The 30-minute default exists only on the client, when the typed text does not parse as a `u32`
  (`EmptyInputRunsThirtyMinutes`). The text "0" parses to zero.
- The one-second tick is subscribed whenever the cached state is active, with or without an expiry
  (`AppModel.TimerSubscribed`). For a state without expiry it never fires (`TicksOnlyWhileSubscribed`).
- `Active(sel, Some(t))` stores `t as i64`. For `t = 2^64 - 1` that is `-1`, the "no expiry" sentinel (`ActiveSentinel`).

## Model

| member | source | states |
|---|---|---|
| `State.Label` | src/state.rs:15-22 | every selection has a non-empty label, none starting with 'C' |
| `State.LabelInjective` | src/state.rs:15-22 | two selections with the same label are the same selection |
| `State.DurationSecs` | src/state.rs:24-31 | no bound exactly for Infinity and for Manual without minutes; 3600 for OneHour, 7200 for TwoHours, minutes times 60 for Manual |
| `State.Inactive` | src/state.rs:42-48 | the inactive state: not active, selection Infinity, expiry -1 |
| `State.Active` | src/state.rs:50-56 | active, keeps the selection; expiry -1 when none is given, otherwise the `i64` whose `u64` reading is the given expiry, equal to it below 2^63 |
| `State.IsActive` | src/state.rs:58-60 | reports the `active` field unchanged |
| `State.ActiveSentinel` | src/state.rs:50-56 | the stored expiry is -1 exactly when no expiry is given or the expiry is the largest `u64` |
| `State.RemainingSecs` | src/state.rs:62-76 | `None` exactly when inactive or without expiry; otherwise zero exactly when the expiry is not after `now`, and a positive value added to `now` reaches the expiry |
| `State.RemainingNonIncreasing` | src/state.rs:71-75 | as `now` grows the remaining time stays defined or undefined and never increases |
| `State.RemainingClampsAtZero` | src/state.rs:71-75 | at or after the expiry the remaining time is exactly zero |
| `State.RemainingRoundTrip` | src/state.rs:50-76 | an expiry `t < 2^63` stored by `Active` reads back as `t - now` for `now <= t` |
| `State.InactiveHasNoRemaining` | src/state.rs:63-65 | an inactive state has no remaining time for any `now` |
| `Numeric.U64ToI64` | src/state.rs:54 | `t as i64`: unchanged below 2^63, otherwise negative and `t - 2^64` |
| `Numeric.I64ToU64` | src/state.rs:66 | `x as u64`: unchanged when non-negative, otherwise `x + 2^64` |
| `Numeric.WrappingAdd` | src/service.rs:69-75 | `u64` addition: the sum when it fits, else the sum minus 2^64 |
| `Numeric.WrappingMul` | src/state.rs:29 | `u64` multiplication: the product when it fits |
| `Numeric.CastRoundTrip` | src/state.rs:54-66 | the two casts undo each other |
| `Decimal.IsDigit` | src/app.rs:242 | `char::is_ascii_digit`: true exactly for the ten characters '0' to '9' |
| `Decimal.AllDigits` | src/app.rs:242 | the `.chars().all(..)` digit filter: every character of the text is an ASCII digit (so the empty text passes) |
| `Decimal.DigitsValue` | src/app.rs:266 | the value a digit string denotes: below 10 to the power of its length, and zero exactly when every digit is '0' |
| `Decimal.DecimalString` | src/service.rs:81-83 | `{}` formatting: non-empty, all digits, a leading '0' only for zero, one digit exactly below 10 |
| `Decimal.DecimalRoundTrip` | src/service.rs:81-83 | the value of a formatted number is the number |
| `Decimal.DecimalInjective` | src/service.rs:81-83 | different numbers format differently |
| `Backend.Portal.constructor` | src/backend.rs:43-59 | the portal starts with no calls logged and no handle issued |
| `Backend.Portal.NewProxy` | src/backend.rs:43-47 | proxy creation may fail; the attempt and its outcome are logged and nothing else changes |
| `Backend.Portal.Inhibit` | src/backend.rs:51-59 | an inhibit request may fail; on success it grants a new handle; the request, its reason and the grant are logged |
| `Backend.Portal.Close` | src/backend.rs:77-82 | closing a handle may fail; the attempt and its outcome are logged |
| `Backend.CaffeineBackend.constructor` | src/backend.rs:22-27 | a new backend holds no handle |
| `Backend.CaffeineBackend.Inhibit` | src/backend.rs:29-68 | with a handle held: Ok, no portal call, slot unchanged; otherwise Ok exactly when a handle is stored, a failed proxy makes no inhibit request, and a made request carries the reason and the stored handle |
| `Backend.CaffeineBackend.Uninhibit` | src/backend.rs:70-90 | the slot is empty afterwards; with no handle: Ok and no close; with a handle: that handle is closed once and the result is Err exactly when closing failed |
| `Backend.InhibitTwice` | src/backend.rs:35-41 | two inhibits: with a handle held no request at all; after a first success the second succeeds without a request; never two grants |
| `Backend.UninhibitTwice` | src/backend.rs:73-89 | two releases close at most once, and the second returns Ok with the slot empty |
| `Service.DecodeSelection` | src/service.rs:55-60 | 0, 1, 2 decode to Infinity, OneHour, TwoHours and every other index to Manual, in both directions |
| `Service.ManualMinutes` | src/service.rs:62-66 | zero minutes mean none; otherwise the minutes as given |
| `Service.ExpiryAfter` | src/service.rs:69-75 | no expiry exactly for an unbounded duration; otherwise `now + duration` when that fits in a `u64` |
| `Service.Reason` | src/service.rs:77-84 | every reason starts "User enabled "; only manual reasons are longer than 35 characters |
| `Service.ReasonDetermines` | src/service.rs:77-84 | equal reasons mean the same selection and, for Manual, the same minutes |
| `Service.RequestedState` | src/service.rs:54-91 | an accepted activation stores an active state with the decoded selection |
| `Service.RequestedExpiry` | src/service.rs:62-75 | the stored expiry is -1 exactly for index 0 or a manual request of zero minutes; otherwise `now` plus 3600, 7200 or minutes times 60 |
| `Service.RequestedRemaining` | src/service.rs:67-75 | read at `now`, the remaining time of the stored state is the chosen duration |
| `Service.CaffeineService.constructor` | src/service.rs:18-22 | the service holds the given backend and state and has emitted nothing; it is valid when the state is active exactly when the backend holds a handle |
| `Service.CaffeineService.SetState` | src/service.rs:42-111 | always Ok and keeps the invariant; deactivation stores and emits Inactive and empties the slot, closing the held handle; activation with a handle already held keeps it, makes no request, and stores and emits the requested state; a failed inhibit leaves state and signals unchanged; a successful one stores and emits the requested state, and a handle present afterwards from an empty slot is the one granted to this call's single logged request with the request's reason |
| `Service.CaffeineService.GetState` | src/service.rs:113-120 | returns the stored state and changes nothing |
| `App.ParseU32` | src/app.rs:266 | fails on empty text; on digits succeeds exactly below 2^32, with the digits' value |
| `App.ParseFormatted` | src/app.rs:266 | every formatted `u32` parses back to itself |
| `App.ManualMinutesFromInput` | src/app.rs:266 | the parsed minutes, or 30 when parsing fails |
| `App.EncodeSelection` | src/app.rs:261-268 | the service decodes the index back to the selection; minutes are 0 except for Manual, where they come from the text |
| `App.ManualFallback` | src/app.rs:265-267 | on digit text, 30 is used exactly when the text is empty or too large; otherwise the text's value is sent |
| `App.ZeroIsNotFallback` | src/app.rs:266 | "0" is sent as zero minutes |
| `App.TickExpired` | src/app.rs:287-295 | a tick fires exactly for an active state with an expiry not after `now` |
| `App.HoursMinutes` | src/app.rs:413-414 | minutes below 60, and hours and minutes account for all but under a minute of the seconds |
| `App.StatusUnit` | src/app.rs:415-421 | hours from 3600 seconds up, minutes from 60 up to 3599, seconds below 60 |
| `App.StatusText` | src/app.rs:408-425 | the status line is never empty |
| `App.StatusOffExactlyWhenInactive` | src/app.rs:408-425 | the status line reads "Caffeine is off" exactly when the state is inactive |
| `App.AppModel.Init` | src/app.rs:92-101 | Infinity selected, "30" typed, inactive, no popup, no proxy, not hovered |
| `App.AppModel.TimerSubscribed` | src/app.rs:346-357 | the tick runs exactly while the cached state is active |
| `App.AppModel.Update` | src/app.rs:214-343 | per message, the new fields and task; typed text is kept only when all digits; Toggle and TimerTick change no field and dispatch SetState(!active) or, on expiry, SetState(false); StateChanged replaces the cached state only; PopupClosed clears only the matching popup; the text stays digit-only |
| `App.TicksOnlyWhileSubscribed` | src/app.rs:287-357 | a firing tick implies an active, hence subscribed, state; without expiry no tick fires |
| `Session.ResolveRole` | src/app.rs:113-126 | the claiming instance owns a fresh valid service, inactive, with an empty slot and no signals; the others own none |
| `Session.ExpiryDeactivates` | src/app.rs:287-295 | an expiring tick leads the service to store and broadcast Inactive with the slot empty, and the applet caches it and stops ticking |
| `Session.ManualZeroRunsWithoutExpiry` | src/app.rs:261-268 | manual text reading zero is sent as (3, 0) and activates with no expiry, no countdown, no firing tick, status "Manual mode active" |
| `Session.EmptyInputRunsThirtyMinutes` | src/app.rs:266 | empty manual text is sent as (3, 30) and stores expiry `now + 1800`, 1800 seconds remaining |

## Left out

- The session bus: connecting, claiming the name, serving the object and building the proxy (src/app.rs:103-144) are I/O. Only the two-outcome choice is modelled (`Session.ResolveRole`). The `DBusReady` message carries the resulting proxy or none.
- Receiving and deserialising StateChanged signals (src/app.rs:359-392) and the async task runtime are left out. Update returns tasks as values. The messages they deliver (`StateChanged`, `Hover(false)`) are fed back by the caller.
- The portal internals (`InhibitProxy::new`, `inhibit`, `close`) are foreign calls. Each is an operation that may succeed or fail. Error messages are reduced to the three kinds of `BackendError`.
- Concurrency: the lock released between the check and the store in `inhibit` (src/backend.rs:41, 64), and the poisoned-lock branches of the service (src/service.rs:103, 117), arise only with concurrent callers. Everything is modelled sequentially.
- A failed signal emission (src/service.rs:107-109) is only logged by the source. `signals` records every emission attempted.
- `SystemTime::now()` is the parameter `now`. A clock before the epoch (read as 0 by the source) is just `now == 0`.
- Rendering, the popup surface, icons, colours and the hover scale (src/app.rs:18-38, 154-212, 397-498 apart from the status line) are left out. For `TogglePopup`, the popup id is assigned in a runtime callback rather than in update, so `popup` is not set by the model.
- `Numeric.WrappingMul`, `Numeric.WrappingAdd`: overflow is modelled with release-build wrap-around. A debug build would panic instead. Overflow needs a clock near 2^64 seconds, or a manual minutes value beyond what a `u32` can carry.
- `App.StatusText`: its own contract says only that the line is non-empty. What the line means is stated by `App.StatusOffExactlyWhenInactive`, `App.StatusUnit` and `App.HoursMinutes`.
- i18n setup and the entry point (src/main.rs) are bootstrap only. Logging is left out.
