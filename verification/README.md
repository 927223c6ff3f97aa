# gnome-pomodoro notification dialog, modelled in Dafny

This project models the presentation state machine of gnome-pomodoro's
`src/notification.js` and proves properties about it. Two layers are modelled:

- **`LightboxDialog`** is the modal lightbox. It has five states (OPENED, CLOSED, OPENING,
  CLOSING, FADED_OUT), a modal grab (`_hasModal`) and two fade animations whose
  completions finish a transition.
- **`NotificationDialog`** is the break dialog built on it. It adds:
  - a retry timer that polls for the modal grab and falls back to a resident tray
    notification after `FALLBACK_TIME * FALLBACK_RATE` ticks;
  - a screen-saver subscription, made at most once, that retries `open` when the saver goes away;
  - an input-capture gate that swallows input for `BLOCK_EVENTS_TIME` after opening;
  - an idle watch in two modes, open-when-idle and close-when-active;
  - the lazily created notification, of which there is at most one.

Each layer is written twice:

- **As values.** `LightboxSpec` and `NotificationSpec` are datatypes with one function per
  operation. Each function has a contract stating the transition.
- **As objects.** `Lightbox.LightboxDialog` and `Notification.NotificationDialog` are
  classes whose methods update fields step by step, as the source does. Each method that
  mirrors a spec function is proved to follow it:
  `ensures Snapshot() == NotificationSpec.Close(old(Snapshot()))`.
  Each public method of `NotificationDialog` also keeps that class's invariant `Valid()`.

Properties over whole runs are lemmas about the functions, in `LightboxProperties` and
`NotificationProperties`.

Every foreign answer is an input parameter:
- whether the shell grants the modal grab (`granted`);
- whether the screen saver is active;
- whether the user became idle;
- the event type and keysym seen by the capture handler.

Foreign handles are nonzero numbers drawn from a counter. These are GLib source ids,
signal connection ids, idle-watch ids and the notification. The callbacks still
registered with the main loop, the stage, the screen-saver proxy and the idle monitor form
the set `pending`. Timer ticks, idle notifications and fade completions are explicit
calls.

The constants are the source's:

| constant | value |
|---|---|
| BLOCK_EVENTS_TIME | 600 |
| FALLBACK_TIME | 1000 |
| IDLE_TIME_TO_OPEN | 60000 |
| IDLE_TIME_TO_CLOSE | 600 |
| MIN_DISPLAY_TIME | 1000 |

`FALLBACK_RATE` (the default frame rate) is a positive integer parameter of the dialog.

Modelling assumptions:

- **Superclass calls.** `NotificationDialog.open`, `close` and `destroy` call
  `ModalDialog.ModalDialog.prototype.open/close/destroy` from GNOME Shell. That code is
  not part of this model. These calls are modelled as `LightboxDialog`'s own `open`,
  `close` and `destroy`, which the source describes as based on `ModalDialog` and which
  have the same shape. The lightbox is an object the notification dialog owns
  (composition), not a superclass.
- **Fade completions.** Each animated actor (`_group` and `_dialogLayout`) has one pending
  completion slot. A new tween on the actor replaces that slot.
- **Destroying the lightbox.** Destroying `_group` drops the tweens on it and its
  children, then emits `destroy`.
- **Subscriptions persist.** Idle watches and signal subscriptions stay registered after
  they fire, until removed. A timer ends when its callback returns false.
- **`_tries` at construction.** It is never assigned in `_init`; the model starts it at 0.
  The retry timer only runs after `open` has set it to 1, so the starting value is
  never read.

Four behaviours of the code are worth stating, because a reader might expect otherwise:

- `destroy` leaves the `MIN_DISPLAY_TIME` timer pending. That timer, armed by a
  successful `open`, is kept in no field, so `destroy` cannot cancel it. When it fires
  afterwards, it arms a close-when-active watch (see `MinDisplayTimerOutlivesDestroy`).
- `close` leaves that timer pending too (src/notification.js:351-363 never cancels it).
  When `close` comes within `MIN_DISPLAY_TIME` of a successful `open`, the timer fires
  later and replaces the open-when-idle watch `close` armed with a close-when-active
  watch (src/notification.js:324-327). Reopening on idle then waits until the user has
  been active, and that activity runs `close` again, emitting `closed` a second time
  (see `MinDisplayTimerOutlivesClose`).
- `NotificationDialog.close` emits `closed` at once, not when the fade completes.
- The comment on `FALLBACK_TIME` (src/notification.js:51) calls it the time after which
  the dialog stops trying to open and shows a notification. The code counts ticks
  instead: it falls back on the tick where `_tries` exceeds
  `FALLBACK_TIME * FALLBACK_RATE`. The model follows the count.

## Model

| member | source | states |
|---|---|---|
| LightboxSpec.PushModal | src/notification.js:217-226 | succeeds exactly when the grab is already held or the shell grants it; the shell is asked only when it is not held; on success the grab is held; nothing else changes |
| LightboxSpec.PopModal | src/notification.js:208-215 | afterwards no grab is held; a no-op when none was held; state, fades and signals untouched |
| LightboxSpec.FadeOpen | src/notification.js:150-173 | state becomes OPENING and a fade-in completion replaces whatever was pending on `_group`; grab and signals untouched |
| LightboxSpec.Open | src/notification.js:175-184 | OPENED or OPENING: success, nothing changes, no grab request; otherwise success exactly when the grab is held or granted; a refusal leaves the dialog unchanged; a success yields OPENING with the grab and a pending fade-in |
| LightboxSpec.Close | src/notification.js:186-203 | a no-op on CLOSED or CLOSING; otherwise CLOSING, grab released, fade-out pending on `_group` |
| LightboxSpec.FadeOutDialog | src/notification.js:239-256 | a no-op on CLOSED, CLOSING and FADED_OUT; otherwise the grab is released and a content fade is pending, with the state unchanged |
| LightboxSpec.CompleteGroupTween | src/notification.js:163-201 | the two `_group` completions, the fade-in's at lines 163-172 and the fade-out's at lines 197-201: a pending fade-in ends in OPENED and emits `opened` exactly then; a pending fade-out ends in CLOSED; with nothing pending nothing happens; afterwards no group fade is pending |
| LightboxSpec.CompleteLayoutTween | src/notification.js:247-255 | a pending content fade ends in FADED_OUT; otherwise nothing happens |
| LightboxSpec.Emit | src/notification.js:170 | appends the signal and changes nothing else |
| LightboxSpec.Destroy | src/notification.js:142-148 | both pending fades are dropped and `destroy` is emitted; state and grab are kept |
| Lightbox.LightboxDialog.constructor | src/notification.js:106-108 | a new lightbox is CLOSED, without the grab, with nothing pending |
| Lightbox.LightboxDialog.FadeOpen | src/notification.js:150-173 | the in-place update equals `LightboxSpec.FadeOpen` of the old fields |
| Lightbox.LightboxDialog.Open | src/notification.js:175-184 | result and new fields equal `LightboxSpec.Open` of the old fields |
| Lightbox.LightboxDialog.Close | src/notification.js:186-203 | the new fields equal `LightboxSpec.Close` of the old ones |
| Lightbox.LightboxDialog.PopModal | src/notification.js:208-215 | the new fields equal `LightboxSpec.PopModal` of the old ones |
| Lightbox.LightboxDialog.PushModal | src/notification.js:217-226 | result and new fields equal `LightboxSpec.PushModal` of the old fields |
| Lightbox.LightboxDialog.FadeOutDialog | src/notification.js:239-256 | the new fields equal `LightboxSpec.FadeOutDialog` of the old ones |
| Lightbox.LightboxDialog.CompleteGroupTween | src/notification.js:163-201 | for both `_group` completions (lines 163-172 and 197-201), the new fields and the emitted-`opened` flag equal `LightboxSpec.CompleteGroupTween` of the old fields |
| Lightbox.LightboxDialog.CompleteLayoutTween | src/notification.js:247-255 | the new fields equal `LightboxSpec.CompleteLayoutTween` of the old ones |
| Lightbox.LightboxDialog.Emit | src/notification.js:170 | the new fields equal `LightboxSpec.Emit` of the old ones |
| Lightbox.LightboxDialog.Destroy | src/notification.js:142-148 | the new fields equal `LightboxSpec.Destroy` of the old ones |
| LightboxProperties.StepKeepsInv | src/notification.js:150-226 | each of open, close, pushModal on a shown dialog, popModal and a group-fade completion keeps "grab ⇒ OPENING or OPENED" and "a pending fade belongs to the transition in progress" |
| LightboxProperties.RunKeepsInv | src/notification.js:150-226 | from any dialog satisfying the invariant, every such run keeps it; in particular the grab is held only while OPENING or OPENED |
| LightboxProperties.FromInitial | src/notification.js:106-108 | from the freshly constructed CLOSED dialog without the grab, every such run holds the grab only while OPENING or OPENED |
| LightboxProperties.OpenCloseKeepModalIffShown | src/notification.js:175-203 | with only open, close and group-fade completions, the grab is held exactly while the dialog is OPENING or OPENED |
| LightboxProperties.OpenedIsStable | src/notification.js:176-177 | on an OPENED dialog, `open` changes nothing and succeeds, and no completion is left to emit a second `opened` |
| LightboxProperties.OpenTwiceEmitsOpenedOnce | src/notification.js:163-184 | open, completion, open, completion from a new dialog emit `opened` exactly once |
| LightboxProperties.PushModalWhileClosed | src/notification.js:217-226 | `pushModal` on a CLOSED dialog takes the grab without showing anything, so the invariant needs pushModal to be called only on a shown dialog |
| LightboxProperties.FadeOutThenPushModal | src/notification.js:228-256 | `_fadeOutDialog`, then `pushModal` (as its comment suggests), then the content-fade completion reach FADED_OUT holding the grab, which is why that completion is outside the invariant |
| LightboxProperties.FadeOutCloseOpenReachesFadedOut | src/notification.js:175-256 | with no direct `pushModal`: `_fadeOutDialog`, `close`, a granted `open` and the content-fade completion leave the reopened dialog FADED_OUT holding the grab |
| NotificationSpec.DisableEventCapture | src/notification.js:450-459 | both capture handles are zeroed and exactly their callbacks leave `pending`; under the invariant nothing else changes and the invariant is kept |
| NotificationSpec.EnableEventCapture | src/notification.js:444-448 | the old capture pair is cancelled first; afterwards `pending` holds exactly the other callbacks plus one new handler and one new BLOCK_EVENTS_TIME timer, on new handles |
| NotificationSpec.OnEventCapture | src/notification.js:461-477 | swallowed exactly for a key press other than Escape, a button press or a button release; a swallowed key press re-arms the capture; any other event changes nothing |
| NotificationSpec.DisableIdleMonitor | src/notification.js:501-506 | the watch id is zeroed and, under the invariant, exactly the idle watch leaves `pending` |
| NotificationSpec.WatchIdle | src/notification.js:484-499 | the previous watch is removed first; afterwards exactly one idle watch is pending, with the mode's threshold (60000 to open, 600 to close) and a new id |
| NotificationSpec.DisconnectInternals | src/notification.js:556-568 | all five handles are zero and, under the invariant, only minimum-display timers stay pending |
| NotificationSpec.ButtonLabels | src/notification.js:404-411 | one caption per button, in order |
| NotificationSpec.OpenNotification | src/notification.js:387-435 | afterwards a resident notification exists; when none existed it is new, carrying the current title, description and button captions, shown once; otherwise the existing one is shown once more and nothing is created |
| NotificationSpec.CloseNotification | src/notification.js:437-442 | afterwards no notification exists (`isOpened`), nothing else changes |
| NotificationSpec.StartDisplay | src/notification.js:320-328 | the branch after a successful lightbox `open`: the notification is gone, the retry, screen-saver and idle handles are zero, a fresh capture pair and a fresh MIN_DISPLAY_TIME timer are pending, the earlier MIN_DISPLAY_TIME timers survive, and under the invariant nothing else is pending; dialog, `_tries`, texts and buttons are unchanged |
| NotificationSpec.WaitForFocus | src/notification.js:332-348 | the branch after a refused `open`: with the screen saver active, subscribe on a fresh handle only if not subscribed; otherwise arm the retry timer on a fresh handle with `_tries = 1` only if none runs; exactly that callback is added, and nothing besides the touched handle, `_tries` and the handle counter changes (the idle watch and capture pair survive) |
| NotificationSpec.Open | src/notification.js:318-349 | succeeds exactly when the lightbox is OPENING or OPENED, holds the grab, or is granted it (so also when already open); on success the notification is gone, the retry, screen-saver and idle handles are zero, capture and a MIN_DISPLAY_TIME timer are armed, and `_tries`, texts and buttons are kept; on refusal the result is the refused branch, which keeps the dialog, notification, idle watch and capture pair |
| NotificationSpec.Close | src/notification.js:351-363 | all handles except the new idle watch are zero; exactly one notification exists, new with the current texts if there was none, re-shown otherwise; the lightbox is closed and `closed` emitted; an open-when-idle watch is armed; this holds even if the dialog was already CLOSED |
| NotificationSpec.OnTimeout | src/notification.js:369-380 | on a running timer, keeps polling exactly when the grab stays refused and `_tries + 1 <= FALLBACK_TIME * rate`; a tick that keeps polling is the refused branch of `open` on the incremented counter, so dialog, notification, idle watch and capture pair are kept; when the grab can be had, the tick is exactly a successful `open` on the incremented counter and stops; once the count passes the limit, the tick is exactly `close` applied to the refused `open` and stops; whenever it stops, the timer handle is zero |
| NotificationSpec.OnScreenSaverChanged | src/notification.js:382-385 | the screen saver becoming active changes nothing; becoming inactive is exactly an `open` with the proxy's current answer |
| NotificationSpec.OnIdleWatch | src/notification.js:484-499 | the open-when-idle watch is exactly an `open` when the user became idle and a no-op otherwise; the close-when-active watch is exactly a `close` (which re-arms open-when-idle) when the user became active and a no-op otherwise |
| NotificationSpec.OnMinDisplayTimer | src/notification.js:324-327 | the untracked timer arms the close-when-active watch on a fresh handle whatever the state, and ends; only the idle handle, the pending set and the handle counter change; under the invariant, exactly the old idle watch and this timer leave `pending` and the new watch joins it |
| NotificationSpec.OnGroupTweenComplete | src/notification.js:312-315 | the lightbox completion runs; when it emits `opened` the notification is destroyed; only the dialog and the notification change, so handles, `pending`, counter and texts are untouched |
| NotificationSpec.SetNotificationTitle | src/notification.js:538-543 | stores the title; an existing notification is updated in place with title and description; none is created |
| NotificationSpec.SetNotificationDescription | src/notification.js:545-550 | stores the description; an existing notification is updated in place; none is created |
| NotificationSpec.SetNotificationButtons | src/notification.js:552-554 | only the stored list changes; a live notification keeps its buttons |
| NotificationSpec.InvokedAction | src/notification.js:414-421 | button `i` runs the action at index `i` of the current list, and nothing runs when there is none |
| NotificationSpec.NotificationClicked | src/notification.js:422-424 | a click on the notification emits `clicked` |
| NotificationSpec.Destroy | src/notification.js:570-576 | the notification is gone, all handles are zero, the grab is released, no fade is pending, `destroy` is emitted; the new lightbox is exactly the lightbox `destroy` of the lightbox `close` of the old one; only the dialog, the notification, the handles and `pending` change; under the invariant only minimum-display timers stay pending |
| NotificationProperties.IsOpenedTracksDisplay | src/notification.js:365-367 | `isOpened` (no notification live, `NotificationSpec.IsOpened`) becomes true on a successful `open` and on the fade-in that emits `opened`, false on `close`, and a refused `open` leaves it as it was |
| NotificationProperties.InitValid | src/notification.js:265-283 | a new dialog satisfies the invariant, has no notification and no handle |
| NotificationProperties.ArmMinDisplayKeepsValid | src/notification.js:324-327 | arming the untracked timer on a new handle keeps the invariant |
| NotificationProperties.StartDisplayKeepsValid | src/notification.js:320-328 | the success branch keeps the invariant and leaves pending exactly the earlier minimum-display timers, the new capture pair and one new minimum-display timer |
| NotificationProperties.WaitForFocusKeepsValid | src/notification.js:332-348 | the refusal branch keeps the invariant |
| NotificationProperties.DialogOpenKeepsValid | src/notification.js:319 | the lightbox's `open` inside `open` keeps the invariant |
| NotificationProperties.OpenKeepsValid | src/notification.js:318-349 | `open` keeps the invariant; after a success the pending set is exactly as for `StartDisplayKeepsValid` |
| NotificationProperties.SameHandlesSameValid | src/notification.js:265-283 | the invariant depends only on handles, pending callbacks, rate and the lightbox's state, grab and fade |
| NotificationProperties.ValidIgnoresTries | src/notification.js:370 | changing the retry counter keeps the invariant |
| NotificationProperties.CloseKeepsValid | src/notification.js:351-363 | `close` keeps the invariant and leaves pending exactly the earlier minimum-display timers and one open-when-idle watch |
| NotificationProperties.OpenThenFallBackKeepsValid | src/notification.js:372-378 | `open` followed by the conditional fallback keeps the invariant |
| NotificationProperties.OnTimeoutKeepsValid | src/notification.js:369-380 | a retry tick keeps the invariant |
| NotificationProperties.StepKeepsValid | src/notification.js:318-576 | every call and every callback keeps the invariant, including callbacks delivered after they were cancelled |
| NotificationProperties.RunKeepsValid | src/notification.js:318-576 | every run keeps the invariant. Each nonzero handle has its one pending callback, and at most one retry timer, capture pair, screen-saver subscription and idle watch exist. The grab is held exactly while OPENING or OPENED |
| NotificationProperties.ReachableIsValid | src/notification.js:265-283 | every state reachable from a new dialog by the events of `Input` (which has no `_fadeOutDialog`, and no `pushModal` or `popModal` called from outside) satisfies the invariant and holds the grab exactly while shown |
| NotificationProperties.SingleHandles | src/notification.js:444-506 | under the invariant any two pending idle watches (likewise retry timers, capture handlers, capture timers, subscriptions) are the same one |
| NotificationProperties.RefusedTicksOnlyCount | src/notification.js:369-380 | while the grab is refused, the screen saver is off and the count stays within the limit, `k` ticks only add `k` to `_tries` |
| NotificationProperties.RetryKeepsPolling | src/notification.js:369-380 | with the grab refused and the screen saver off from `_tries = 1`, the next `FALLBACK_TIME * rate - 1` ticks keep polling and only count, reaching `_tries = FALLBACK_TIME * rate` |
| NotificationProperties.RetryFallsBack | src/notification.js:369-380 | with the grab refused and the screen saver off, the tick that takes `_tries` past `FALLBACK_TIME * rate` is exactly `close` on the counted state and stops the timer |
| NotificationProperties.RefusedOpenArmsRetry | src/notification.js:342-347 | a refused `open` with the screen saver off and no timer arms the retry timer with `_tries = 1` and leaves the dialog as it was |
| NotificationProperties.GrantedOpenReachesOpened | src/notification.js:312-330 | a granted `open` from CLOSED yields OPENING with no notification; the fade-in completion yields OPENED, emits `opened` once and leaves `isOpened` true |
| NotificationProperties.KeyPressRestartsCapture | src/notification.js:461-470 | a non-Escape key press while capturing is swallowed and replaces the capture timer with a new one |
| NotificationProperties.MinDisplayTimerOutlivesDestroy | src/notification.js:324-327 | after a successful `open` and `destroy` the minimum-display timer is still pending, and when it fires it arms an idle watch on the destroyed dialog |
| NotificationProperties.MinDisplayTimerOutlivesClose | src/notification.js:324-363 | after a successful `open` and `close` the minimum-display timer is still pending beside the open-when-idle watch; when it fires it leaves only a close-when-active watch, and the user's next activity runs `close` again, emitting `closed` once more |
| NotificationProperties.TitleUpdatedInPlace | src/notification.js:538-543 | a title set while the notification exists, followed by `close`, re-shows that same notification with the new title, without creating one |
| Notification.NotificationDialog.constructor | src/notification.js:265-283 | a new dialog has the initial state, satisfies the invariant and owns a fresh lightbox |
| Notification.NotificationDialog.Open | src/notification.js:318-349 | result and new fields equal `NotificationSpec.Open` of the old ones; the invariant is kept |
| Notification.NotificationDialog.StartDisplay | src/notification.js:320-328 | the new fields equal `NotificationSpec.StartDisplay` of the old ones |
| Notification.NotificationDialog.WaitForFocus | src/notification.js:332-348 | the new fields equal `NotificationSpec.WaitForFocus` of the old ones |
| Notification.NotificationDialog.Close | src/notification.js:351-363 | the new fields equal `NotificationSpec.Close` of the old ones; the invariant is kept |
| Notification.NotificationDialog.OnTimeout | src/notification.js:369-380 | the answer and the new fields equal `NotificationSpec.OnTimeout` of the old ones; the invariant is kept |
| Notification.NotificationDialog.CountTry | src/notification.js:370 | the new fields are the old ones with `_tries` one higher; the invariant is kept |
| Notification.NotificationDialog.FallBack | src/notification.js:372-379 | given what `open` answered, the answer and the new fields equal `NotificationSpec.FallBack`: stop once open, `close` and stop past the limit, otherwise keep polling |
| Notification.NotificationDialog.OnScreenSaverChanged | src/notification.js:382-385 | the new fields equal `NotificationSpec.OnScreenSaverChanged`; the invariant is kept |
| Notification.NotificationDialog.OpenNotification | src/notification.js:387-435 | the new fields equal `NotificationSpec.OpenNotification` of the old ones |
| Notification.NotificationDialog.CreateNotification | src/notification.js:389-411 | the loop adding one button per entry builds exactly `NotificationSpec.NewNotification` of the current texts and buttons |
| Notification.NotificationDialog.CloseNotification | src/notification.js:437-442 | the new fields equal `NotificationSpec.CloseNotification` of the old ones |
| Notification.NotificationDialog.EnableEventCapture | src/notification.js:444-448 | the new fields equal `NotificationSpec.EnableEventCapture` of the old ones |
| Notification.NotificationDialog.DisableEventCapture | src/notification.js:450-459 | the new fields equal `NotificationSpec.DisableEventCapture` of the old ones |
| Notification.NotificationDialog.OnEventCapture | src/notification.js:461-477 | the answer and new fields equal `NotificationSpec.OnEventCapture`; the invariant is kept |
| Notification.NotificationDialog.OnEventCaptureTimeout | src/notification.js:479-482 | the capture pair is cancelled, the timer does not repeat, the invariant is kept |
| Notification.NotificationDialog.OpenWhenIdle | src/notification.js:484-490 | the new fields equal `NotificationSpec.WatchIdle` in open-when-idle mode |
| Notification.NotificationDialog.CloseWhenActive | src/notification.js:492-499 | the new fields equal `NotificationSpec.WatchIdle` in close-when-active mode |
| Notification.NotificationDialog.DisableIdleMonitor | src/notification.js:501-506 | the new fields equal `NotificationSpec.DisableIdleMonitor` of the old ones |
| Notification.NotificationDialog.OnIdleWatch | src/notification.js:484-499 | the new fields equal `NotificationSpec.OnIdleWatch`; the invariant is kept |
| Notification.NotificationDialog.OnMinDisplayTimer | src/notification.js:324-327 | the new fields equal `NotificationSpec.OnMinDisplayTimer`, the timer does not repeat, the invariant is kept |
| Notification.NotificationDialog.OnGroupTweenComplete | src/notification.js:312-315 | the new fields equal `NotificationSpec.OnGroupTweenComplete`; the invariant is kept |
| Notification.NotificationDialog.SetNotificationTitle | src/notification.js:538-543 | the new fields equal `NotificationSpec.SetNotificationTitle` |
| Notification.NotificationDialog.SetNotificationDescription | src/notification.js:545-550 | the new fields equal `NotificationSpec.SetNotificationDescription` |
| Notification.NotificationDialog.SetNotificationButtons | src/notification.js:552-554 | the new fields equal `NotificationSpec.SetNotificationButtons` |
| Notification.NotificationDialog.InvokeAction | src/notification.js:414-421 | the action chosen equals `NotificationSpec.InvokedAction` on the current list |
| Notification.NotificationDialog.NotificationClicked | src/notification.js:422-424 | the new fields equal `NotificationSpec.NotificationClicked` |
| Notification.NotificationDialog.DisconnectInternals | src/notification.js:556-568 | the new fields equal `NotificationSpec.DisconnectInternals` of the old ones |
| Notification.NotificationDialog.Destroy | src/notification.js:570-576 | the new fields equal `NotificationSpec.Destroy` of the old ones; the invariant is kept |
| Notification.NotificationDialog.SetTimer | src/notification.js:512-515 | stores the timer text and changes nothing else |
| Notification.NotificationDialog.SetTitle | src/notification.js:521-523 | stores the title and changes nothing else |
| Notification.NotificationDialog.SetDescription | src/notification.js:529-532 | stores the description and changes nothing else |
| Notification.TimerGetterAsWritten | src/notification.js:508-510 | with the getter as written, `setTimer` followed by `timer` on a new dialog gives back no text |
| Notification.TimerRoundTrip | src/notification.js:508-515 | with the getter reading `_timer`, `setTimer` followed by `timer` gives back the text |
| Notification.NotificationDialog.TimerAsWritten | src/notification.js:508-510 | as written, the `timer` getter answers whatever the `title` getter answers |
| Notification.NotificationDialog.IsOpened | src/notification.js:365-367 | the object's `isOpened` answers `NotificationSpec.IsOpened` of its state |
| Notification.NotificationDialog.NotificationTitle | src/notification.js:534-536 | answers the notification title held in the dialog's state |
| Notification.TextsRoundTrip | src/notification.js:517-543 | `setTitle`, `setDescription` and `setNotificationTitle` are each given back by the `title`, `description` and `notificationTitle` getters, and `isOpened` is unaffected |

## Left out

- Widget construction, layout, styling and the lightbox actor (src/notification.js:110-140, 285-310) are left out. So is the `NotificationSource` icon. None of them holds state the machine reads.
- Tweener easing and durations (`OPEN_AND_CLOSE_TIME`, `FADE_OUT_DIALOG_TIME`) are floats for animation. Only the existence of each fade completion is modelled.
- Timer intervals are left out. Each tick is an explicit call; the interval `1000 / rate` is recorded but never elapses.
- Timestamps passed to `open`, `close`, `pushModal` and `popModal` are left out; they only reach the shell.
- Creating the screen-saver proxy is left out: its state enters as a parameter of `open`.
- The D-Bus, idle-monitor, message-tray and stage objects are left out; their handles are numbers from one counter.
- The shell's `Main.pushModal` and `Main.popModal` appear only through their answers. So do the display `sync()` and the notification's `update` and `notify`.
- Exception handling and logging around the notification's private flag, buttons and actions are left out. A failing button lookup is the `None` case of `InvokedAction`.
- Actions run by buttons are plain numbers; what they do is not part of this model.
- Signals emitted by the lightbox are recorded in order; the handlers connected by other code are not part of this model.
- `_fadeOutDialog` and its completion are modelled on the lightbox only. The notification dialog never calls `_fadeOutDialog`, so the machine has no input for it.
- `pushModal` and `popModal` (src/notification.js:205-226), inherited by the notification dialog, are not events of `Input`: inside the notification dialog only `open` and `close` call them. Code outside could call `popModal` on a shown dialog; that would drop the grab while the dialog stays shown, so the clause `LightboxSpec.ModalIffShown` of `NotificationSpec.Valid` would no longer hold. They are modelled on the lightbox alone.
- Nothing rules out further calls on a destroyed dialog. The source does not guard against them, and the model lets them run as written.

## Findings

| source | as written | input that shows it | evidently intended | confidence | as-written member | corrected member |
|---|---|---|---|---|---|---|
| src/notification.js:508-510 | the `timer` getter returns `this._title` | `setTimer('25:00')` on a new dialog, then read `timer`: the unset title comes back | return `this._timer`, the text `setTimer` stored | high, not executed | Notification.TimerGetterAsWritten | Notification.TimerRoundTrip |
