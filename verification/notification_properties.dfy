/** What the notification dialog's state machine guarantees: the handle
 *  discipline is kept by every event, the retry timer falls back after
 *  exactly FALLBACK_TIME * rate refused ticks, and a few scenario lemmas. */
module NotificationProperties {
  import LightboxSpec
  import opened NotificationSpec

  /** `isOpened` tells whether the dialog, rather than the tray
   *  notification, is showing: a successful `open` and the `opened` signal
   *  make it true, `close` makes it false, and a refused `open` leaves it
   *  as it was. */
  lemma IsOpenedTracksDisplay(m: Machine, granted: bool, saverActive: bool)
    ensures var (r, ok) := Open(m, granted, saverActive);
            (ok ==> IsOpened(r)) && (!ok ==> (IsOpened(r) <==> IsOpened(m)))
    ensures !IsOpened(Close(m))
    ensures m.dialog.groupTween == LightboxSpec.FadeIn ==> IsOpened(OnGroupTweenComplete(m))
  {
  }

  lemma InitValid(rate: Positive)
    ensures Valid(Init(rate)) && IsOpened(Init(rate)) && Disconnected(Init(rate))
  {
  }

  /** Arming the minimum-display timer on a fresh handle keeps the
   *  invariant: the timer belongs to no field. */
  lemma ArmMinDisplayKeepsValid(m: Machine)
    requires Valid(m)
    ensures Valid(m.(pending := m.pending + {MinDisplayTimer(m.nextHandle, MIN_DISPLAY_TIME)},
                     nextHandle := m.nextHandle + 1))
  {
    var r := m.(pending := m.pending + {MinDisplayTimer(m.nextHandle, MIN_DISPLAY_TIME)},
                nextHandle := m.nextHandle + 1);
    assert WatchArmed(r, OpenWhenIdle) == WatchArmed(m, OpenWhenIdle);
    assert WatchArmed(r, CloseWhenActive) == WatchArmed(m, CloseWhenActive);
  }

  /** The granted branch of `open` keeps the invariant, on the dialog
   *  `LightboxDialog.open` left behind, and leaves pending only the earlier
   *  minimum-display timers, the new capture pair and one new
   *  minimum-display timer. */
  lemma StartDisplayKeepsValid(m: Machine)
    requires Valid(m)
    ensures var r := StartDisplay(m);
            && Valid(r)
            && forall p :: p in r.pending <==>
                 (p in m.pending && p.MinDisplayTimer?)
                 || p == CaptureHandler(r.eventCaptureId)
                 || p == CaptureTimer(r.eventCaptureSource, BLOCK_EVENTS_TIME)
                 || p == MinDisplayTimer(r.nextHandle - 1, MIN_DISPLAY_TIME)
  {
    var m0 := CloseNotification(m);
    assert Valid(m0);
    var m1 := DisconnectInternals(m0);
    var m2 := EnableEventCapture(m1);
    ArmMinDisplayKeepsValid(m2);
  }

  /** The refused branch of `open`: a new screen-saver subscription or a
   *  new retry timer, each on a fresh handle. */
  lemma WaitForFocusKeepsValid(m: Machine, saverActive: bool)
    requires Valid(m)
    ensures Valid(WaitForFocus(m, saverActive))
  {
    var h := m.nextHandle;
    if saverActive && m.screenSaverChangedId == 0 {
      var r := m.(screenSaverChangedId := h, nextHandle := h + 1,
                  pending := m.pending + {SaverSubscription(h)});
      assert WatchArmed(r, OpenWhenIdle) == WatchArmed(m, OpenWhenIdle);
      assert WatchArmed(r, CloseWhenActive) == WatchArmed(m, CloseWhenActive);
      assert Valid(r);
    } else if !saverActive && m.timeoutSource == 0 {
      var r := m.(tries := 1, timeoutSource := h, nextHandle := h + 1,
                  pending := m.pending + {RetryTimer(h, RetryInterval(m.fallbackRate))});
      assert WatchArmed(r, OpenWhenIdle) == WatchArmed(m, OpenWhenIdle);
      assert WatchArmed(r, CloseWhenActive) == WatchArmed(m, CloseWhenActive);
      assert Valid(r);
    }
  }

  /** `open` is the lightbox's `open` followed by one of its two branches;
   *  a proof step only. */
  lemma OpenUnfolds(m: Machine, granted: bool, saverActive: bool)
    ensures Open(m, granted, saverActive) ==
            (var (d, ok) := LightboxSpec.Open(m.dialog, granted);
             if ok then (StartDisplay(m.(dialog := d)), true) else (WaitForFocus(m, saverActive), false))
  {
  }

  /** The lightbox's `open` keeps the invariant. */
  lemma DialogOpenKeepsValid(m: Machine, granted: bool)
    requires Valid(m)
    ensures Valid(m.(dialog := LightboxSpec.Open(m.dialog, granted).0))
  {
    var m1 := m.(dialog := LightboxSpec.Open(m.dialog, granted).0);
    assert forall p :: BelongsTo(m, p) <==> BelongsTo(m1, p);
  }

  /** `open` keeps the invariant; a successful `open` leaves pending exactly
   *  the earlier minimum-display timers, the new capture pair and one new
   *  minimum-display timer. */
  lemma OpenKeepsValid(m: Machine, granted: bool, saverActive: bool)
    requires Valid(m)
    ensures Valid(Open(m, granted, saverActive).0)
    ensures var (r, ok) := Open(m, granted, saverActive);
            ok ==> forall p :: p in r.pending <==>
                     (p in m.pending && p.MinDisplayTimer?)
                     || p == CaptureHandler(r.eventCaptureId)
                     || p == CaptureTimer(r.eventCaptureSource, BLOCK_EVENTS_TIME)
                     || p == MinDisplayTimer(r.nextHandle - 1, MIN_DISPLAY_TIME)
  {
    OpenUnfolds(m, granted, saverActive);
    var (d, ok) := LightboxSpec.Open(m.dialog, granted);
    if ok {
      DialogOpenKeepsValid(m, granted);
      StartDisplayKeepsValid(m.(dialog := d));
    } else {
      WaitForFocusKeepsValid(m, saverActive);
    }
  }


  /** The invariant reads only the handles, the pending callbacks, the
   *  handle counter, the rate and the dialog's state, grab and fade: the
   *  retry counter, the notification and the texts play no part in it. */
  lemma SameHandlesSameValid(m: Machine, m1: Machine)
    requires m1.pending == m.pending && m1.nextHandle == m.nextHandle && m1.fallbackRate == m.fallbackRate
    requires m1.timeoutSource == m.timeoutSource && m1.eventCaptureSource == m.eventCaptureSource
    requires m1.eventCaptureId == m.eventCaptureId && m1.screenSaverChangedId == m.screenSaverChangedId
    requires m1.idleMonitorWatchId == m.idleMonitorWatchId
    requires m1.dialog.state == m.dialog.state && m1.dialog.hasModal == m.dialog.hasModal
    requires m1.dialog.groupTween == m.dialog.groupTween
    ensures Valid(m) <==> Valid(m1)
  {
    assert forall p :: BelongsTo(m, p) <==> BelongsTo(m1, p);
  }

  lemma ValidIgnoresTries(m: Machine, tries: int)
    requires Valid(m)
    ensures Valid(m.(tries := tries))
  {
    SameHandlesSameValid(m, m.(tries := tries));
  }

  /** `close` keeps the invariant and leaves pending only the earlier
   *  minimum-display timers and one open-when-idle watch. */
  lemma CloseKeepsValid(m: Machine)
    requires Valid(m)
    ensures Valid(Close(m)) && WatchArmed(Close(m), OpenWhenIdle)
    ensures forall p :: p in Close(m).pending <==>
              (p in m.pending && p.MinDisplayTimer?)
              || p == IdleWatch(Close(m).idleMonitorWatchId, IDLE_TIME_TO_OPEN, OpenWhenIdle)
  {
    var m1 := OpenNotification(DisconnectInternals(m));
    var m2 := m1.(dialog := LightboxSpec.Close(m1.dialog));
    assert Valid(m2);
    var m3 := WatchIdle(m2, OpenWhenIdle);
    assert Valid(m3);
  }

  /** A tick of the retry timer is an `open` on the incremented counter,
   *  followed by the fallback to `close` once the counter passes the limit;
   *  a proof step only. */
  lemma OnTimeoutUnfolds(m: Machine, granted: bool, saverActive: bool)
    ensures OnTimeout(m, granted, saverActive).0 ==
            (var r := Open(CountTry(m), granted, saverActive);
             if r.1 then r.0 else if r.0.tries > FallbackTicks(m.fallbackRate) then Close(r.0) else r.0)
  {
  }

  /** A tick is `open` on the incremented counter followed by the
   *  fallback decision; a proof step only, for the object's tick. */
  lemma OnTimeoutByOpen(m: Machine, granted: bool, saverActive: bool, next: (Machine, bool), r: (Machine, bool))
    requires next == Open(CountTry(m), granted, saverActive)
    requires r == FallBack(next, FallbackTicks(m.fallbackRate))
    ensures r == OnTimeout(m, granted, saverActive)
  {
  }

  lemma OpenThenFallBackKeepsValid(m: Machine, granted: bool, saverActive: bool, limit: int)
    requires Valid(m)
    ensures Valid(var r := Open(m, granted, saverActive);
                  if r.1 then r.0 else if r.0.tries > limit then Close(r.0) else r.0)
  {
    OpenKeepsValid(m, granted, saverActive);
    var r := Open(m, granted, saverActive);
    if !r.1 && r.0.tries > limit {
      CloseKeepsValid(r.0);
    }
  }

  lemma OnTimeoutKeepsValid(m: Machine, granted: bool, saverActive: bool)
    requires Valid(m)
    ensures Valid(OnTimeout(m, granted, saverActive).0)
  {
    ValidIgnoresTries(m, m.tries + 1);
    OpenThenFallBackKeepsValid(CountTry(m), granted, saverActive, FallbackTicks(m.fallbackRate));
    OnTimeoutUnfolds(m, granted, saverActive);
  }

  /** Everything the main loop, the user or the extension can do to the
   *  dialog.  Foreign answers travel with the input that needs them. */
  datatype Input =
    | CallOpen(granted: bool, saverActive: bool)
    | CallClose
    | CallDestroy
    | CallSetNotificationTitle(text: string)
    | CallSetNotificationDescription(text: string)
    | CallSetNotificationButtons(buttons: seq<Button>)
    | RetryTick(granted: bool, saverActive: bool)
    | SaverChanged(active: bool, granted: bool, saverActiveNow: bool)
    | CapturedEvent(ev: EventType, keysym: nat)
    | CaptureTimeout
    | IdleWatchFired(mode: IdleMode, becameIdle: bool, granted: bool, saverActive: bool)
    | MinDisplayElapsed(id: nat)
    | GroupTweenDone
    | NotificationClick

  function Step(m: Machine, input: Input): Machine {
    match input
    case CallOpen(g, s) => Open(m, g, s).0
    case CallClose => Close(m)
    case CallDestroy => Destroy(m)
    case CallSetNotificationTitle(t) => SetNotificationTitle(m, t)
    case CallSetNotificationDescription(t) => SetNotificationDescription(m, t)
    case CallSetNotificationButtons(b) => SetNotificationButtons(m, b)
    case RetryTick(g, s) => OnTimeout(m, g, s).0
    case SaverChanged(a, g, s) => OnScreenSaverChanged(m, a, g, s)
    case CapturedEvent(ev, k) => OnEventCapture(m, ev, k).0
    case CaptureTimeout => DisableEventCapture(m)
    case IdleWatchFired(mode, idle, g, s) => OnIdleWatch(m, mode, idle, g, s)
    case MinDisplayElapsed(id) => OnMinDisplayTimer(m, id)
    case GroupTweenDone => OnGroupTweenComplete(m)
    case NotificationClick => NotificationClicked(m)
  }

  lemma SaverChangedKeepsValid(m: Machine, active: bool, granted: bool, saverActiveNow: bool)
    requires Valid(m)
    ensures Valid(OnScreenSaverChanged(m, active, granted, saverActiveNow))
  {
    if !active {
      OpenKeepsValid(m, granted, saverActiveNow);
    }
  }

  lemma IdleWatchKeepsValid(m: Machine, mode: IdleMode, becameIdle: bool, granted: bool, saverActive: bool)
    requires Valid(m)
    ensures Valid(OnIdleWatch(m, mode, becameIdle, granted, saverActive))
  {
    if mode == OpenWhenIdle && becameIdle {
      OpenKeepsValid(m, granted, saverActive);
    } else if mode == CloseWhenActive && !becameIdle {
      CloseKeepsValid(m);
    }
  }

  /** The calls to `open` and `close` and the retry tick keep the invariant. */
  lemma LifecycleStepKeepsValid(m: Machine, input: Input)
    requires Valid(m)
    requires input.CallOpen? || input.CallClose? || input.RetryTick?
    ensures Valid(Step(m, input))
  {
    match input
    case CallOpen(g, s) => OpenKeepsValid(m, g, s);
    case CallClose => CloseKeepsValid(m);
    case RetryTick(g, s) => OnTimeoutKeepsValid(m, g, s);
  }

  /** The screen-saver and idle callbacks keep the invariant. */
  lemma WatcherStepKeepsValid(m: Machine, input: Input)
    requires Valid(m)
    requires input.SaverChanged? || input.IdleWatchFired?
    ensures Valid(Step(m, input))
  {
    match input
    case SaverChanged(a, g, s) => SaverChangedKeepsValid(m, a, g, s);
    case IdleWatchFired(mode, idle, g, s) => IdleWatchKeepsValid(m, mode, idle, g, s);
  }

  /** The setters keep the invariant: they touch no handle. */
  lemma SetterStepKeepsValid(m: Machine, input: Input)
    requires Valid(m)
    requires input.CallSetNotificationTitle? || input.CallSetNotificationDescription?
             || input.CallSetNotificationButtons? || input.NotificationClick?
    ensures Valid(Step(m, input))
  {
    match input
    case CallSetNotificationTitle(t) => SameHandlesSameValid(m, SetNotificationTitle(m, t));
    case CallSetNotificationDescription(t) => SameHandlesSameValid(m, SetNotificationDescription(m, t));
    case CallSetNotificationButtons(b) => SameHandlesSameValid(m, SetNotificationButtons(m, b));
    case NotificationClick => SameHandlesSameValid(m, NotificationClicked(m));
  }

  lemma StepKeepsValid(m: Machine, input: Input)
    requires Valid(m)
    ensures Valid(Step(m, input))
  {
    if input.CallOpen? || input.CallClose? || input.RetryTick? {
      LifecycleStepKeepsValid(m, input);
    } else if input.SaverChanged? || input.IdleWatchFired? {
      WatcherStepKeepsValid(m, input);
    } else if input.CallSetNotificationTitle? || input.CallSetNotificationDescription?
              || input.CallSetNotificationButtons? || input.NotificationClick? {
      SetterStepKeepsValid(m, input);
    }
  }

  function Run(m: Machine, inputs: seq<Input>): Machine
    decreases |inputs|
  {
    if inputs == [] then m else Run(Step(m, inputs[0]), inputs[1..])
  }

  /** Over any run of inputs, even callbacks delivered after they were
   *  cancelled: every handle has its one pending
   *  callback, at most one idle watch, retry timer, capture pair and
   *  screen-saver subscription exist, and the modal grab is held exactly
   *  while the dialog is OPENING or OPENED. */
  lemma {:induction false} RunKeepsValid(m: Machine, inputs: seq<Input>)
    requires Valid(m)
    ensures Valid(Run(m, inputs))
    decreases |inputs|
  {
    if inputs != [] {
      StepKeepsValid(m, inputs[0]);
      RunKeepsValid(Step(m, inputs[0]), inputs[1..]);
    }
  }

  lemma {:induction false} ReachableIsValid(rate: Positive, inputs: seq<Input>)
    ensures Valid(Run(Init(rate), inputs))
    ensures Run(Init(rate), inputs).dialog.hasModal <==> LightboxSpec.Shown(Run(Init(rate), inputs).dialog)
  {
    InitValid(rate);
    RunKeepsValid(Init(rate), inputs);
  }

  /** Single handles: under the invariant, two pending idle watches are the
   *  same watch, and likewise for the retry timer and the capture pair. */
  lemma SingleHandles(m: Machine)
    requires Valid(m)
    ensures forall p, q :: p in m.pending && q in m.pending && p.IdleWatch? && q.IdleWatch? ==> p == q
    ensures forall p, q :: p in m.pending && q in m.pending && p.RetryTimer? && q.RetryTimer? ==> p == q
    ensures forall p, q :: p in m.pending && q in m.pending && p.CaptureTimer? && q.CaptureTimer? ==> p == q
    ensures forall p, q :: p in m.pending && q in m.pending && p.CaptureHandler? && q.CaptureHandler? ==> p == q
    ensures forall p, q :: p in m.pending && q in m.pending && p.SaverSubscription? && q.SaverSubscription? ==> p == q
  {
    forall p, q | p in m.pending && q in m.pending && p.IdleWatch? && q.IdleWatch?
      ensures p == q
    {
      assert BelongsTo(m, p) && BelongsTo(m, q);
      assert p == IdleWatch(m.idleMonitorWatchId, IdleThreshold(p.mode), p.mode);
      assert q == IdleWatch(m.idleMonitorWatchId, IdleThreshold(q.mode), q.mode);
    }
  }

  /** `k` ticks of the retry timer while the modal grab is refused and the
   *  screen saver is off, stopping early if the timer ends. */
  function RefusedTicks(m: Machine, k: nat): Machine
    decreases k
  {
    if k == 0 then m
    else
      var (m1, more) := OnTimeout(m, false, false);
      if more then RefusedTicks(m1, k - 1) else m1
  }

  /** Below the limit, each refused tick only counts. */
  lemma {:induction false} RefusedTicksOnlyCount(m: Machine, k: nat)
    requires m.timeoutSource != 0 && !LightboxSpec.Shown(m.dialog) && !m.dialog.hasModal
    requires m.tries + k <= FallbackTicks(m.fallbackRate)
    ensures RefusedTicks(m, k) == m.(tries := m.tries + k)
    decreases k
  {
    if k > 0 {
      var m1 := CountTry(m);
      assert OnTimeout(m, false, false) == (m1, true);
      RefusedTicksOnlyCount(m1, k - 1);
    }
  }

  /** At least one tick is allowed before the fallback; a proof step only. */
  lemma FallbackTicksPositive(rate: Positive)
    ensures FallbackTicks(rate) >= 1
  {
  }

  /** Once the retry timer runs with the grab refused and the screen saver
   *  off, the ticks up to FALLBACK_TIME * rate keep polling and only count:
   *  the first FALLBACK_TIME * rate - 1 of them leave `_tries` at
   *  FALLBACK_TIME * rate with the timer still running. */
  lemma RetryKeepsPolling(m: Machine)
    requires m.timeoutSource != 0 && m.tries == 1
    requires !LightboxSpec.Shown(m.dialog) && !m.dialog.hasModal
    ensures FallbackTicks(m.fallbackRate) >= 1
    ensures RefusedTicks(m, FallbackTicks(m.fallbackRate) - 1) == m.(tries := FallbackTicks(m.fallbackRate))
  {
    FallbackTicksPositive(m.fallbackRate);
    RefusedTicksOnlyCount(m, FallbackTicks(m.fallbackRate) - 1);
  }

  /** The tick that takes `_tries` past FALLBACK_TIME * rate, with the grab
   *  refused and the screen saver off, falls back to `close`: the timer
   *  stops and the notification is published.  With RetryKeepsPolling this
   *  is the whole retry scenario. */
  lemma RetryFallsBack(m: Machine, t: int)
    requires m.timeoutSource != 0 && !LightboxSpec.Shown(m.dialog) && !m.dialog.hasModal
    requires t + 1 > FallbackTicks(m.fallbackRate)
    ensures OnTimeout(m.(tries := t), false, false) == (Close(m.(tries := t + 1)), false)
  {
    var mt := m.(tries := t);
    GiveUpTick(mt);
    assert CountTry(mt) == m.(tries := t + 1);
  }

  /** A refused tick past the limit is `close` on the counted state; a
   *  proof step only, for RetryFallsBack. */
  lemma GiveUpTick(m: Machine)
    requires m.timeoutSource != 0 && !LightboxSpec.Shown(m.dialog) && !m.dialog.hasModal
    requires m.tries + 1 > FallbackTicks(m.fallbackRate)
    ensures OnTimeout(m, false, false) == (Close(CountTry(m)), false)
  {
  }

  /** When the grab is refused and the screen saver is off, `open` arms the
   *  retry timer with `_tries = 1` and leaves the dialog as it was. */
  lemma RefusedOpenArmsRetry(m: Machine)
    requires Valid(m) && m.timeoutSource == 0 && !LightboxSpec.Shown(m.dialog)
    ensures var (m1, ok) := Open(m, false, false);
            && !ok && m1.tries == 1 && m1.timeoutSource != 0 && m1.dialog == m.dialog
            && !LightboxSpec.Shown(m1.dialog) && !m1.dialog.hasModal
  {
  }

  /** A granted `open` from CLOSED: OPENING at once, and the fade-in
   *  completion reaches OPENED, emits `opened` once and leaves no
   *  notification. */
  lemma GrantedOpenReachesOpened(m: Machine, saverActive: bool)
    requires Valid(m) && m.dialog.state == LightboxSpec.Closed
    ensures var (m1, ok) := Open(m, true, saverActive);
            var m2 := OnGroupTweenComplete(m1);
            && ok && m1.dialog.state == LightboxSpec.Opening && IsOpened(m1)
            && m2.dialog.state == LightboxSpec.Opened && m2.dialog.emitted == m.dialog.emitted + [LightboxSpec.OpenedSignal]
            && IsOpened(m2)
  {
  }

  /** A key press other than Escape while capturing: swallowed, the old
   *  capture timer is cancelled and a new one armed, so the window restarts
   *  from this key press. */
  lemma KeyPressRestartsCapture(m: Machine, keysym: nat)
    requires Valid(m) && m.eventCaptureId != 0 && keysym != ESCAPE_KEYSYM
    ensures var (r, swallowed) := OnEventCapture(m, KeyPress, keysym);
            && swallowed && Valid(r)
            && CaptureTimer(m.eventCaptureSource, BLOCK_EVENTS_TIME) !in r.pending
            && CaptureTimer(r.eventCaptureSource, BLOCK_EVENTS_TIME) in r.pending
            && r.eventCaptureSource != m.eventCaptureSource
  {
  }

  /** The minimum-display timer is not kept in any field, so `destroy`
   *  does not cancel it: when it fires afterwards it arms an idle watch on
   *  the destroyed dialog. */
  lemma MinDisplayTimerOutlivesDestroy(m: Machine, saverActive: bool)
    requires Valid(m) && !LightboxSpec.Shown(m.dialog)
    ensures var (m1, ok) := Open(m, true, saverActive);
            var m2 := Destroy(m1);
            var id := m1.nextHandle - 1;
            && ok && MinDisplayTimer(id, MIN_DISPLAY_TIME) in m2.pending
            && Disconnected(m2)
            && OnMinDisplayTimer(m2, id).idleMonitorWatchId != 0
  {
    var (m1, ok) := Open(m, true, saverActive);
    OpenKeepsValid(m, true, saverActive);
  }

  /** `close` does not cancel the minimum-display timer either.  When `close`
   *  comes before it fires, the timer replaces the open-when-idle watch that
   *  `close` armed with a close-when-active watch, and the next activity of
   *  the user runs `close` again, which emits `closed` a second time. */
  lemma MinDisplayTimerOutlivesClose(m: Machine, saverActive: bool)
    requires Valid(m) && !LightboxSpec.Shown(m.dialog)
    ensures var (m1, ok) := Open(m, true, saverActive);
            var m2 := Close(m1);
            var id := m1.nextHandle - 1;
            var m3 := OnMinDisplayTimer(m2, id);
            && ok && MinDisplayTimer(id, MIN_DISPLAY_TIME) in m2.pending
            && WatchArmed(m2, OpenWhenIdle)
            && WatchArmed(m3, CloseWhenActive) && !WatchArmed(m3, OpenWhenIdle)
            && OnIdleWatch(m3, CloseWhenActive, false, false, false).dialog.emitted
               == m2.dialog.emitted + [LightboxSpec.ClosedSignal]
  {
    OpenKeepsValid(m, true, saverActive);
    var (m1, ok) := Open(m, true, saverActive);
    CloseKeepsValid(m1);
  }

  /** A title set while the notification is live updates it in place, and
   *  the next `close` shows that same notification again with the new
   *  title, without creating a second one. */
  lemma TitleUpdatedInPlace(m: Machine, text: string)
    requires m.notification.Some?
    ensures var r := Close(SetNotificationTitle(m, text));
            && r.notification.value.id == m.notification.value.id
            && r.notification.value.title == text
            && r.notification.value.shown == m.notification.value.shown + 1
  {
  }
}
