/** The notification dialog's state machine, as values.
 *
 *  A `Machine` holds the lightbox `Dialog`, every handle the dialog keeps
 *  (0 meaning "unset"), the lazily created tray notification and the set of
 *  callbacks the main loop may still deliver (`pending`).  Foreign handles
 *  (GLib sources, signal connections, idle watches) are drawn from one
 *  counter, `nextHandle`, so every handle is nonzero and new.
 */
module NotificationSpec {
  import opened LightboxSpec

  /** Milliseconds during which input is swallowed after opening. */
  const BLOCK_EVENTS_TIME: nat := 600
  /** Scale of the retry limit: polling stops after FALLBACK_TIME * rate ticks. */
  const FALLBACK_TIME: nat := 1000
  /** Idle milliseconds after which a closed dialog opens again. */
  const IDLE_TIME_TO_OPEN: nat := 60000
  /** Idle threshold, in milliseconds, of the close-when-active watch. */
  const IDLE_TIME_TO_CLOSE: nat := 600
  /** Milliseconds before activity is watched after a successful open. */
  const MIN_DISPLAY_TIME: nat := 1000
  /** Clutter's keysym for the Escape key. */
  const ESCAPE_KEYSYM: nat := 0xff1b

  /** Number of ticks after which the retry timer gives up. */
  function FallbackTicks(rate: nat): nat {
    FALLBACK_TIME * rate
  }

  /** A positive integer: the frame rate, and the next foreign handle. */
  type Positive = n: nat | n > 0 witness 1

  /** Interval of the retry timer: the integer part of 1000 / rate. */
  function RetryInterval(rate: Positive): nat {
    1000 / rate
  }

  datatype Option<T> = None | Some(value: T)

  datatype IdleMode = OpenWhenIdle | CloseWhenActive

  function IdleThreshold(mode: IdleMode): nat {
    match mode
    case OpenWhenIdle => IDLE_TIME_TO_OPEN
    case CloseWhenActive => IDLE_TIME_TO_CLOSE
  }

  /** A callback the main loop may still deliver, with the handle that
   *  identifies it. */
  datatype Pending =
    | RetryTimer(id: nat, interval: nat)          // `_timeoutSource`, repeating
    | CaptureHandler(id: nat)                     // `_eventCaptureId`, stage 'captured-event'
    | CaptureTimer(id: nat, delay: nat)           // `_eventCaptureSource`, one-shot
    | SaverSubscription(id: nat)                  // `_screenSaverChangedId`, 'ActiveChanged'
    | IdleWatch(id: nat, threshold: nat, mode: IdleMode)  // `_idleMonitorWatchId`
    | MinDisplayTimer(id: nat, delay: nat)        // not kept in any field, one-shot

  /** Clutter event types the capture handler can see. */
  datatype EventType =
    KeyPress | KeyRelease | ButtonPress | ButtonRelease | Motion | Enter | Leave | Scroll | OtherEvent

  /** A notification button: its caption and the action it triggers. */
  datatype Button = Button(caption: string, action: nat)

  /** A resident tray notification: title, body, button captions (button `i`
   *  has id `i`) and how many times it has been shown. */
  datatype TrayNotification =
    TrayNotification(id: nat, title: string, body: string, buttons: seq<string>, resident: bool, shown: nat)

  datatype Machine = Machine(
    dialog: Dialog,
    fallbackRate: Positive,
    tries: int,
    timeoutSource: nat,
    eventCaptureSource: nat,
    eventCaptureId: nat,
    screenSaverChangedId: nat,
    idleMonitorWatchId: nat,
    notification: Option<TrayNotification>,
    notificationTitle: string,
    notificationDescription: string,
    notificationButtons: seq<Button>,
    pending: set<Pending>,
    nextHandle: Positive)

  function Init(rate: Positive): Machine {
    Machine(Initial, rate, 0, 0, 0, 0, 0, 0, None, "", "", [], {}, 1)
  }

  /** `isOpened`: no notification is live. */
  predicate IsOpened(m: Machine) {
    m.notification.None?
  }

  /** The stored handle a pending callback belongs to. */
  predicate BelongsTo(m: Machine, p: Pending) {
    match p
    case RetryTimer(id, interval) => id == m.timeoutSource && interval == RetryInterval(m.fallbackRate)
    case CaptureHandler(id) => id == m.eventCaptureId
    case CaptureTimer(id, delay) => id == m.eventCaptureSource && delay == BLOCK_EVENTS_TIME
    case SaverSubscription(id) => id == m.screenSaverChangedId
    case IdleWatch(id, threshold, mode) => id == m.idleMonitorWatchId && threshold == IdleThreshold(mode)
    case MinDisplayTimer(_, delay) => delay == MIN_DISPLAY_TIME
  }

  predicate WatchArmed(m: Machine, mode: IdleMode) {
    IdleWatch(m.idleMonitorWatchId, IdleThreshold(mode), mode) in m.pending
  }

  /** The machine invariant: every nonzero handle has exactly its one
   *  pending callback, every pending callback belongs to a stored handle
   *  (or is a minimum-display timer), capture handler and timer are armed
   *  together, handles are older than `nextHandle`, at most one idle watch
   *  exists, and the modal grab is
   *  held exactly while the dialog is shown. */
  predicate Valid(m: Machine) {
    && (forall p :: p in m.pending ==> 0 < p.id < m.nextHandle && BelongsTo(m, p))
    && (m.timeoutSource != 0 <==> RetryTimer(m.timeoutSource, RetryInterval(m.fallbackRate)) in m.pending)
    && (m.eventCaptureId != 0 <==> CaptureHandler(m.eventCaptureId) in m.pending)
    && (m.eventCaptureSource != 0 <==> CaptureTimer(m.eventCaptureSource, BLOCK_EVENTS_TIME) in m.pending)
    && (m.eventCaptureId != 0 <==> m.eventCaptureSource != 0)
    && (m.screenSaverChangedId != 0 <==> SaverSubscription(m.screenSaverChangedId) in m.pending)
    && (m.idleMonitorWatchId != 0 <==> WatchArmed(m, OpenWhenIdle) || WatchArmed(m, CloseWhenActive))
    && !(WatchArmed(m, OpenWhenIdle) && WatchArmed(m, CloseWhenActive))
    && ModalIffShown(m.dialog)
    && GroupTweenAgrees(m.dialog)
  }

  /** No retry, capture, screen-saver or idle handle is armed. */
  predicate Disconnected(m: Machine) {
    && m.timeoutSource == 0
    && m.eventCaptureSource == 0
    && m.eventCaptureId == 0
    && m.screenSaverChangedId == 0
    && m.idleMonitorWatchId == 0
  }

  /** The pending callbacks with the idle watch `id` removed. */
  function WithoutWatch(pending: set<Pending>, id: nat): (r: set<Pending>)
    ensures forall p :: p in r <==> p in pending && !(p.IdleWatch? && p.id == id)
  {
    set p | p in pending && !(p.IdleWatch? && p.id == id)
  }

  /** `_disableEventCapture`. */
  function DisableEventCapture(m: Machine): (r: Machine)
    ensures r.eventCaptureSource == 0 && r.eventCaptureId == 0
    ensures r == m.(eventCaptureSource := 0, eventCaptureId := 0, pending := r.pending)
    ensures Valid(m) ==> Valid(r)
    ensures Valid(m) ==> forall p :: p in r.pending <==> p in m.pending && !p.CaptureTimer? && !p.CaptureHandler?
  {
    var m1 :=
      if m.eventCaptureSource != 0 then
        m.(pending := m.pending - {CaptureTimer(m.eventCaptureSource, BLOCK_EVENTS_TIME)}, eventCaptureSource := 0)
      else m;
    if m1.eventCaptureId != 0 then
      m1.(pending := m1.pending - {CaptureHandler(m1.eventCaptureId)}, eventCaptureId := 0)
    else m1
  }

  /** `_enableEventCapture`: the previous handler and timer are cancelled
   *  first, then a new pair is armed. */
  function EnableEventCapture(m: Machine): (r: Machine)
    ensures r == m.(eventCaptureId := r.eventCaptureId, eventCaptureSource := r.eventCaptureSource,
                    pending := r.pending, nextHandle := r.nextHandle)
    ensures m.nextHandle <= r.eventCaptureId && m.nextHandle <= r.eventCaptureSource
    ensures Valid(m) ==> Valid(r)
    ensures Valid(m) ==>
              forall p :: p in r.pending <==>
                (p in m.pending && !p.CaptureTimer? && !p.CaptureHandler?)
                || p == CaptureHandler(r.eventCaptureId)
                || p == CaptureTimer(r.eventCaptureSource, BLOCK_EVENTS_TIME)
  {
    var m1 := DisableEventCapture(m);
    var h := m1.nextHandle;
    m1.(eventCaptureId := h, eventCaptureSource := h + 1, nextHandle := h + 2,
        pending := m1.pending + {CaptureHandler(h), CaptureTimer(h + 1, BLOCK_EVENTS_TIME)})
  }

  /** Whether the capture handler swallows an event: key presses other
   *  than Escape and pointer presses and releases. */
  predicate Swallows(ev: EventType, keysym: nat) {
    (ev == KeyPress && keysym != ESCAPE_KEYSYM) || ev == ButtonPress || ev == ButtonRelease
  }

  /** `_onEventCapture`: the result says whether the event is swallowed;
   *  a swallowed key press also re-arms the capture window. */
  function OnEventCapture(m: Machine, ev: EventType, keysym: nat): (r: (Machine, bool))
    ensures r.1 <==> Swallows(ev, keysym)
    ensures ev == KeyPress && keysym != ESCAPE_KEYSYM ==> r.0 == EnableEventCapture(m)
    ensures !(ev == KeyPress && keysym != ESCAPE_KEYSYM) ==> r.0 == m
  {
    match ev
    case KeyPress =>
      if keysym == ESCAPE_KEYSYM then (m, false) else (EnableEventCapture(m), true)
    case ButtonPress => (m, true)
    case ButtonRelease => (m, true)
    case _ => (m, false)
  }

  /** `_disableIdleMonitor`. */
  function DisableIdleMonitor(m: Machine): (r: Machine)
    ensures r.idleMonitorWatchId == 0
    ensures r == m.(idleMonitorWatchId := 0, pending := r.pending)
    ensures Valid(m) ==> Valid(r)
    ensures Valid(m) ==> forall p :: p in r.pending <==> p in m.pending && !p.IdleWatch?
  {
    if m.idleMonitorWatchId != 0 then
      m.(pending := WithoutWatch(m.pending, m.idleMonitorWatchId), idleMonitorWatchId := 0)
    else m
  }

  /** `_openWhenIdle` (OpenWhenIdle) and `_closeWhenActive`
   *  (CloseWhenActive): the previous watch is removed, then one watch of
   *  the given mode is added. */
  function WatchIdle(m: Machine, mode: IdleMode): (r: Machine)
    ensures r == m.(idleMonitorWatchId := r.idleMonitorWatchId, pending := r.pending,
                    nextHandle := r.nextHandle)
    ensures r.idleMonitorWatchId == m.nextHandle && r.nextHandle == m.nextHandle + 1
    ensures Valid(m) ==> Valid(r) && WatchArmed(r, mode)
    ensures Valid(m) ==>
              forall p :: p in r.pending <==>
                (p in m.pending && !p.IdleWatch?)
                || p == IdleWatch(r.idleMonitorWatchId, IdleThreshold(mode), mode)
  {
    var m1 := DisableIdleMonitor(m);
    var h := m1.nextHandle;
    m1.(idleMonitorWatchId := h, nextHandle := h + 1,
        pending := m1.pending + {IdleWatch(h, IdleThreshold(mode), mode)})
  }

  /** `_disconnectInternals`: capture, idle watch, retry timer and
   *  screen-saver subscription are all cancelled and their handles zeroed. */
  function DisconnectInternals(m: Machine): (r: Machine)
    ensures Disconnected(r)
    ensures r == m.(timeoutSource := 0, eventCaptureSource := 0, eventCaptureId := 0,
                    screenSaverChangedId := 0, idleMonitorWatchId := 0, pending := r.pending)
    ensures Valid(m) ==> Valid(r)
    ensures Valid(m) ==> forall p :: p in r.pending <==> p in m.pending && p.MinDisplayTimer?
  {
    var m1 := DisableIdleMonitor(DisableEventCapture(m));
    var m2 :=
      if m1.timeoutSource != 0 then
        m1.(pending := m1.pending - {RetryTimer(m1.timeoutSource, RetryInterval(m1.fallbackRate))},
            timeoutSource := 0)
      else m1;
    if m2.screenSaverChangedId != 0 then
      m2.(pending := m2.pending - {SaverSubscription(m2.screenSaverChangedId)}, screenSaverChangedId := 0)
    else m2
  }

  /** The button captions, in order. */
  function ButtonLabels(buttons: seq<Button>): (r: seq<string>)
    ensures |r| == |buttons|
    ensures forall i :: 0 <= i < |buttons| ==> r[i] == buttons[i].caption
  {
    seq(|buttons|, i requires 0 <= i < |buttons| => buttons[i].caption)
  }

  /** A new resident notification carrying the title, the description and
   *  one button per entry, shown once. */
  function NewNotification(id: nat, title: string, body: string, buttons: seq<Button>): TrayNotification {
    TrayNotification(id, title, body, ButtonLabels(buttons), true, 1)
  }

  /** `_openNotification`: create the notification if there is none,
   *  otherwise show the existing one again. */
  function OpenNotification(m: Machine): (r: Machine)
    ensures r.notification.Some? && r.notification.value.resident == (m.notification.None? || m.notification.value.resident)
    ensures m.notification.None? ==>
              && r.notification.value == NewNotification(m.nextHandle, m.notificationTitle,
                                                         m.notificationDescription, m.notificationButtons)
              && r.nextHandle == m.nextHandle + 1
    ensures m.notification.Some? ==>
              && r.notification.value == m.notification.value.(shown := m.notification.value.shown + 1)
              && r.nextHandle == m.nextHandle
    ensures r == m.(notification := r.notification, nextHandle := r.nextHandle)
    ensures Valid(m) ==> Valid(r)
  {
    match m.notification
    case None =>
      m.(notification := Some(NewNotification(m.nextHandle, m.notificationTitle,
                                              m.notificationDescription, m.notificationButtons)),
         nextHandle := m.nextHandle + 1)
    case Some(n) =>
      m.(notification := Some(n.(shown := n.shown + 1)))
  }

  /** `_closeNotification`: the notification is destroyed. */
  function CloseNotification(m: Machine): (r: Machine)
    ensures IsOpened(r)
    ensures r == m.(notification := None)
    ensures Valid(m) ==> Valid(r)
  {
    assert forall p :: BelongsTo(m, p) <==> BelongsTo(m.(notification := None), p);
    if m.notification.Some? then m.(notification := None) else m
  }

  /** What the handles are once `open` has cleared them and captured input:
   *  the earlier minimum-display timers and the two capture handles; a
   *  proof step only. */
  lemma CapturePending(m: Machine)
    ensures var r := EnableEventCapture(DisconnectInternals(CloseNotification(m)));
            Valid(m) ==>
              forall p :: p in r.pending <==>
                (p in m.pending && p.MinDisplayTimer?)
                || p == CaptureHandler(r.eventCaptureId)
                || p == CaptureTimer(r.eventCaptureSource, BLOCK_EVENTS_TIME)
  {
  }

  /** The branch of `open` taken once the lightbox is open or opening: the
   *  notification is destroyed, every handle cancelled, input captured, and
   *  an untracked MIN_DISPLAY_TIME timer armed. */
  function StartDisplay(m: Machine): (r: Machine)
    ensures r == m.(notification := None, timeoutSource := 0, screenSaverChangedId := 0, idleMonitorWatchId := 0,
                    eventCaptureId := r.eventCaptureId, eventCaptureSource := r.eventCaptureSource,
                    pending := r.pending, nextHandle := r.nextHandle)
    ensures m.nextHandle <= r.eventCaptureId && m.nextHandle <= r.eventCaptureSource
    ensures r.eventCaptureSource != 0 && r.eventCaptureId != 0
    ensures r.eventCaptureSource < r.nextHandle && r.eventCaptureId < r.nextHandle
    ensures m.nextHandle <= r.nextHandle - 1
    ensures CaptureHandler(r.eventCaptureId) in r.pending
    ensures CaptureTimer(r.eventCaptureSource, BLOCK_EVENTS_TIME) in r.pending
    ensures MinDisplayTimer(r.nextHandle - 1, MIN_DISPLAY_TIME) in r.pending
    ensures forall p :: p in m.pending && p.MinDisplayTimer? ==> p in r.pending
    ensures Valid(m) ==>
              forall p :: p in r.pending <==>
                (p in m.pending && p.MinDisplayTimer?)
                || p == CaptureHandler(r.eventCaptureId)
                || p == CaptureTimer(r.eventCaptureSource, BLOCK_EVENTS_TIME)
                || p == MinDisplayTimer(r.nextHandle - 1, MIN_DISPLAY_TIME)
  {
    var m1 := EnableEventCapture(DisconnectInternals(CloseNotification(m)));
    CapturePending(m);
    var h := m1.nextHandle;
    m1.(pending := m1.pending + {MinDisplayTimer(h, MIN_DISPLAY_TIME)}, nextHandle := h + 1)
  }

  /** The branch of `open` taken when the grab is refused: wait for the
   *  screen saver to go away if it is active, otherwise poll; neither is
   *  armed twice. */
  function WaitForFocus(m: Machine, saverActive: bool): (r: Machine)
    ensures r == m.(tries := r.tries, timeoutSource := r.timeoutSource, screenSaverChangedId := r.screenSaverChangedId,
                    pending := r.pending, nextHandle := r.nextHandle)
    ensures saverActive ==>
              && r.screenSaverChangedId != 0 && r.timeoutSource == m.timeoutSource && r.tries == m.tries
              && (m.screenSaverChangedId != 0 ==> r == m)
              && (m.screenSaverChangedId == 0 ==>
                    && r.screenSaverChangedId == m.nextHandle && r.nextHandle == m.nextHandle + 1
                    && r.pending == m.pending + {SaverSubscription(r.screenSaverChangedId)})
    ensures !saverActive ==>
              && r.timeoutSource != 0 && r.screenSaverChangedId == m.screenSaverChangedId
              && (m.timeoutSource != 0 ==> r == m)
              && (m.timeoutSource == 0 ==>
                    && r.tries == 1 && r.timeoutSource == m.nextHandle && r.nextHandle == m.nextHandle + 1
                    && r.pending == m.pending + {RetryTimer(r.timeoutSource, RetryInterval(m.fallbackRate))})
  {
    if saverActive then
      if m.screenSaverChangedId == 0 then
        var h := m.nextHandle;
        m.(screenSaverChangedId := h, nextHandle := h + 1, pending := m.pending + {SaverSubscription(h)})
      else m
    else if m.timeoutSource == 0 then
      var h := m.nextHandle;
      m.(tries := 1, timeoutSource := h, nextHandle := h + 1,
         pending := m.pending + {RetryTimer(h, RetryInterval(m.fallbackRate))})
    else m
  }

  /** `open`.  `granted` answers the modal request if one is made,
   *  `saverActive` is the screen saver's state, read when the dialog
   *  cannot open.  The result says whether the dialog is open or opening. */
  function Open(m: Machine, granted: bool, saverActive: bool): (r: (Machine, bool))
    ensures r.1 <==> Shown(m.dialog) || m.dialog.hasModal || granted
    ensures r.1 ==>
              && r.0.dialog == LightboxSpec.Open(m.dialog, granted).0
              && IsOpened(r.0)
              && r.0.timeoutSource == 0 && r.0.screenSaverChangedId == 0 && r.0.idleMonitorWatchId == 0
              && m.nextHandle <= r.0.eventCaptureId && m.nextHandle <= r.0.eventCaptureSource
    ensures r.1 ==>
              r.0 == m.(dialog := r.0.dialog, notification := None, timeoutSource := 0, screenSaverChangedId := 0,
                        idleMonitorWatchId := 0, eventCaptureId := r.0.eventCaptureId,
                        eventCaptureSource := r.0.eventCaptureSource, pending := r.0.pending,
                        nextHandle := r.0.nextHandle)
    ensures r.1 ==> MinDisplayTimer(r.0.nextHandle - 1, MIN_DISPLAY_TIME) in r.0.pending
    ensures !r.1 ==> r.0 == WaitForFocus(m, saverActive)
    ensures !r.1 ==>
              r.0 == m.(tries := r.0.tries, timeoutSource := r.0.timeoutSource,
                        screenSaverChangedId := r.0.screenSaverChangedId, pending := r.0.pending,
                        nextHandle := r.0.nextHandle)
    ensures !r.1 && saverActive ==>
              && r.0.screenSaverChangedId != 0 && r.0.timeoutSource == m.timeoutSource
              && (m.screenSaverChangedId != 0 ==> r.0 == m)
    ensures !r.1 && !saverActive ==>
              && r.0.timeoutSource != 0 && r.0.screenSaverChangedId == m.screenSaverChangedId
              && (m.timeoutSource != 0 ==> r.0 == m)
              && (m.timeoutSource == 0 ==> r.0.tries == 1)
  {
    var (d, ok) := LightboxSpec.Open(m.dialog, granted);
    if ok then (StartDisplay(m.(dialog := d)), true)
    else (WaitForFocus(m, saverActive), false)
  }

  /** `close`: all handles are cancelled, the notification is created or
   *  shown again, the dialog closes, an open-when-idle watch is armed and
   *  `closed` is emitted, whatever the state was. */
  function Close(m: Machine): (r: Machine)
    ensures r.timeoutSource == 0 && r.eventCaptureSource == 0 && r.eventCaptureId == 0
    ensures r.screenSaverChangedId == 0 && r.idleMonitorWatchId != 0
    ensures !IsOpened(r) && r.notification.value.resident == (m.notification.None? || m.notification.value.resident)
    ensures m.notification.Some? ==>
              r.notification.value == m.notification.value.(shown := m.notification.value.shown + 1)
    ensures m.notification.None? ==>
              r.notification.value == NewNotification(m.nextHandle, m.notificationTitle,
                                                       m.notificationDescription, m.notificationButtons)
    ensures r.dialog == Emit(LightboxSpec.Close(m.dialog), ClosedSignal)
    ensures r.tries == m.tries && r.fallbackRate == m.fallbackRate
    ensures r.notificationTitle == m.notificationTitle && r.notificationDescription == m.notificationDescription
    ensures r.notificationButtons == m.notificationButtons
    ensures IdleWatch(r.idleMonitorWatchId, IDLE_TIME_TO_OPEN, OpenWhenIdle) in r.pending
  {
    var m1 := OpenNotification(DisconnectInternals(m));
    var m2 := m1.(dialog := LightboxSpec.Close(m1.dialog));
    var m3 := WatchIdle(m2, OpenWhenIdle);
    m3.(dialog := Emit(m3.dialog, ClosedSignal))
  }

  /** `this._tries += 1`; a proof step only. */
  function CountTry(m: Machine): Machine {
    m.(tries := m.tries + 1)
  }

  /** `_onTimeout`, one tick of the retry timer.  The result says whether
   *  the timer keeps running. */
  function OnTimeout(m: Machine, granted: bool, saverActive: bool): (r: (Machine, bool))
    ensures m.timeoutSource != 0 ==>
              (r.1 <==> !(Shown(m.dialog) || m.dialog.hasModal || granted)
                        && m.tries + 1 <= FallbackTicks(m.fallbackRate))
    ensures !r.1 ==> r.0.timeoutSource == 0
    ensures m.timeoutSource != 0 && r.1 ==>
              r.0.timeoutSource == m.timeoutSource && r.0.tries == m.tries + 1
    ensures r.1 ==> r.0 == WaitForFocus(CountTry(m), saverActive)
    ensures r.1 ==>
              r.0 == m.(tries := r.0.tries, timeoutSource := r.0.timeoutSource,
                        screenSaverChangedId := r.0.screenSaverChangedId, pending := r.0.pending,
                        nextHandle := r.0.nextHandle)
    ensures m.timeoutSource != 0 && !(Shown(m.dialog) || m.dialog.hasModal || granted)
            && m.tries + 1 > FallbackTicks(m.fallbackRate) ==>
              !r.1 && !IsOpened(r.0) && r.0.tries == m.tries + 1
    ensures Shown(m.dialog) || m.dialog.hasModal || granted ==>
              r == (Open(CountTry(m), granted, saverActive).0, false)
    ensures m.timeoutSource != 0 && !(Shown(m.dialog) || m.dialog.hasModal || granted)
            && m.tries + 1 > FallbackTicks(m.fallbackRate) ==>
              r == (Close(Open(CountTry(m), granted, saverActive).0), false)
  {
    FallBack(Open(CountTry(m), granted, saverActive), FallbackTicks(m.fallbackRate))
  }

  /** The end of a tick, given what `open` answered: stop once open, fall
   *  back to `close` once `_tries` passes `limit`, otherwise keep polling;
   *  a proof step only, stated through `OnTimeout`'s contract. */
  function FallBack(next: (Machine, bool), limit: int): (Machine, bool) {
    if next.1 then (next.0, false)
    else if next.0.tries > limit then (Close(next.0), false)
    else (next.0, true)
  }

  /** `_onScreenSaverChanged`: when the screen saver goes away, try again.
   *  `saverActiveNow` is what the proxy reports during that attempt. */
  function OnScreenSaverChanged(m: Machine, active: bool, granted: bool, saverActiveNow: bool): (r: Machine)
    ensures active ==> r == m
    ensures !active ==> r == Open(m, granted, saverActiveNow).0
    ensures !active && (Shown(m.dialog) || m.dialog.hasModal || granted) ==>
              IsOpened(r) && r.screenSaverChangedId == 0 && r.timeoutSource == 0
    ensures !active && !(Shown(m.dialog) || m.dialog.hasModal || granted) ==>
              r.dialog == m.dialog && r.notification == m.notification
  {
    if !active then Open(m, granted, saverActiveNow).0 else m
  }

  /** The callback of the idle watch of the given mode: an open-when-idle
   *  watch opens only when the user became idle, a close-when-active watch
   *  closes only when the user became active. */
  function OnIdleWatch(m: Machine, mode: IdleMode, becameIdle: bool, granted: bool, saverActive: bool): (r: Machine)
    ensures mode == OpenWhenIdle && !becameIdle ==> r == m
    ensures mode == OpenWhenIdle && becameIdle ==> r == Open(m, granted, saverActive).0
    ensures mode == CloseWhenActive && !becameIdle ==> r == Close(m)
    ensures mode == OpenWhenIdle && becameIdle && (Shown(m.dialog) || m.dialog.hasModal || granted) ==>
              IsOpened(r) && r.idleMonitorWatchId == 0
    ensures mode == CloseWhenActive && becameIdle ==> r == m
    ensures mode == CloseWhenActive && !becameIdle ==>
              !IsOpened(r) && r.dialog == Emit(LightboxSpec.Close(m.dialog), ClosedSignal)
    ensures mode == CloseWhenActive && !becameIdle ==> WatchArmed(r, OpenWhenIdle)
  {
    match mode
    case OpenWhenIdle => if becameIdle then Open(m, granted, saverActive).0 else m
    case CloseWhenActive => if !becameIdle then Close(m) else m
  }

  /** The untracked MIN_DISPLAY_TIME timer fires: it arms the
   *  close-when-active watch whatever the dialog's state, and ends. */
  function OnMinDisplayTimer(m: Machine, id: nat): (r: Machine)
    ensures MinDisplayTimer(id, MIN_DISPLAY_TIME) !in r.pending
    ensures r == m.(idleMonitorWatchId := r.idleMonitorWatchId, pending := r.pending, nextHandle := r.nextHandle)
    ensures r.idleMonitorWatchId == m.nextHandle && r.nextHandle == m.nextHandle + 1
    ensures Valid(m) ==> Valid(r) && WatchArmed(r, CloseWhenActive)
    ensures Valid(m) ==>
              forall p :: p in r.pending <==>
                (p in m.pending && !p.IdleWatch? && p != MinDisplayTimer(id, MIN_DISPLAY_TIME))
                || p == IdleWatch(r.idleMonitorWatchId, IDLE_TIME_TO_CLOSE, CloseWhenActive)
  {
    var m1 := WatchIdle(m, CloseWhenActive);
    m1.(pending := m1.pending - {MinDisplayTimer(id, MIN_DISPLAY_TIME)})
  }

  /** The `_group` tween completes; when that emits `opened`, the handler
   *  connected at construction destroys the notification. */
  function OnGroupTweenComplete(m: Machine): (r: Machine)
    ensures r.dialog == CompleteGroupTween(m.dialog).0
    ensures m.dialog.groupTween == FadeIn ==> IsOpened(r)
    ensures m.dialog.groupTween != FadeIn ==> r.notification == m.notification
    ensures r.pending == m.pending
    ensures r == m.(dialog := r.dialog, notification := r.notification)
    ensures Valid(m) ==> Valid(r)
  {
    var (d, didOpen) := CompleteGroupTween(m.dialog);
    var m1 := m.(dialog := d);
    if didOpen then CloseNotification(m1) else m1
  }

  /** `setNotificationTitle`: an existing notification is updated in
   *  place, none is created. */
  function SetNotificationTitle(m: Machine, text: string): (r: Machine)
    ensures r.notificationTitle == text
    ensures r.notification.Some? <==> m.notification.Some?
    ensures m.notification.Some? ==>
              r.notification.value == m.notification.value.(title := text, body := m.notificationDescription)
    ensures r == m.(notificationTitle := text, notification := r.notification)
  {
    var m1 := m.(notificationTitle := text);
    match m1.notification
    case None => m1
    case Some(n) => m1.(notification := Some(n.(title := m1.notificationTitle, body := m1.notificationDescription)))
  }

  /** `setNotificationDescription`: likewise for the body. */
  function SetNotificationDescription(m: Machine, text: string): (r: Machine)
    ensures r.notificationDescription == text
    ensures r.notification.Some? <==> m.notification.Some?
    ensures m.notification.Some? ==>
              r.notification.value == m.notification.value.(title := m.notificationTitle, body := text)
    ensures r == m.(notificationDescription := text, notification := r.notification)
  {
    var m1 := m.(notificationDescription := text);
    match m1.notification
    case None => m1
    case Some(n) => m1.(notification := Some(n.(title := m1.notificationTitle, body := m1.notificationDescription)))
  }

  /** `setNotificationButtons`: only the stored list changes; a live
   *  notification keeps its buttons. */
  function SetNotificationButtons(m: Machine, buttons: seq<Button>): (r: Machine)
    ensures r.notificationButtons == buttons && r.notification == m.notification
    ensures r == m.(notificationButtons := buttons)
  {
    m.(notificationButtons := buttons)
  }

  /** The notification's 'action-invoked' handler for button `index`: the
   *  action of the CURRENT button list at that index, if there is one
   *  (otherwise the failure is caught and logged). */
  function InvokedAction(m: Machine, index: nat): (r: Option<nat>)
    ensures r.Some? <==> index < |m.notificationButtons|
    ensures r.Some? ==> r.value == m.notificationButtons[index].action
  {
    if index < |m.notificationButtons| then Some(m.notificationButtons[index].action) else None
  }

  /** The notification's 'clicked' handler re-emits `clicked`. */
  function NotificationClicked(m: Machine): (r: Machine)
    ensures r.dialog.emitted == m.dialog.emitted + [ClickedSignal]
    ensures r == m.(dialog := r.dialog) && r.dialog == m.dialog.(emitted := r.dialog.emitted)
  {
    m.(dialog := Emit(m.dialog, ClickedSignal))
  }

  /** `destroy`: the notification is destroyed, every tracked handle
   *  cancelled, the dialog closed and its actor destroyed. */
  function Destroy(m: Machine): (r: Machine)
    ensures IsOpened(r) && Disconnected(r)
    ensures r.dialog == LightboxSpec.Destroy(LightboxSpec.Close(m.dialog))
    ensures r == m.(dialog := r.dialog, notification := None, timeoutSource := 0, eventCaptureSource := 0,
                    eventCaptureId := 0, screenSaverChangedId := 0, idleMonitorWatchId := 0, pending := r.pending)
    ensures Valid(m) ==> !r.dialog.hasModal
    ensures r.dialog.groupTween == NoGroupTween && !r.dialog.layoutTween
    ensures r.dialog.emitted == m.dialog.emitted + [DestroySignal]
    ensures Valid(m) ==> Valid(r)
    ensures Valid(m) ==> forall p :: p in r.pending <==> p in m.pending && p.MinDisplayTimer?
  {
    var m1 := DisconnectInternals(CloseNotification(m));
    m1.(dialog := LightboxSpec.Destroy(LightboxSpec.Close(m1.dialog)))
  }
}
