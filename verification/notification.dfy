/** The notification dialog as an object whose fields its methods update in
 *  place.  The lightbox it shows is a `LightboxDialog` it owns (the source
 *  extends it; here the superclass part is a separate object).  Each
 *  method follows the corresponding function of `NotificationSpec`, and the
 *  public ones keep `Valid()`. */
module Notification {
  import LightboxSpec
  import opened NotificationSpec
  import opened Lightbox
  import NotificationProperties

  class NotificationDialog {
    const dialog: LightboxDialog
    const fallbackRate: Positive
    var tries: int
    var timeoutSource: nat
    var eventCaptureSource: nat
    var eventCaptureId: nat
    var screenSaverChangedId: nat
    var idleMonitorWatchId: nat
    var notification: Option<TrayNotification>
    var notificationTitle: string
    var notificationDescription: string
    var notificationButtons: seq<Button>
    /** The callbacks the main loop, the stage, the screen-saver proxy and
     *  the idle monitor may still deliver to this dialog. */
    var pending: set<Pending>
    /** Where the next foreign handle comes from. */
    var nextHandle: Positive
    /** The texts shown by the dialog itself; `title` is never given a
     *  value at construction. */
    var timer: string
    var title: Option<string>
    var description: string

    /** The dialog's state as a value. */
    function Snapshot(): Machine
      reads this, dialog
    {
      Machine(dialog.Snapshot(), fallbackRate, tries, timeoutSource, eventCaptureSource, eventCaptureId,
              screenSaverChangedId, idleMonitorWatchId, notification, notificationTitle,
              notificationDescription, notificationButtons, pending, nextHandle)
    }

    predicate Valid()
      reads this, dialog
    {
      NotificationSpec.Valid(Snapshot())
    }

    /** `rate` is the default frame rate, the retry timer's ticks per second. */
    constructor (rate: Positive)
      ensures Snapshot() == Init(rate) && Valid() && fresh(dialog)
      ensures timer == "" && title == None && description == ""
    {
      dialog := new LightboxDialog();
      fallbackRate := rate;
      tries := 0;
      timeoutSource := 0;
      eventCaptureSource := 0;
      eventCaptureId := 0;
      screenSaverChangedId := 0;
      idleMonitorWatchId := 0;
      notification := None;
      notificationTitle := "";
      notificationDescription := "";
      notificationButtons := [];
      pending := {};
      nextHandle := 1;
      timer := "";
      title := None;
      description := "";
      new;
      NotificationProperties.InitValid(rate);
    }

    /** A new foreign handle: a GLib source id, a signal connection id, an
     *  idle watch id or a notification. */
    method NewHandle() returns (h: Positive)
      modifies this
      ensures h == old(nextHandle) && nextHandle == h + 1
      ensures Snapshot() == old(Snapshot()).(nextHandle := nextHandle)
      ensures timer == old(timer) && title == old(title) && description == old(description)
    {
      h := nextHandle;
      nextHandle := nextHandle + 1;
    }

    /** `isOpened`: true while no tray notification stands in for the
     *  dialog. */
    predicate IsOpened(): (r: bool)
      reads this, dialog
      ensures r == NotificationSpec.IsOpened(Snapshot())
    {
      notification.None?
    }

    method Open(granted: bool, saverActive: bool) returns (ok: bool)
      requires Valid()
      modifies this, dialog
      ensures (Snapshot(), ok) == NotificationSpec.Open(old(Snapshot()), granted, saverActive)
      ensures Valid()
      ensures timer == old(timer) && title == old(title) && description == old(description)
    {
      ghost var m := Snapshot();
      NotificationProperties.OpenKeepsValid(m, granted, saverActive);
      var shown := dialog.Open(granted);
      if shown {
        StartDisplay();
        return true;
      }
      WaitForFocus(saverActive);
      return false;
    }

    /** The lightbox is open or opening: the notification goes, every
     *  handle is cancelled, input is captured for a while, and activity is
     *  watched after MIN_DISPLAY_TIME. */
    method StartDisplay()
      modifies this
      ensures Snapshot() == NotificationSpec.StartDisplay(old(Snapshot()))
      ensures timer == old(timer) && title == old(title) && description == old(description)
    {
      CloseNotification();
      DisconnectInternals();
      EnableEventCapture();
      var h := NewHandle();
      pending := pending + {MinDisplayTimer(h, MIN_DISPLAY_TIME)};
    }

    /** The grab was refused: wait for the screen saver or poll. */
    method WaitForFocus(saverActive: bool)
      modifies this
      ensures Snapshot() == NotificationSpec.WaitForFocus(old(Snapshot()), saverActive)
      ensures timer == old(timer) && title == old(title) && description == old(description)
    {
      if saverActive {
        if screenSaverChangedId == 0 {
          var h := NewHandle();
          screenSaverChangedId := h;
          pending := pending + {SaverSubscription(h)};
        }
      } else {
        if timeoutSource == 0 {
          tries := 1;
          var h := NewHandle();
          timeoutSource := h;
          pending := pending + {RetryTimer(h, RetryInterval(fallbackRate))};
        }
      }
    }

    method Close()
      requires Valid()
      modifies this, dialog
      ensures Snapshot() == NotificationSpec.Close(old(Snapshot()))
      ensures Valid()
      ensures timer == old(timer) && title == old(title) && description == old(description)
    {
      ghost var m := Snapshot();
      NotificationProperties.CloseKeepsValid(m);
      DisconnectInternals();
      OpenNotification();
      dialog.Close();
      OpenWhenIdle();
      dialog.Emit(LightboxSpec.ClosedSignal);
    }

    /** A tick of the retry timer; the result says whether it keeps running. */
    method OnTimeout(granted: bool, saverActive: bool) returns (keep: bool)
      requires Valid()
      modifies this, dialog
      ensures (Snapshot(), keep) == NotificationSpec.OnTimeout(old(Snapshot()), granted, saverActive)
      ensures Valid()
      ensures timer == old(timer) && title == old(title) && description == old(description)
    {
      ghost var m := Snapshot();
      CountTry();
      var ok := Open(granted, saverActive);
      ghost var next := (Snapshot(), ok);
      keep := FallBack(ok);
      NotificationProperties.OnTimeoutByOpen(m, granted, saverActive, next, (Snapshot(), keep));
    }

    /** `this._tries += 1`. */
    method CountTry()
      requires Valid()
      modifies this
      ensures Snapshot() == NotificationSpec.CountTry(old(Snapshot()))
      ensures Valid()
      ensures timer == old(timer) && title == old(title) && description == old(description)
    {
      NotificationProperties.ValidIgnoresTries(Snapshot(), tries + 1);
      tries := tries + 1;
    }

    /** The end of a tick: stop once opened, fall back to `close` past the
     *  limit, otherwise keep polling. */
    method FallBack(ok: bool) returns (keep: bool)
      requires Valid()
      modifies this, dialog
      ensures (Snapshot(), keep) == NotificationSpec.FallBack((old(Snapshot()), ok), FallbackTicks(fallbackRate))
      ensures Valid()
      ensures timer == old(timer) && title == old(title) && description == old(description)
    {
      if ok {
        return false;
      }
      if tries > FallbackTicks(fallbackRate) {
        Close();
        return false;
      }
      return true;
    }

    method OnScreenSaverChanged(active: bool, granted: bool, saverActiveNow: bool)
      requires Valid()
      modifies this, dialog
      ensures Snapshot() == NotificationSpec.OnScreenSaverChanged(old(Snapshot()), active, granted, saverActiveNow)
      ensures Valid()
      ensures timer == old(timer) && title == old(title) && description == old(description)
    {
      if !active {
        var _ := Open(granted, saverActiveNow);
      }
    }

    method OpenNotification()
      modifies this
      ensures Snapshot() == NotificationSpec.OpenNotification(old(Snapshot()))
      ensures timer == old(timer) && title == old(title) && description == old(description)
    {
      if notification.None? {
        var h := NewHandle();
        var n := CreateNotification(h, notificationTitle, notificationDescription, notificationButtons);
        notification := Some(n);
      } else {
        notification := Some(notification.value.(shown := notification.value.shown + 1));
      }
    }

    /** The notification as `_openNotification` builds it: resident, then
     *  one button per entry of the list, button `i` carrying id `i`. */
    static method CreateNotification(id: nat, title: string, body: string, buttons: seq<Button>)
      returns (n: TrayNotification)
      ensures n == NewNotification(id, title, body, buttons)
    {
      n := TrayNotification(id, title, body, [], false, 1);
      n := n.(resident := true);
      var i := 0;
      while i < |buttons|
        invariant 0 <= i <= |buttons|
        invariant n == TrayNotification(id, title, body, ButtonLabels(buttons[..i]), true, 1)
      {
        n := n.(buttons := n.buttons + [buttons[i].caption]);
        assert ButtonLabels(buttons[..i + 1]) == ButtonLabels(buttons[..i]) + [buttons[i].caption];
        i := i + 1;
      }
      assert buttons[..i] == buttons;
    }

    method CloseNotification()
      modifies this
      ensures Snapshot() == NotificationSpec.CloseNotification(old(Snapshot()))
      ensures timer == old(timer) && title == old(title) && description == old(description)
    {
      if notification.Some? {
        notification := None;
      }
    }

    method EnableEventCapture()
      modifies this
      ensures Snapshot() == NotificationSpec.EnableEventCapture(old(Snapshot()))
      ensures timer == old(timer) && title == old(title) && description == old(description)
    {
      DisableEventCapture();
      var h := NewHandle();
      eventCaptureId := h;
      pending := pending + {CaptureHandler(h)};
      var t := NewHandle();
      eventCaptureSource := t;
      pending := pending + {CaptureTimer(t, BLOCK_EVENTS_TIME)};
    }

    method DisableEventCapture()
      modifies this
      ensures Snapshot() == NotificationSpec.DisableEventCapture(old(Snapshot()))
      ensures timer == old(timer) && title == old(title) && description == old(description)
    {
      if eventCaptureSource != 0 {
        pending := pending - {CaptureTimer(eventCaptureSource, BLOCK_EVENTS_TIME)};
        eventCaptureSource := 0;
      }
      if eventCaptureId != 0 {
        pending := pending - {CaptureHandler(eventCaptureId)};
        eventCaptureId := 0;
      }
    }

    /** The stage's 'captured-event' handler; `swallowed` is its answer. */
    method OnEventCapture(ev: EventType, keysym: nat) returns (swallowed: bool)
      requires Valid()
      modifies this
      ensures (Snapshot(), swallowed) == NotificationSpec.OnEventCapture(old(Snapshot()), ev, keysym)
      ensures Valid()
      ensures timer == old(timer) && title == old(title) && description == old(description)
    {
      match ev
      case KeyPress =>
        if keysym == ESCAPE_KEYSYM {
          return false;
        }
        EnableEventCapture();
        return true;
      case ButtonPress =>
        return true;
      case ButtonRelease =>
        return true;
      case _ =>
        return false;
    }

    /** The capture timer ends the capture; the timer does not repeat. */
    method OnEventCaptureTimeout() returns (keep: bool)
      requires Valid()
      modifies this
      ensures Snapshot() == NotificationSpec.DisableEventCapture(old(Snapshot()))
      ensures Valid() && !keep
      ensures timer == old(timer) && title == old(title) && description == old(description)
    {
      DisableEventCapture();
      return false;
    }

    method OpenWhenIdle()
      modifies this
      ensures Snapshot() == NotificationSpec.WatchIdle(old(Snapshot()), IdleMode.OpenWhenIdle)
      ensures timer == old(timer) && title == old(title) && description == old(description)
    {
      DisableIdleMonitor();
      var h := NewHandle();
      idleMonitorWatchId := h;
      pending := pending + {IdleWatch(h, IDLE_TIME_TO_OPEN, IdleMode.OpenWhenIdle)};
    }

    method CloseWhenActive()
      modifies this
      ensures Snapshot() == NotificationSpec.WatchIdle(old(Snapshot()), IdleMode.CloseWhenActive)
      ensures timer == old(timer) && title == old(title) && description == old(description)
    {
      DisableIdleMonitor();
      var h := NewHandle();
      idleMonitorWatchId := h;
      pending := pending + {IdleWatch(h, IDLE_TIME_TO_CLOSE, IdleMode.CloseWhenActive)};
    }

    method DisableIdleMonitor()
      modifies this
      ensures Snapshot() == NotificationSpec.DisableIdleMonitor(old(Snapshot()))
      ensures timer == old(timer) && title == old(title) && description == old(description)
    {
      if idleMonitorWatchId != 0 {
        pending := WithoutWatch(pending, idleMonitorWatchId);
        idleMonitorWatchId := 0;
      }
    }

    /** The callback of the idle watch armed in `mode`. */
    method OnIdleWatch(mode: IdleMode, becameIdle: bool, granted: bool, saverActive: bool)
      requires Valid()
      modifies this, dialog
      ensures Snapshot() == NotificationSpec.OnIdleWatch(old(Snapshot()), mode, becameIdle, granted, saverActive)
      ensures Valid()
      ensures timer == old(timer) && title == old(title) && description == old(description)
    {
      match mode
      case OpenWhenIdle =>
        if becameIdle {
          var _ := Open(granted, saverActive);
        }
      case CloseWhenActive =>
        if !becameIdle {
          Close();
        }
    }

    /** The MIN_DISPLAY_TIME timer armed by a successful `open`. */
    method OnMinDisplayTimer(id: nat) returns (keep: bool)
      requires Valid()
      modifies this
      ensures Snapshot() == NotificationSpec.OnMinDisplayTimer(old(Snapshot()), id)
      ensures Valid() && !keep
      ensures timer == old(timer) && title == old(title) && description == old(description)
    {
      CloseWhenActive();
      pending := pending - {MinDisplayTimer(id, MIN_DISPLAY_TIME)};
      return false;
    }

    /** The `_group` fade completes; the 'opened' handler connected at
     *  construction closes the notification. */
    method OnGroupTweenComplete()
      requires Valid()
      modifies this, dialog
      ensures Snapshot() == NotificationSpec.OnGroupTweenComplete(old(Snapshot()))
      ensures Valid()
      ensures timer == old(timer) && title == old(title) && description == old(description)
    {
      var didOpen := dialog.CompleteGroupTween();
      if didOpen {
        CloseNotification();
      }
    }

    method SetNotificationTitle(text: string)
      requires Valid()
      modifies this
      ensures Snapshot() == NotificationSpec.SetNotificationTitle(old(Snapshot()), text)
      ensures Valid()
      ensures timer == old(timer) && title == old(title) && description == old(description)
    {
      notificationTitle := text;
      if notification.Some? {
        notification := Some(notification.value.(title := notificationTitle, body := notificationDescription));
      }
    }

    method SetNotificationDescription(text: string)
      requires Valid()
      modifies this
      ensures Snapshot() == NotificationSpec.SetNotificationDescription(old(Snapshot()), text)
      ensures Valid()
      ensures timer == old(timer) && title == old(title) && description == old(description)
    {
      notificationDescription := text;
      if notification.Some? {
        notification := Some(notification.value.(title := notificationTitle, body := notificationDescription));
      }
    }

    method SetNotificationButtons(buttons: seq<Button>)
      requires Valid()
      modifies this
      ensures Snapshot() == NotificationSpec.SetNotificationButtons(old(Snapshot()), buttons)
      ensures Valid()
      ensures timer == old(timer) && title == old(title) && description == old(description)
    {
      notificationButtons := buttons;
    }

    /** The 'action-invoked' handler for button `index`: the action to run,
     *  looked up in the current button list. */
    method InvokeAction(index: nat) returns (action: Option<nat>)
      ensures action == InvokedAction(Snapshot(), index)
    {
      if index < |notificationButtons| {
        action := Some(notificationButtons[index].action);
      } else {
        action := None;  // the lookup fails; the error is logged
      }
    }

    /** The notification's 'clicked' handler. */
    method NotificationClicked()
      requires Valid()
      modifies dialog
      ensures Snapshot() == NotificationSpec.NotificationClicked(old(Snapshot()))
      ensures Valid()
    {
      dialog.Emit(LightboxSpec.ClickedSignal);
    }

    method DisconnectInternals()
      modifies this
      ensures Snapshot() == NotificationSpec.DisconnectInternals(old(Snapshot()))
      ensures timer == old(timer) && title == old(title) && description == old(description)
    {
      DisableEventCapture();
      DisableIdleMonitor();
      if timeoutSource != 0 {
        pending := pending - {RetryTimer(timeoutSource, RetryInterval(fallbackRate))};
        timeoutSource := 0;
      }
      if screenSaverChangedId != 0 {
        pending := pending - {SaverSubscription(screenSaverChangedId)};
        screenSaverChangedId := 0;
      }
    }

    method Destroy()
      requires Valid()
      modifies this, dialog
      ensures Snapshot() == NotificationSpec.Destroy(old(Snapshot()))
      ensures Valid()
      ensures timer == old(timer) && title == old(title) && description == old(description)
    {
      CloseNotification();
      DisconnectInternals();
      dialog.Close();
      dialog.Destroy();
    }

    method SetTimer(text: string)
      modifies this
      ensures timer == text && title == old(title) && description == old(description)
      ensures Snapshot() == old(Snapshot())
    {
      timer := text;
    }

    method SetTitle(text: string)
      modifies this
      ensures title == Some(text) && timer == old(timer) && description == old(description)
      ensures Snapshot() == old(Snapshot())
    {
      title := Some(text);
    }

    method SetDescription(text: string)
      modifies this
      ensures description == text && timer == old(timer) && title == old(title)
      ensures Snapshot() == old(Snapshot())
    {
      description := text;
    }

    /** The `timer` getter as written: it answers the title. */
    function TimerAsWritten(): (r: Option<string>)
      reads this
      ensures r == Title()
    {
      title
    }

    /** The `timer` getter as intended. */
    function Timer(): string
      reads this
    {
      timer
    }

    function Title(): Option<string>
      reads this
    {
      title
    }

    function Description(): string
      reads this
    {
      description
    }

    function NotificationTitle(): (r: string)
      reads this, dialog
      ensures r == Snapshot().notificationTitle
    {
      notificationTitle
    }
  }

  /** The `timer` getter as written does not give back what `setTimer`
   *  stored: on a new dialog it answers the (unset) title. */
  method TimerGetterAsWritten() returns (shown: Option<string>)
    ensures shown == None
  {
    var d := new NotificationDialog(1);
    d.SetTimer("25:00");
    shown := d.TimerAsWritten();
  }

  /** Each setter's text comes back from its getter: `title`,
   *  `description` and `notificationTitle` as written, and whether the
   *  dialog is open is not disturbed by any of them. */
  method TextsRoundTrip(d: NotificationDialog, title: string, description: string, notificationTitle: string)
    returns (shownTitle: Option<string>, shownDescription: string, shownNotificationTitle: string, wasOpened: bool)
    requires d.Valid()
    modifies d
    ensures shownTitle == Some(title) && shownDescription == description
    ensures shownNotificationTitle == notificationTitle
    ensures wasOpened == old(d.IsOpened())
  {
    d.SetTitle(title);
    d.SetDescription(description);
    d.SetNotificationTitle(notificationTitle);
    shownTitle := d.Title();
    shownDescription := d.Description();
    shownNotificationTitle := d.NotificationTitle();
    wasOpened := d.IsOpened();
  }

  /** With the getter as intended, `setTimer` then `timer` gives back the
   *  text, whatever the dialog's state. */
  method TimerRoundTrip(d: NotificationDialog, text: string) returns (shown: string)
    modifies d
    ensures shown == text
  {
    d.SetTimer(text);
    shown := d.Timer();
  }
}
