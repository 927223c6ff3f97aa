/** The lightbox dialog as an object whose fields its methods update in place.
 *  Each method follows the corresponding function of `LightboxSpec`. */
module Lightbox {
  import opened LightboxSpec

  class LightboxDialog {
    var state: State
    var hasModal: bool
    var groupTween: GroupTween
    var layoutTween: bool
    var emitted: seq<Signal>

    /** The dialog's fields as a value. */
    function Snapshot(): Dialog
      reads this
    {
      Dialog(state, hasModal, groupTween, layoutTween, emitted)
    }

    constructor ()
      ensures Snapshot() == Initial
    {
      state := Closed;
      hasModal := false;
      groupTween := NoGroupTween;
      layoutTween := false;
      emitted := [];
    }

    method FadeOpen()
      modifies this
      ensures Snapshot() == LightboxSpec.FadeOpen(old(Snapshot()))
    {
      state := Opening;
      groupTween := FadeIn;  // the new tween on `_group` replaces the pending one
    }

    /** `granted` is what the shell's `pushModal` answers if it is asked. */
    method Open(granted: bool) returns (ok: bool)
      modifies this
      ensures (Snapshot(), ok) == LightboxSpec.Open(old(Snapshot()), granted)
    {
      if state == Opened || state == Opening {
        return true;
      }
      var pushed := PushModal(granted);
      if !pushed {
        return false;
      }
      FadeOpen();
      return true;
    }

    method Close()
      modifies this
      ensures Snapshot() == LightboxSpec.Close(old(Snapshot()))
    {
      if state == Closed || state == Closing {
        return;
      }
      state := Closing;
      PopModal();
      groupTween := FadeOut;
    }

    method PopModal()
      modifies this
      ensures Snapshot() == LightboxSpec.PopModal(old(Snapshot()))
    {
      if !hasModal {
        return;
      }
      hasModal := false;
    }

    method PushModal(granted: bool) returns (ok: bool)
      modifies this
      ensures (Snapshot(), ok) == LightboxSpec.PushModal(old(Snapshot()), granted)
    {
      if hasModal {
        return true;
      }
      if !granted {
        return false;
      }
      hasModal := true;
      return true;
    }

    method FadeOutDialog()
      modifies this
      ensures Snapshot() == LightboxSpec.FadeOutDialog(old(Snapshot()))
    {
      if state == Closed || state == Closing {
        return;
      }
      if state == FadedOut {
        return;
      }
      PopModal();
      layoutTween := true;
    }

    /** The completion of the tween pending on `_group`; `didOpen` tells
     *  whether the `opened` signal was emitted. */
    method CompleteGroupTween() returns (didOpen: bool)
      modifies this
      ensures (Snapshot(), didOpen) == LightboxSpec.CompleteGroupTween(old(Snapshot()))
    {
      didOpen := false;
      match groupTween
      case NoGroupTween =>
      case FadeIn =>
        state := Opened;
        groupTween := NoGroupTween;
        emitted := emitted + [OpenedSignal];
        didOpen := true;
      case FadeOut =>
        state := Closed;
        groupTween := NoGroupTween;
    }

    /** The completion of the fade-out pending on `_dialogLayout`. */
    method CompleteLayoutTween()
      modifies this
      ensures Snapshot() == LightboxSpec.CompleteLayoutTween(old(Snapshot()))
    {
      if layoutTween {
        state := FadedOut;
        layoutTween := false;
      }
    }

    method Emit(s: Signal)
      modifies this
      ensures Snapshot() == LightboxSpec.Emit(old(Snapshot()), s)
    {
      emitted := emitted + [s];
    }

    method Destroy()
      modifies this
      ensures Snapshot() == LightboxSpec.Destroy(old(Snapshot()))
    {
      groupTween := NoGroupTween;
      layoutTween := false;
      emitted := emitted + [DestroySignal];
    }
  }
}
