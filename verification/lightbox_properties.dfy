/** What the lightbox lifecycle guarantees over whole runs of operations. */
module LightboxProperties {
  import opened LightboxSpec

  /** The operations under which the modal invariant is kept: `open`,
   *  `close`, `pushModal`, `popModal` and the completion of the `_group`
   *  tween.  Each foreign answer is part of the operation. */
  datatype Op =
    | OpOpen(granted: bool)
    | OpClose
    | OpPushModal(granted: bool)
    | OpPopModal
    | OpGroupTweenDone

  function Apply(d: Dialog, op: Op): Dialog {
    match op
    case OpOpen(g) => Open(d, g).0
    case OpClose => Close(d)
    case OpPushModal(g) => PushModal(d, g).0
    case OpPopModal => PopModal(d)
    case OpGroupTweenDone => CompleteGroupTween(d).0
  }

  /** `pushModal` on its own is meant to take the grab back after a
   *  `popModal` on a shown dialog, so a run calls it only then. */
  predicate Allowed(d: Dialog, op: Op) {
    op.OpPushModal? ==> Shown(d)
  }

  function Run(d: Dialog, ops: seq<Op>): Dialog
    decreases |ops|
  {
    if ops == [] then d else Run(Apply(d, ops[0]), ops[1..])
  }

  predicate RunAllowed(d: Dialog, ops: seq<Op>)
    decreases |ops|
  {
    ops == [] || (Allowed(d, ops[0]) && RunAllowed(Apply(d, ops[0]), ops[1..]))
  }

  predicate Inv(d: Dialog) {
    ModalOnlyWhenShown(d) && GroupTweenAgrees(d)
  }

  lemma StepKeepsInv(d: Dialog, op: Op)
    requires Inv(d) && Allowed(d, op)
    ensures Inv(Apply(d, op))
  {
  }

  /** Starting from any dialog that satisfies the invariant (in particular
   *  the freshly constructed one), every allowed run keeps the modal grab
   *  confined to OPENING and OPENED. */
  lemma {:induction false} RunKeepsInv(d: Dialog, ops: seq<Op>)
    requires Inv(d) && RunAllowed(d, ops)
    ensures Inv(Run(d, ops))
    ensures Run(d, ops).hasModal ==> Shown(Run(d, ops))
    decreases |ops|
  {
    if ops != [] {
      StepKeepsInv(d, ops[0]);
      RunKeepsInv(Apply(d, ops[0]), ops[1..]);
    }
  }

  lemma {:induction false} FromInitial(ops: seq<Op>)
    requires RunAllowed(Initial, ops)
    ensures ModalOnlyWhenShown(Run(Initial, ops))
  {
    RunKeepsInv(Initial, ops);
  }

  /** Without `pushModal` and `popModal` the grab is held exactly while the
   *  dialog is shown. */
  lemma {:induction false} OpenCloseKeepModalIffShown(d: Dialog, ops: seq<Op>)
    requires ModalIffShown(d) && GroupTweenAgrees(d)
    requires forall i :: 0 <= i < |ops| ==> ops[i].OpOpen? || ops[i].OpClose? || ops[i].OpGroupTweenDone?
    ensures ModalIffShown(Run(d, ops)) && GroupTweenAgrees(Run(d, ops))
    decreases |ops|
  {
    if ops != [] {
      assert ops[0].OpOpen? || ops[0].OpClose? || ops[0].OpGroupTweenDone?;
      var d1 := Apply(d, ops[0]);
      assert ModalIffShown(d1) && GroupTweenAgrees(d1);
      assert forall i :: 0 <= i < |ops[1..]| ==> ops[1..][i] == ops[i + 1];
      OpenCloseKeepModalIffShown(d1, ops[1..]);
    }
  }

  /** Once OPENED, another `open` changes nothing and no completion is left
   *  to emit a second `opened`. */
  lemma OpenedIsStable(d: Dialog, granted: bool)
    requires d.state == Opened && GroupTweenAgrees(d)
    ensures Open(d, granted) == (d, true)
    ensures CompleteGroupTween(d) == (d, false)
  {
  }

  /** `open` from CLOSED with the grab granted, its completion, and a second
   *  `open` with its would-be completion emit `opened` exactly once. */
  lemma OpenTwiceEmitsOpenedOnce()
    ensures Run(Initial, [OpOpen(true), OpGroupTweenDone, OpOpen(true), OpGroupTweenDone]).emitted
            == [OpenedSignal]
  {
  }

  /** `pushModal` outside the documented use (on a CLOSED dialog) takes the
   *  grab without showing anything. */
  lemma PushModalWhileClosed()
    ensures PushModal(Initial, true).0.hasModal && PushModal(Initial, true).0.state == Closed
  {
  }

  /** `_fadeOutDialog` followed by `pushModal`, as its comment suggests,
   *  reaches FADED_OUT with the grab held once the content fade completes:
   *  the layout completion is why the invariant is stated without it. */
  lemma FadeOutThenPushModal()
    ensures var d0 := Dialog(Opened, true, NoGroupTween, false, [OpenedSignal]);
            var d3 := CompleteLayoutTween(PushModal(FadeOutDialog(d0), true).0);
            d3.state == FadedOut && d3.hasModal
  {
  }

  /** The same end without any direct `pushModal`: the content fade started
   *  by `_fadeOutDialog` outlives a `close` and a granted `open`, and its
   *  completion leaves the reopened dialog FADED_OUT holding the grab. */
  lemma FadeOutCloseOpenReachesFadedOut()
    ensures var d0 := Dialog(Opened, true, NoGroupTween, false, [OpenedSignal]);
            var d3 := CompleteLayoutTween(Open(Close(FadeOutDialog(d0)), true).0);
            d3.state == FadedOut && d3.hasModal
  {
  }
}
