/** The side of a call that hangs up: nothing but a BYE of its peer ends its dialog. */
module DialogEnding {
  import opened Words
  import opened SipDialog
  import opened DialogManager
  import opened DialogRouting
  import opened DialogNames
  import opened DialogProtocol

  /** This side has sent its BYE and still holds the dialog. */
  predicate Parting(m: Manager, h: Handle) {
    h in m.dialogs && m.dialogs[h].info.state == Terminating
  }

  predicate IsBye(op: Op) {
    op.Incoming? && op.request.verb == Bye && op.request.cseq.Some?
  }

  /** The dialog has ended, and may have been cleaned up. */
  predicate Over(m: Manager, h: Handle) {
    h < m.nextHandle && (h in m.dialogs ==> m.dialogs[h].info.state == Terminated)
  }

  // ---- One operation ----

  /** No transition but that of a BYE moves a dialog out of Terminating, and none moves one
      out of Terminated. */
  lemma TerminatingStays(d: Dialog, q: SipRequest, r: SipResponse)
    requires d.info.state in {Terminating, Terminated}
    ensures AfterResponse(d, r) == d
    ensures AfterSendResponse(d, r).info.state == d.info.state && AfterSendBye(d).dialog.info.state == d.info.state
    ensures AfterRequest(d, q).info.state ==
            if q.cseq.Some? && q.verb == Bye then Terminated else d.info.state
  {
  }

  /** What an operation may do to dialog h: leave it out, or store it in the state given. */
  lemma StoredState(m: Manager, g: Handle, d: Dialog, t: Manager, h: Handle)
    requires h in m.dialogs && g in m.dialogs && t.dialogs == Put(m, g, d).dialogs
    ensures h in t.dialogs && t.dialogs[h].info == if g == h then d.info else m.dialogs[h].info
  {
  }

  lemma IncomingWhileParting(m: Manager, contact: string, q: SipRequest, tag: string, h: Handle)
    requires Inv(m) && Parting(m, h)
    ensures var t := AfterIncoming(m, contact, q, tag).manager;
            && h in t.dialogs && t.dialogs[h].info.id == m.dialogs[h].info.id
            && t.dialogs[h].info.state ==
               if IsBye(Incoming(q, tag)) && FindDialog(m, q) == Some(h) then Terminated else Terminating
  {
    var found := FindDialog(m, q);
    if found.Some? {
      TransitionsKeep(m.dialogs[found.value], q, NO_RESPONSE);
      TerminatingStays(m.dialogs[h], q, NO_RESPONSE);
      StoredState(m, found.value, AfterRequest(m.dialogs[found.value], q),
                  AfterIncoming(m, contact, q, tag).manager, h);
    }
  }

  lemma ReplyWhileParting(m: Manager, r: SipResponse, h: Handle)
    requires Inv(m) && Parting(m, h)
    ensures h in AfterReply(m, r).manager.dialogs && AfterReply(m, r).manager.dialogs[h].info == m.dialogs[h].info
  {
    var found := FindForResponse(m, r);
    if found.Some? && found.value in m.dialogs {
      TerminatingStays(m.dialogs[h], m.dialogs[h].invite, r);
      StoredState(m, found.value, AfterResponse(m.dialogs[found.value], r), AfterReply(m, r).manager, h);
    }
  }

  lemma OwnOpWhileParting(m: Manager, contact: string, op: Op, h: Handle)
    requires Inv(m) && Parting(m, h) && !op.Incoming? && !op.Reply?
    ensures var t := Apply(m, contact, op);
            && h in t.dialogs && t.dialogs[h].info.id == m.dialogs[h].info.id && t.dialogs[h].info.state == Terminating
  {
    TerminatingStays(m.dialogs[h], m.dialogs[h].invite, if op.Answer? then op.answer else NO_RESPONSE);
  }

  /** Every operation but a BYE routed to the dialog leaves it held and Terminating. */
  lemma PartingStep(m: Manager, contact: string, op: Op, h: Handle)
    requires Inv(m) && Parting(m, h)
    ensures var t := Apply(m, contact, op);
            && h in t.dialogs && t.dialogs[h].info.id == m.dialogs[h].info.id
            && t.dialogs[h].info.state ==
               if IsBye(op) && FindDialog(m, op.request) == Some(h) then Terminated else Terminating
  {
    match op {
      case Incoming(q, tag) => IncomingWhileParting(m, contact, q, tag, h);
      case Reply(r) => ReplyWhileParting(m, r, h);
      case _ => OwnOpWhileParting(m, contact, op, h);
    }
  }

  lemma OverStays(m: Manager, contact: string, op: Op, h: Handle)
    requires Inv(m) && Over(m, h)
    ensures Over(Apply(m, contact, op), h)
  {
    ApplyAllocates(m, contact, op);
    if h in m.dialogs {
      TerminatingStays(m.dialogs[h], if op.Incoming? then op.request else m.dialogs[h].invite,
                       if op.Answer? then op.answer else if op.Reply? then op.response else NO_RESPONSE);
    }
  }

  // ---- Runs ----

  /** While it is held, a dialog in use is found by exactly the requests of its peer. */
  lemma FoundIffFromPeer(contact: string, ops: seq<Op>, h: Handle, q: SipRequest)
    requires FreshNames(ops) && Parting(TrackedRun(contact, ops).manager, h)
    ensures var m := TrackedRun(contact, ops).manager;
            Inv(m) && (FindDialog(m, q) == Some(h) <==> FromPeer(q, m.dialogs[h].info.id))
  {
    RunKeepsNames(contact, ops);
    if FromPeer(q, TrackedRun(contact, ops).manager.dialogs[h].info.id) {
      FreshNamesAreFound(contact, ops, h, q);
    }
  }

  /** Where the dialog with that ID stands: held in Terminating, or over. */
  predicate Held(m: Manager, h: Handle, id: DialogId) {
    Parting(m, h) && m.dialogs[h].info.id == id
  }

  predicate PeerBye(op: Op, id: DialogId) {
    IsBye(op) && FromPeer(op.request, id)
  }

  lemma HeldStep(contact: string, ops: seq<Op>, op: Op, h: Handle, id: DialogId)
    requires FreshNames(ops)
    ensures var m := TrackedRun(contact, ops).manager;
            var t := Apply(m, contact, op);
            && (Held(m, h, id) ==> if PeerBye(op, id) then Over(t, h) else Held(t, h, id))
            && (Over(m, h) ==> Over(t, h))
  {
    var m := TrackedRun(contact, ops).manager;
    RunKeepsNames(contact, ops);
    ApplyKeepsInv(m, contact, op);
    if Over(m, h) {
      OverStays(m, contact, op, h);
    }
    if Held(m, h, id) {
      PartingStep(m, contact, op, h);
      if op.Incoming? {
        FoundIffFromPeer(contact, ops, h, op.request);
      }
    }
  }

  ghost predicate NoByeSince(ops: seq<Op>, n: nat, id: DialogId) {
    forall i :: n <= i < |ops| ==> !PeerBye(ops[i], id)
  }

  lemma NoByeSnoc(ops: seq<Op>, n: nat, id: DialogId)
    requires n < |ops|
    ensures NoByeSince(ops, n, id) <==> NoByeSince(ops[..|ops| - 1], n, id) && !PeerBye(ops[|ops| - 1], id)
  {
    var front := ops[..|ops| - 1];
    assert forall i :: 0 <= i < |front| ==> front[i] == ops[i];
  }

  /** After hanging up, a dialog is held in Terminating, through every cleanup, if and only if
      no BYE of its peer has arrived: no response, not even that to its own BYE, ends it. */
  lemma {:induction false} HeldUntilByeIff(contact: string, ops: seq<Op>, n: nat, h: Handle, id: DialogId)
    requires FreshNames(ops) && n <= |ops| && Held(TrackedRun(contact, ops[..n]).manager, h, id)
    ensures var m := TrackedRun(contact, ops).manager;
            (Held(m, h, id) <==> NoByeSince(ops, n, id)) && (Over(m, h) <==> !NoByeSince(ops, n, id))
    decreases |ops|
  {
    if n == |ops| {
      assert ops[..n] == ops;
    } else {
      var front, op := ops[..|ops| - 1], ops[|ops| - 1];
      assert front[..n] == ops[..n];
      HeldUntilByeIff(contact, front, n, h, id);
      HeldStep(contact, front, op, h, id);
      NoByeSnoc(ops, n, id);
    }
  }
}
