/** What the requests of a dialog carry over its whole life, and what its numbers are. */
module DialogRequests {
  import opened Words
  import opened SipDialog
  import opened DialogRuns

  // ---- The information a dialog is created with ----

  /** The headers without which an INVITE makes no server-side dialog. */
  predicate Usable(invite: SipRequest) {
    && invite.callId.Some? && invite.fromTag.Some? && invite.fromUri.Some? && invite.toUri.Some?
    && invite.contact.Some? && invite.cseq.Some?
  }

  /** The server side: our tag first, our URI the one called, the caller's Contact as target, the
      recorded routes in order, our number zero and the caller's that of the INVITE. */
  lemma ServerSideIff(invite: SipRequest, tag: string, contact: string)
    ensures NewUas(invite, tag, contact).Some? <==> Usable(invite)
    ensures Usable(invite) ==>
              var d := NewUas(invite, tag, contact).value;
              && d.role == Uas && d.invite == invite && d.actions == [] && !d.ackSent
              && d.info.id == DialogId(invite.callId.value, tag, invite.fromTag.value)
              && d.info.state == Early && d.info.localSeq == 0 && d.info.remoteSeq == invite.cseq
              && d.info.localUri == invite.toUri.value && d.info.remoteUri == invite.fromUri.value
              && d.info.remoteTarget == invite.contact.value && d.info.localContact == contact
              && d.info.routes == invite.recordRoutes && d.info.secure == invite.secureVia
  {
  }

  /** A response that names the dialog of an INVITE. */
  predicate NamesDialog(invite: SipRequest, r: SipResponse) {
    && r.callId.Some? && r.fromTag.Some? && r.toTag.Some? && r.contact.Some?
    && invite.fromUri.Some? && invite.toUri.Some? && invite.cseq.Some?
  }

  /** The client side when it is answered: confirmed by any 2xx; under the response's tags, with
      its Contact as target, its recorded routes reversed and the INVITE's number if the response
      names the dialog, and as it was before if not. */
  lemma ClientSideAnswered(d: Dialog, r: SipResponse)
    requires d.role == Uac && d.info.state == Early && 200 <= r.code < 300
    ensures var info := AfterResponse(d, r).info;
            && (!NamesDialog(d.invite, r) ==> info == d.info.(state := Confirmed))
            && (NamesDialog(d.invite, r) ==>
                  && info.state == Confirmed && info.id == DialogId(r.callId.value, r.fromTag.value, r.toTag.value)
                  && info.localSeq == d.invite.cseq.value && info.remoteSeq == None
                  && info.localUri == d.invite.fromUri.value && info.remoteUri == d.invite.toUri.value
                  && info.remoteTarget == r.contact.value
                  && info.localContact == (if d.invite.contact.Some? then d.invite.contact.value else "")
                  && |info.routes| == |r.recordRoutes|
                  && (forall i :: 0 <= i < |info.routes| ==> info.routes[i] == r.recordRoutes[|info.routes| - 1 - i])
                  && info.secure == d.invite.secureVia)
  {
  }

  /** A call starts Early, without a name or target, at its INVITE's number, or at one. */
  lemma ClientSideStarts(invite: SipRequest)
    ensures var d := NewUac(invite);
            && d.role == Uac && d.invite == invite && d.actions == [] && !d.ackSent
            && d.info.state == Early && d.info.id == DialogId("", "", "") && d.info.remoteTarget == ""
            && d.info.localSeq == (if invite.cseq.Some? then invite.cseq.value else 1) && d.info.remoteSeq == None
            && d.info.localUri == (if invite.fromUri.Some? then invite.fromUri.value else "")
            && d.info.remoteUri == (if invite.toUri.Some? then invite.toUri.value else "")
            && d.info.localContact == (if invite.contact.Some? then invite.contact.value else "")
            && d.info.routes == [] && !d.info.secure
  {
  }

  // ---- What is built ----

  /** A request inside the dialog: its method, the dialog's tags, URIs, target, routes and Contact. */
  predicate Belongs(q: SipRequest, info: DialogInfo, verb: Method, reason: Option<string>) {
    && q.verb == verb && q.target == info.remoteTarget && q.routes == info.routes && q.reason == reason
    && q.callId == Some(info.id.callId) && q.fromTag == Some(info.id.localTag) && q.toTag == Some(info.id.remoteTag)
    && q.fromUri == Some(info.localUri) && q.toUri == Some(info.remoteUri)
    && (info.localContact == "" ==> q.contact == None)
    && (info.localContact != "" ==> q.contact == Some(info.localContact))
  }

  /** Exactly when each step builds a request, and what that carries. A step takes the next number,
      wrapping at the limit, except that a BYE with a reason stays at the limit. */
  lemma StepBuilds(d: Dialog, op: Op)
    ensures var b := BuildStep(d, op);
            var full := d.info.remoteTarget != "" && d.info.localUri != "" && d.info.remoteUri != "";
            match op
            case SendBye => b.request.Some? <==> full && d.info.state == Confirmed
            case ByeWithReason(_) => b.request.Some? <==> full && d.info.state == Confirmed
            case BuildPrack(r) => b.request.Some? <==> full && r.cseqMethod.Some?
            case BuildUpdate => b.request.Some? <==> full
            case _ => b.request == None
    ensures var b := BuildStep(d, op);
            b.request.Some? ==>
              && b.request.value.cseq == Some(b.dialog.info.localSeq)
              && match op
                 case SendBye => Belongs(b.request.value, d.info, Bye, None)
                 case ByeWithReason(reason) => Belongs(b.request.value, d.info, Bye, Some(reason))
                 case BuildPrack(_) => Belongs(b.request.value, d.info, Prack, None)
                 case BuildUpdate => Belongs(b.request.value, d.info, Update, None)
                 case _ => false
    ensures BuildStep(d, op).request.Some? ==>
              BuildStep(d, op).dialog.info.localSeq ==
                if d.info.localSeq < 0xffff_ffff then d.info.localSeq + 1
                else if op.ByeWithReason? then 0xffff_ffff else 0
  {
  }

  /** A dialog that has sent its BYE, with or without a reason, is Terminating. */
  lemma ByeTerminates(d: Dialog, op: Op)
    requires (op.SendBye? || op.ByeWithReason?) && BuildStep(d, op).request.Some?
    ensures DialogStep(d, op).info.state == Terminating
    ensures DialogStep(d, op).actions == d.actions + [SendRequest(BuildStep(d, op).request.value)]
  {
  }

  // ---- The life of a server-side dialog ----

  /** A server-side dialog keeps its name, URIs, target, Contact and routes. */
  lemma {:induction false} ServerSideIsConstant(d: Dialog, ops: seq<Op>)
    requires d.role == Uas
    ensures var e := RunAll(d, ops).dialog;
            && e.role == Uas && e.invite == d.invite
            && e.info == d.info.(state := e.info.state, localSeq := e.info.localSeq, remoteSeq := e.info.remoteSeq)
    decreases |ops|
  {
    if ops != [] {
      ServerSideIsConstant(d, ops[..|ops| - 1]);
      ServerStep(RunAll(d, ops[..|ops| - 1]).dialog, ops[|ops| - 1]);
    }
  }

  lemma ServerStep(d: Dialog, op: Op)
    requires d.role == Uas
    ensures var e := DialogStep(d, op);
            && e.role == Uas && e.invite == d.invite
            && e.info == d.info.(state := e.info.state, localSeq := e.info.localSeq, remoteSeq := e.info.remoteSeq)
  {
  }

  /** Its requests are numbered one, two, three and so on. */
  lemma {:induction false} ServerSideCounts(invite: SipRequest, tag: string, contact: string, ops: seq<Op>)
    requires Usable(invite) && !RunAll(NewUas(invite, tag, contact).value, ops).wrapped
    ensures var r := RunAll(NewUas(invite, tag, contact).value, ops);
            r.dialog.info.localSeq == |r.built| && forall i :: 0 <= i < |r.built| ==> r.built[i] == i + 1
    decreases |ops|
  {
    if ops != [] {
      var d := NewUas(invite, tag, contact).value;
      var r, op := RunAll(d, ops[..|ops| - 1]), ops[|ops| - 1];
      ServerSideCounts(invite, tag, contact, ops[..|ops| - 1]);
      ServerSideIsConstant(d, ops[..|ops| - 1]);
      ServerNumber(r.dialog, op);
    }
  }

  lemma ServerNumber(d: Dialog, op: Op)
    requires d.role == Uas && d.info.remoteTarget != "" && d.info.localUri != "" && d.info.remoteUri != ""
    requires d.info.localSeq < 0xffff_ffff || !TakesNumber(d, op)
    ensures var b := BuildStep(d, op);
            if b.request.Some? then b.request.value.cseq == Some(DialogStep(d, op).info.localSeq)
                                    && DialogStep(d, op).info.localSeq == d.info.localSeq + 1 && TakesNumber(d, op)
            else DialogStep(d, op).info.localSeq == d.info.localSeq
  {
  }

  /** The peer's number and all re-INVITEs reported stand above that of the INVITE. */
  ghost predicate AboveTheirs(r: Run, cseq: u32) {
    && r.dialog.role == Uas && r.dialog.info.remoteSeq.Some? && r.dialog.info.remoteSeq.value >= cseq
    && forall i :: 0 <= i < |ReInviteSeqs(r.log)| ==> ReInviteSeqs(r.log)[i] > cseq
  }

  /** Re-INVITEs it reports have larger numbers than the INVITE that created it. */
  lemma {:induction false} ReInvitesExceedInvite(invite: SipRequest, tag: string, contact: string, ops: seq<Op>)
    requires Usable(invite)
    ensures AboveTheirs(RunAll(NewUas(invite, tag, contact).value, ops), invite.cseq.value)
    decreases |ops|
  {
    if ops != [] {
      ReInvitesExceedInvite(invite, tag, contact, ops[..|ops| - 1]);
      StepStaysAbove(RunAll(NewUas(invite, tag, contact).value, ops[..|ops| - 1]), ops[|ops| - 1], invite.cseq.value);
    }
  }

  lemma StepStaysAbove(r: Run, op: Op, cseq: u32)
    requires AboveTheirs(r, cseq)
    ensures AboveTheirs(Step(r, op), cseq)
  {
    StepAppends(r.dialog, op);
    LogGrows(r.log, r.dialog, op);
    ServerRemoteSeq(r.dialog, op);
  }

  lemma ServerRemoteSeq(d: Dialog, op: Op)
    requires d.role == Uas && d.info.remoteSeq.Some?
    ensures DialogStep(d, op).role == Uas
    ensures DialogStep(d, op).info.remoteSeq == if Reports(d, op) then op.request.cseq else d.info.remoteSeq
    ensures Reports(d, op) ==> op.request.cseq.value > d.info.remoteSeq.value
  {
  }

  // ---- Acknowledgement ----

  /** Acknowledged by the application, or by an ACK that reaches a confirmed server side. */
  predicate Acknowledges(d: Dialog, op: Op) {
    || op.AckSent?
    || (op.HandleRequest? && op.request.verb == Ack && op.request.cseq.Some?
        && d.role == Uas && d.info.state == Confirmed)
  }

  ghost predicate Acknowledged(d: Dialog, ops: seq<Op>) {
    exists i :: 0 <= i < |ops| && AcknowledgedAt(d, ops, i)
  }

  ghost predicate AcknowledgedAt(d: Dialog, ops: seq<Op>, i: nat)
    requires i < |ops|
  {
    Acknowledges(RunAll(d, ops[..i]).dialog, ops[i])
  }

  lemma AckStep(d: Dialog, op: Op)
    ensures DialogStep(d, op).ackSent <==> d.ackSent || Acknowledges(d, op)
  {
  }

  /** The mark is set if and only if one of these has happened. */
  lemma {:induction false} AckedIff(d: Dialog, ops: seq<Op>)
    ensures RunAll(d, ops).dialog.ackSent <==> d.ackSent || Acknowledged(d, ops)
    decreases |ops|
  {
    if ops != [] {
      var front, op := ops[..|ops| - 1], ops[|ops| - 1];
      AckedIff(d, front);
      AckStep(RunAll(d, front).dialog, op);
      AckedSnoc(d, ops);
    }
  }

  lemma AckedSnoc(d: Dialog, ops: seq<Op>)
    requires ops != []
    ensures Acknowledged(d, ops) <==> Acknowledged(d, ops[..|ops| - 1]) || AcknowledgedAt(d, ops, |ops| - 1)
  {
    var front := ops[..|ops| - 1];
    forall i | 0 <= i < |front| ensures AcknowledgedAt(d, front, i) <==> AcknowledgedAt(d, ops, i) {
      assert front[..i] == ops[..i] && front[i] == ops[i];
    }
  }
}
