/** Two dialog managers that set up and end a call with each other while each of them carries
    on with any other traffic (section 12 of RFC 3261). */
module DialogProtocol {
  import opened Words
  import opened SipDialog
  import opened DialogManager
  import opened DialogRouting

  // ---- Traffic of other dialogs leaves a dialog alone ----

  function Name(id: DialogId): CallKey {
    (id.callId, id.localTag)
  }

  /** Only dialog h goes by that Call-ID and local tag. */
  ghost predicate Alone(m: Manager, name: CallKey, h: Handle) {
    && (forall g :: g in m.dialogs && g != h ==> NameOf(m.dialogs[g]) != name)
    && (name in m.pending ==> m.pending[name] == h)
  }

  ghost predicate Unused(m: Manager, name: CallKey) {
    (forall g :: g in m.dialogs ==> NameOf(m.dialogs[g]) != name) && name !in m.pending
  }

  /** Dialog h goes by the name in `id`, and has that ID once it is settled. */
  ghost predicate Holds(m: Manager, id: DialogId, h: Handle) {
    && Inv(m) && id.callId != "" && h in m.dialogs && NameOf(m.dialogs[h]) == Name(id) && Alone(m, Name(id), h)
    && (Settled(m.dialogs[h]) ==> m.dialogs[h].info.id == id)
  }

  /** A request the peer sends inside this dialog. */
  predicate FromPeer(q: SipRequest, id: DialogId) {
    q.callId == Some(id.callId) && q.toTag == Some(id.localTag) && q.fromTag == Some(id.remoteTag)
  }

  /** The tag drawn for an incoming call does not repeat the dialog's name. */
  predicate FreshTag(q: SipRequest, tag: string, id: DialogId) {
    q.callId == Some(id.callId) ==> tag != id.localTag
  }

  /** Not about this dialog. Other calls may have the same Call-ID, such as a repeated INVITE. */
  predicate Foreign(op: Op, id: DialogId, h: Handle) {
    match op
    case Call(invite) => invite.callId != Some(id.callId) || invite.fromTag != Some(id.localTag)
    case Incoming(q, tag) => !FromPeer(q, id) && FreshTag(q, tag, id)
    case Reply(r) => r.callId != Some(id.callId) || r.fromTag != Some(id.localTag)
    case Answer(g, _) => g != h
    case HangUp(g) => g != h
    case Acked(g) => g != h
    case _ => true
  }

  predicate SamePending(m: Manager, t: Manager, name: CallKey) {
    && (name in t.pending <==> name in m.pending)
    && (name in m.pending && name in t.pending ==> t.pending[name] == m.pending[name])
  }

  /** What an operation must leave as it was: the dialog, and both tables under its name. */
  ghost predicate Undisturbed(m: Manager, t: Manager, name: CallKey, h: Handle) {
    && h in m.dialogs && h in t.dialogs && t.dialogs[h] == m.dialogs[h]
    && SamePending(m, t, name)
    && (forall id :: Name(id) == name ==> (id in t.ids <==> id in m.ids))
    && (forall id :: Name(id) == name && id in t.ids && id in m.ids ==> t.ids[id] == m.ids[id])
    && Alone(t, name, h)
  }

  /** No other dialog's ID carries the name. */
  lemma OtherName(d: Dialog, id: DialogId)
    requires IdOk(d) && NameOf(d) != Name(id) && id.callId != ""
    ensures Name(d.info.id) != Name(id)
  {
  }

  /** Storing another dialog, possibly indexing it, disturbs nothing. */
  lemma PutElsewhere(m: Manager, g: Handle, d: Dialog, t: Manager, id: DialogId, h: Handle)
    requires Holds(m, id, h) && g in m.dialogs && g != h && Keeps(m.dialogs[g], d)
    requires t.dialogs == Put(m, g, d).dialogs
    requires t.ids == m.ids || t.ids == m.ids[d.info.id := g]
    requires SamePending(m, t, Name(id))
    ensures Undisturbed(m, t, Name(id), h)
  {
    OtherName(d, id);
  }

  lemma AddElsewhere(m: Manager, d: Dialog, t: Manager, id: DialogId, h: Handle)
    requires Holds(m, id, h) && IdOk(d) && NameOf(d) != Name(id) && t.dialogs == Added(m, d).dialogs
    requires t.ids == m.ids || t.ids == m.ids[d.info.id := m.nextHandle]
    requires SamePending(m, t, Name(id))
    ensures Undisturbed(m, t, Name(id), h)
  {
    OtherName(d, id);
  }

  lemma NothingElsewhere(m: Manager, t: Manager, id: DialogId, h: Handle)
    requires Holds(m, id, h) && t.dialogs == m.dialogs && t.ids == m.ids && t.pending == m.pending
    ensures Undisturbed(m, t, Name(id), h)
  {
  }

  lemma ForeignCall(m: Manager, invite: SipRequest, id: DialogId, h: Handle)
    requires Holds(m, id, h) && Foreign(Call(invite), id, h)
    ensures Undisturbed(m, CreateDialog(m, invite).manager, Name(id), h)
  {
    var t := CreateDialog(m, invite).manager;
    if invite.verb != Invite || invite.callId.None? || invite.fromTag.None? {
      NothingElsewhere(m, t, id, h);
    } else {
      var key := (invite.callId.value, invite.fromTag.value);
      assert key != Name(id) && t.pending == m.pending[key := m.nextHandle];
      AddElsewhere(m, NewUac(invite), t, id, h);
    }
  }

  lemma ForeignIncoming(m: Manager, contact: string, q: SipRequest, tag: string, id: DialogId, h: Handle)
    requires Holds(m, id, h) && FreshTag(q, tag, id) && (Settled(m.dialogs[h]) ==> !FromPeer(q, id))
    ensures Undisturbed(m, AfterIncoming(m, contact, q, tag).manager, Name(id), h)
  {
    var t := AfterIncoming(m, contact, q, tag).manager;
    match FindDialog(m, q) {
      case Some(g) =>
        assert g != h;
        TransitionsKeep(m.dialogs[g], q, NO_RESPONSE);
        PutElsewhere(m, g, AfterRequest(m.dialogs[g], q), t, id, h);
      case None =>
        if q.verb == Invite && NewUas(q, tag, contact).Some? {
          AddElsewhere(m, NewUas(q, tag, contact).value, t, id, h);
        } else {
          NothingElsewhere(m, t, id, h);
        }
    }
  }

  lemma ForeignReply(m: Manager, r: SipResponse, id: DialogId, h: Handle)
    requires Holds(m, id, h) && Foreign(Reply(r), id, h)
    ensures Undisturbed(m, AfterReply(m, r).manager, Name(id), h)
  {
    var t, found := AfterReply(m, r).manager, FindForResponse(m, r);
    if found.None? || found.value !in m.dialogs {
      NothingElsewhere(m, t, id, h);
    } else {
      var g := found.value;
      var key := (r.callId.value, r.fromTag.value);
      FoundUnderName(m, r);
      FoundForResponse(m, r);
      TransitionsKeep(m.dialogs[g], m.dialogs[g].invite, r);
      assert key != Name(id) && (t.pending == m.pending || t.pending == m.pending - {key});
      PutElsewhere(m, g, AfterResponse(m.dialogs[g], r), t, id, h);
    }
  }

  /** A response finds only a dialog whose INVITE or ID has its Call-ID and From tag. */
  lemma FoundUnderName(m: Manager, r: SipResponse)
    requires Inv(m) && FindForResponse(m, r).Some? && FindForResponse(m, r).value in m.dialogs
    ensures var d := m.dialogs[FindForResponse(m, r).value];
            NameOf(d) == (r.callId.value, r.fromTag.value) || (d.info.id == UNNAMED && Settled(d))
  {
  }

  lemma ForeignAnswer(m: Manager, g: Handle, r: SipResponse, id: DialogId, h: Handle)
    requires Holds(m, id, h) && g != h
    ensures Undisturbed(m, SendResponseFor(m, g, r), Name(id), h)
  {
    if g in m.dialogs {
      TransitionsKeep(m.dialogs[g], m.dialogs[g].invite, r);
      PutElsewhere(m, g, AfterSendResponse(m.dialogs[g], r), SendResponseFor(m, g, r), id, h);
    } else {
      NothingElsewhere(m, m, id, h);
    }
  }

  lemma ForeignHangUp(m: Manager, g: Handle, id: DialogId, h: Handle)
    requires Holds(m, id, h) && g != h
    ensures Undisturbed(m, SendByeFor(m, g).manager, Name(id), h)
  {
    if g in m.dialogs {
      TransitionsKeep(m.dialogs[g], m.dialogs[g].invite, NO_RESPONSE);
      PutElsewhere(m, g, AfterSendBye(m.dialogs[g]).dialog, SendByeFor(m, g).manager, id, h);
    } else {
      NothingElsewhere(m, m, id, h);
    }
  }

  lemma ForeignAck(m: Manager, g: Handle, id: DialogId, h: Handle)
    requires Holds(m, id, h) && g != h
    ensures Undisturbed(m, MarkAck(m, g), Name(id), h)
  {
  }

  lemma ForeignCleanUp(m: Manager, id: DialogId, h: Handle)
    requires Holds(m, id, h) && m.dialogs[h].info.state != Terminated
    ensures Undisturbed(m, CleanUp(m), Name(id), h)
  {
    forall g | Ended(m, g) ensures Name(m.dialogs[g].info.id) != Name(id) {
      OtherName(m.dialogs[g], id);
    }
  }

  /** Operations on other dialogs leave a live dialog undisturbed. */
  lemma ForeignIsHarmless(m: Manager, contact: string, op: Op, id: DialogId, h: Handle)
    requires Holds(m, id, h) && Foreign(op, id, h) && m.dialogs[h].info.state != Terminated
    ensures Undisturbed(m, Apply(m, contact, op), Name(id), h) && Holds(Apply(m, contact, op), id, h)
  {
    ApplyKeepsInv(m, contact, op);
    match op {
      case Call(invite) => ForeignCall(m, invite, id, h);
      case Incoming(q, tag) => ForeignIncoming(m, contact, q, tag, id, h);
      case Reply(r) => ForeignReply(m, r, id, h);
      case Poll => NothingElsewhere(m, Apply(m, contact, op), id, h);
      case Cleanup => ForeignCleanUp(m, id, h);
      case Answer(g, r) => ForeignAnswer(m, g, r, id, h);
      case HangUp(g) => ForeignHangUp(m, g, id, h);
      case Acked(g) => ForeignAck(m, g, id, h);
    }
  }

  /** A new state of the dialog itself. */
  lemma PutHere(m: Manager, h: Handle, d: Dialog, id: DialogId)
    requires Holds(m, id, h) && Keeps(m.dialogs[h], d) && (Settled(d) ==> d.info.id == id)
    ensures Holds(Put(m, h, d), id, h)
    ensures Put(m, h, d).ids == m.ids && Put(m, h, d).pending == m.pending
  {
    PutKeepsInv(m, h, d);
  }

  // ---- The caller, before it is answered ----

  predicate IsCallOf(invite: SipRequest) {
    && invite.verb == Invite && invite.callId.Some? && invite.callId.value != "" && invite.fromTag.Some?
    && invite.toTag.None? && invite.cseq.Some? && invite.fromUri.Some? && invite.toUri.Some? && invite.contact.Some?
  }

  /** The ID of an outgoing call to a callee with that tag. */
  function CallerId(invite: SipRequest, tag: string): DialogId
    requires IsCallOf(invite)
  {
    DialogId(invite.callId.value, invite.fromTag.value, tag)
  }

  ghost predicate Calling(m: Manager, h: Handle, invite: SipRequest, tag: string) {
    && IsCallOf(invite)
    && Holds(m, CallerId(invite, tag), h)
    && m.dialogs[h].role == Uac && m.dialogs[h].info.state == Early && m.dialogs[h].invite == invite
    && Name(CallerId(invite, tag)) in m.pending
  }

  /** Other traffic, including any request, or provisional responses of the call. */
  predicate WhileCalling(op: Op, id: DialogId, h: Handle) {
    || Foreign(op, id, h)
    || (op.Incoming? && FreshTag(op.request, op.tag, id))
    || (op.Reply? && op.response.code < 200)
  }

  lemma CallStarts(m: Manager, invite: SipRequest, tag: string)
    requires Inv(m) && IsCallOf(invite) && Unused(m, Name(CallerId(invite, tag)))
    ensures CreateDialog(m, invite).value == Some(m.nextHandle)
    ensures Calling(CreateDialog(m, invite).manager, m.nextHandle, invite, tag)
  {
    CallKeepsInv(m, invite);
  }

  lemma ProvisionalKeepsCalling(m: Manager, h: Handle, invite: SipRequest, tag: string, r: SipResponse)
    requires Calling(m, h, invite, tag) && r.code < 200 && !Foreign(Reply(r), CallerId(invite, tag), h)
    ensures Calling(AfterReply(m, r).manager, h, invite, tag)
  {
    assert FindForResponse(m, r) == Some(h);
    ProvisionalStaysEarly(m.dialogs[h], r);
    TransitionsKeep(m.dialogs[h], invite, r);
    PutHere(m, h, AfterResponse(m.dialogs[h], r), CallerId(invite, tag));
    assert AfterReply(m, r).manager == Put(m, h, AfterResponse(m.dialogs[h], r));
  }

  lemma ProvisionalStaysEarly(d: Dialog, r: SipResponse)
    requires d.role == Uac && d.info.state == Early && r.code < 200
    ensures var after := AfterResponse(d, r);
            after.role == Uac && after.info.state == Early && after.invite == d.invite
  {
  }

  lemma CallingKept(m: Manager, contact: string, op: Op, h: Handle, invite: SipRequest, tag: string)
    requires Calling(m, h, invite, tag) && WhileCalling(op, CallerId(invite, tag), h)
    ensures Calling(Apply(m, contact, op), h, invite, tag)
  {
    var id := CallerId(invite, tag);
    if Foreign(op, id, h) {
      ForeignIsHarmless(m, contact, op, id, h);
    } else if op.Incoming? {
      ForeignIncoming(m, contact, op.request, op.tag, id, h);
      ApplyKeepsInv(m, contact, op);
    } else {
      ProvisionalKeepsCalling(m, h, invite, tag, op.response);
    }
  }

  lemma {:induction false} CallingThroughout(m: Manager, contact: string, ops: seq<Op>, h: Handle,
                                             invite: SipRequest, tag: string)
    requires Calling(m, h, invite, tag)
    requires forall i :: 0 <= i < |ops| ==> WhileCalling(ops[i], CallerId(invite, tag), h)
    ensures Calling(RunAll(m, contact, ops), h, invite, tag)
    decreases |ops|
  {
    if ops != [] {
      CallingThroughout(m, contact, ops[..|ops| - 1], h, invite, tag);
      CallingKept(RunAll(m, contact, ops[..|ops| - 1]), contact, ops[|ops| - 1], h, invite, tag);
    }
  }

  // ---- The callee, before it answers ----

  /** One end of the call, in state `base` except for its sequence numbers. */
  ghost predicate Standing(m: Manager, h: Handle, base: DialogInfo) {
    && Holds(m, base.id, h)
    && SameButNumbers(m.dialogs[h].info, base)
    && FoundById(m, h) && Name(base.id) !in m.pending
  }

  predicate SameButNumbers(info: DialogInfo, base: DialogInfo) {
    info == base.(localSeq := info.localSeq, remoteSeq := info.remoteSeq)
  }

  ghost predicate Ringing(m: Manager, h: Handle, base: DialogInfo) {
    Standing(m, h, base) && base.state == Early && m.dialogs[h].role == Uas
  }

  /** Other traffic, or provisional answers to this call. */
  predicate WhileRinging(op: Op, id: DialogId, h: Handle) {
    || Foreign(op, id, h)
    || (op.Answer? && op.handle == h && op.answer.code < 200)
  }

  lemma CallArrives(m: Manager, contact: string, invite: SipRequest, tag: string)
    requires Inv(m) && IsCallOf(invite) && Unused(m, (invite.callId.value, tag))
    ensures AfterIncoming(m, contact, invite, tag).value == Some(m.nextHandle)
    ensures Ringing(AfterIncoming(m, contact, invite, tag).manager, m.nextHandle,
                    InfoFromInvite(invite, tag, contact).value)
    ensures AfterIncoming(m, contact, invite, tag).manager.actions
            == m.actions + [Report(m.nextHandle, IncomingInvite(invite))]
  {
    IncomingKeepsInv(m, contact, invite, tag);
  }

  lemma ForeignKeepsStanding(m: Manager, contact: string, op: Op, h: Handle, base: DialogInfo)
    requires Standing(m, h, base) && Foreign(op, base.id, h) && base.state != Terminated
    ensures Standing(Apply(m, contact, op), h, base)
    ensures Apply(m, contact, op).dialogs[h] == m.dialogs[h]
  {
    ForeignIsHarmless(m, contact, op, base.id, h);
  }

  lemma PutKeepsStanding(m: Manager, h: Handle, d: Dialog, base: DialogInfo)
    requires Standing(m, h, base) && Settled(m.dialogs[h]) && Keeps(m.dialogs[h], d) && SameButNumbers(d.info, base)
    ensures Standing(Put(m, h, d), h, base)
  {
    PutHere(m, h, d, base.id);
  }

  lemma RingingKept(m: Manager, contact: string, op: Op, h: Handle, base: DialogInfo)
    requires Ringing(m, h, base) && WhileRinging(op, base.id, h)
    ensures Ringing(Apply(m, contact, op), h, base)
  {
    if Foreign(op, base.id, h) {
      ForeignKeepsStanding(m, contact, op, h, base);
    } else {
      var d := m.dialogs[h];
      TransitionsKeep(d, d.invite, op.answer);
      PutKeepsStanding(m, h, AfterSendResponse(d, op.answer), base);
    }
  }

  lemma {:induction false} RingingThroughout(m: Manager, contact: string, ops: seq<Op>, h: Handle, base: DialogInfo)
    requires Ringing(m, h, base)
    requires forall i :: 0 <= i < |ops| ==> WhileRinging(ops[i], base.id, h)
    ensures Ringing(RunAll(m, contact, ops), h, base)
    decreases |ops|
  {
    if ops != [] {
      RingingThroughout(m, contact, ops[..|ops| - 1], h, base);
      RingingKept(RunAll(m, contact, ops[..|ops| - 1]), contact, ops[|ops| - 1], h, base);
    }
  }

  // ---- Either side, once the call stands ----

  ghost predicate Talking(m: Manager, h: Handle, base: DialogInfo) {
    && Standing(m, h, base) && base.state == Confirmed
    && base.remoteTarget != "" && base.localUri != "" && base.remoteUri != ""
  }

  /** Other traffic, repeated or late responses of the call, our own answers and
      acknowledgements, and any request of the peer short of BYE. */
  predicate WhileTalking(op: Op, id: DialogId, h: Handle) {
    || Foreign(op, id, h)
    || op.Reply?
    || (op.Answer? && op.handle == h)
    || (op.Acked? && op.handle == h)
    || (op.Incoming? && FromPeer(op.request, id) && op.request.verb != Bye)
  }

  lemma RequestWhileTalking(m: Manager, contact: string, q: SipRequest, tag: string, h: Handle, base: DialogInfo)
    requires Talking(m, h, base) && FromPeer(q, base.id) && q.verb != Bye
    ensures Talking(AfterIncoming(m, contact, q, tag).manager, h, base)
  {
    var d := m.dialogs[h];
    TransitionsKeep(d, q, NO_RESPONSE);
    assert FindDialog(m, q) == Some(h);
    PutKeepsStanding(m, h, AfterRequest(d, q), base);
  }

  lemma ReplyWhileTalking(m: Manager, r: SipResponse, h: Handle, base: DialogInfo)
    requires Talking(m, h, base) && !Foreign(Reply(r), base.id, h)
    ensures Talking(AfterReply(m, r).manager, h, base)
  {
    var found := FindForResponse(m, r);
    if found.Some? {
      FoundHere(m, r, h, base.id);
      var d := m.dialogs[h];
      assert AfterResponse(d, r) == d;
      PutKeepsStanding(m, h, d, base);
    }
  }

  /** A response under the dialog's name finds no other dialog. */
  lemma FoundHere(m: Manager, r: SipResponse, h: Handle, id: DialogId)
    requires Holds(m, id, h) && r.callId == Some(id.callId) && r.fromTag == Some(id.localTag)
    requires FindForResponse(m, r).Some? && Name(id) !in m.pending
    ensures FindForResponse(m, r) == Some(h)
  {
    var g := FindForResponse(m, r).value;
    if g != h {
      OtherName(m.dialogs[g], id);
    }
  }

  lemma AnswerWhileTalking(m: Manager, r: SipResponse, h: Handle, base: DialogInfo)
    requires Talking(m, h, base)
    ensures Talking(SendResponseFor(m, h, r), h, base)
  {
    var d := m.dialogs[h];
    TransitionsKeep(d, d.invite, r);
    PutKeepsStanding(m, h, AfterSendResponse(d, r), base);
  }

  lemma AckWhileTalking(m: Manager, h: Handle, base: DialogInfo)
    requires Talking(m, h, base)
    ensures Talking(MarkAck(m, h), h, base)
  {
    var d := m.dialogs[h].(ackSent := true);
    PutKeepsStanding(m, h, d, base);
    assert MarkAck(m, h).dialogs == Put(m, h, d).dialogs;
    ActionsDoNotMatter(Put(m, h, d), MarkAck(m, h));
  }

  lemma TalkingKept(m: Manager, contact: string, op: Op, h: Handle, base: DialogInfo)
    requires Talking(m, h, base) && WhileTalking(op, base.id, h)
    ensures Talking(Apply(m, contact, op), h, base)
  {
    if Foreign(op, base.id, h) {
      ForeignKeepsStanding(m, contact, op, h, base);
    } else {
      OwnOpKeepsTalking(m, contact, op, h, base);
    }
  }

  lemma OwnOpKeepsTalking(m: Manager, contact: string, op: Op, h: Handle, base: DialogInfo)
    requires Talking(m, h, base) && WhileTalking(op, base.id, h) && !Foreign(op, base.id, h)
    ensures Talking(Apply(m, contact, op), h, base)
  {
    match op {
      case Incoming(q, tag) => RequestWhileTalking(m, contact, q, tag, h, base);
      case Reply(r) => ReplyWhileTalking(m, r, h, base);
      case Answer(_, r) => AnswerWhileTalking(m, r, h, base);
      case Acked(_) => AckWhileTalking(m, h, base);
    }
  }

  lemma {:induction false} TalkingThroughout(m: Manager, contact: string, ops: seq<Op>, h: Handle, base: DialogInfo)
    requires Talking(m, h, base)
    requires forall i :: 0 <= i < |ops| ==> WhileTalking(ops[i], base.id, h)
    ensures Talking(RunAll(m, contact, ops), h, base)
    decreases |ops|
  {
    if ops != [] {
      TalkingThroughout(m, contact, ops[..|ops| - 1], h, base);
      TalkingKept(RunAll(m, contact, ops[..|ops| - 1]), contact, ops[|ops| - 1], h, base);
    }
  }

  // ---- The answer ----

  /** A 2xx for the INVITE that carries the callee's tag and a Contact. */
  predicate IsAnswer(r: SipResponse, invite: SipRequest, tag: string) {
    && 200 <= r.code < 300 && r.callId == invite.callId && r.fromTag == invite.fromTag
    && r.toTag == Some(tag) && r.contact.Some?
  }

  /** The manager has these actions more to hand out. */
  predicate Gains(m: Manager, t: Manager, more: seq<ManagerAction>) {
    t.actions == m.actions + more
  }

  lemma PutGains(m: Manager, h: Handle, d: Dialog, actions: seq<Action>)
    requires d.actions == actions && |actions| <= 2
    ensures actions == [] ==> Put(m, h, d).actions == m.actions
    ensures |actions| == 1 ==> Gains(m, Put(m, h, d), [LiftAction(h, actions[0])])
    ensures |actions| == 2 ==> Gains(m, Put(m, h, d), [LiftAction(h, actions[0]), LiftAction(h, actions[1])])
  {
  }

  lemma CalleeAnswers(m: Manager, h: Handle, base: DialogInfo, r: SipResponse)
    requires Ringing(m, h, base) && 200 <= r.code < 300
    requires base.remoteTarget != "" && base.localUri != "" && base.remoteUri != ""
    ensures Talking(SendResponseFor(m, h, r), h, base.(state := Confirmed))
  {
    var d := m.dialogs[h];
    var after := AfterSendResponse(d, r);
    TransitionsKeep(d, d.invite, r);
    PutHere(m, h, after, base.id);
    assert m.ids[after.info.id := h] == m.ids;
    assert SendResponseFor(m, h, r) == Put(m, h, after);
  }

  lemma AnswerIsForwarded(m: Manager, h: Handle, r: SipResponse)
    requires h in m.dialogs && m.dialogs[h].actions == [] && 200 <= r.code < 300
    requires m.dialogs[h].role == Uas && m.dialogs[h].info.state == Early
    ensures Gains(m, SendResponseFor(m, h, r), [ForwardResponse(r), Report(h, FromDialog(Established))])
  {
    PutGains(m, h, AfterSendResponse(m.dialogs[h], r), [SendResponse(r), Emit(Established)]);
  }

  lemma CallerIsAnswered(m: Manager, h: Handle, invite: SipRequest, r: SipResponse, tag: string)
    requires Calling(m, h, invite, tag) && IsAnswer(r, invite, tag)
    ensures Talking(AfterReply(m, r).manager, h, InfoFromResponse(invite, r, Confirmed).value)
    ensures Gains(m, AfterReply(m, r).manager, [Report(h, FromDialog(Established))])
  {
    PutGains(m, h, AfterResponse(m.dialogs[h], r), [Emit(Established)]);
    assert FindForResponse(m, r) == Some(h);
    ResponseKeepsInv(m, r);
    var t := AfterReply(m, r).manager;
    assert t.dialogs[h].info == InfoFromResponse(invite, r, Confirmed).value;
    assert t.pending == m.pending - {(invite.callId.value, invite.fromTag.value)};
  }

  // ---- Setting up a call ----

  /** Everything the two managers do during a call: other traffic before the answer, and
      anything short of ending it afterwards. */
  datatype Setup = Setup(invite: SipRequest, tag: string, answer: SipResponse,
                         callerBefore: seq<Op>, callerAfter: seq<Op>, calleeBefore: seq<Op>, calleeAfter: seq<Op>) {
    ghost predicate Valid() {
      IsCallOf(invite) && IsAnswer(answer, invite, tag)
    }
  }

  /** The caller just before it is answered, and the callee just before it answers. */
  function CallerWaits(a: Manager, contact: string, s: Setup): Manager {
    RunAll(CreateDialog(a, s.invite).manager, contact, s.callerBefore)
  }

  function CalleeRings(b: Manager, contact: string, s: Setup): Manager {
    RunAll(AfterIncoming(b, contact, s.invite, s.tag).manager, contact, s.calleeBefore)
  }

  function CallerEnd(a: Manager, contact: string, s: Setup): Manager {
    RunAll(AfterReply(CallerWaits(a, contact, s), s.answer).manager, contact, s.callerAfter)
  }

  function CalleeEnd(b: Manager, contact: string, s: Setup): Manager {
    RunAll(SendResponseFor(CalleeRings(b, contact, s), b.nextHandle, s.answer), contact, s.calleeAfter)
  }

  ghost function CallerInfo(s: Setup): DialogInfo
    requires s.Valid()
  {
    InfoFromResponse(s.invite, s.answer, Confirmed).value
  }

  ghost function CalleeInfo(s: Setup, contact: string): DialogInfo
    requires s.Valid()
  {
    InfoFromInvite(s.invite, s.tag, contact).value.(state := Confirmed)
  }

  /** The caller starts where the call's name is unused, and lets the call live. */
  ghost predicate CallerAllowed(a: Manager, s: Setup)
    requires s.Valid()
  {
    && Inv(a) && Unused(a, Name(CallerInfo(s).id))
    && (forall i :: 0 <= i < |s.callerBefore| ==> WhileCalling(s.callerBefore[i], CallerInfo(s).id, a.nextHandle))
    && (forall i :: 0 <= i < |s.callerAfter| ==> WhileTalking(s.callerAfter[i], CallerInfo(s).id, a.nextHandle))
  }

  ghost predicate CalleeAllowed(b: Manager, s: Setup, contact: string)
    requires s.Valid()
  {
    && Inv(b) && Unused(b, Name(CalleeInfo(s, contact).id))
    && (forall i :: 0 <= i < |s.calleeBefore| ==>
          WhileRinging(s.calleeBefore[i], CalleeInfo(s, contact).id, b.nextHandle))
    && (forall i :: 0 <= i < |s.calleeAfter| ==>
          WhileTalking(s.calleeAfter[i], CalleeInfo(s, contact).id, b.nextHandle))
  }

  /** From any two reachable states in which the names of the two ends are unused, INVITE and a
      2xx with the callee's tag bring both sides to Confirmed, under dialog IDs that mirror each
      other and with opposite route sets, whatever else both managers do in between. */
  lemma CallIsSetUp(a: Manager, b: Manager, contactA: string, contactB: string, s: Setup)
    requires s.Valid() && CallerAllowed(a, s) && CalleeAllowed(b, s, contactB)
    ensures var x, y := CallerInfo(s), CalleeInfo(s, contactB);
            && Talking(CallerEnd(a, contactA, s), a.nextHandle, x)
            && Talking(CalleeEnd(b, contactB, s), b.nextHandle, y)
            && x.id == y.id.Mirrored() && x.localUri == y.remoteUri && x.remoteUri == y.localUri
            && Some(x.remoteTarget) == s.answer.contact && Some(y.remoteTarget) == s.invite.contact
            && (s.answer.recordRoutes == s.invite.recordRoutes ==> x.routes == Reversed(y.routes))
  {
    CallerIsSetUp(a, contactA, s);
    CalleeIsSetUp(b, contactB, s);
  }

  lemma CallerIsSetUp(a: Manager, contact: string, s: Setup)
    requires s.Valid() && CallerAllowed(a, s)
    ensures Talking(CallerEnd(a, contact, s), a.nextHandle, CallerInfo(s))
    ensures var waiting := CallerWaits(a, contact, s);
            Gains(waiting, AfterReply(waiting, s.answer).manager, [Report(a.nextHandle, FromDialog(Established))])
  {
    var h := a.nextHandle;
    var started := CreateDialog(a, s.invite).manager;
    CallStarts(a, s.invite, s.tag);
    CallingThroughout(started, contact, s.callerBefore, h, s.invite, s.tag);
    var calling := RunAll(started, contact, s.callerBefore);
    CallerIsAnswered(calling, h, s.invite, s.answer, s.tag);
    TalkingThroughout(AfterReply(calling, s.answer).manager, contact, s.callerAfter, h, CallerInfo(s));
  }

  lemma CalleeIsSetUp(b: Manager, contact: string, s: Setup)
    requires s.Valid() && CalleeAllowed(b, s, contact)
    ensures Talking(CalleeEnd(b, contact, s), b.nextHandle, CalleeInfo(s, contact))
    ensures Gains(b, AfterIncoming(b, contact, s.invite, s.tag).manager,
                  [Report(b.nextHandle, IncomingInvite(s.invite))])
    ensures var ringing := CalleeRings(b, contact, s);
            Gains(ringing, SendResponseFor(ringing, b.nextHandle, s.answer),
                  [ForwardResponse(s.answer), Report(b.nextHandle, FromDialog(Established))])
  {
    var h := b.nextHandle;
    var arrived := AfterIncoming(b, contact, s.invite, s.tag).manager;
    var base := InfoFromInvite(s.invite, s.tag, contact).value;
    CallArrives(b, contact, s.invite, s.tag);
    RingingThroughout(arrived, contact, s.calleeBefore, h, base);
    var ringing := RunAll(arrived, contact, s.calleeBefore);
    CalleeAnswers(ringing, h, base, s.answer);
    AnswerIsForwarded(ringing, h, s.answer);
    TalkingThroughout(SendResponseFor(ringing, h, s.answer), contact, s.calleeAfter, h, CalleeInfo(s, contact));
  }

  // ---- Ending it ----

  /** All that changes in the manager is dialog h. */
  ghost predicate OnlyDialog(m: Manager, t: Manager, h: Handle) {
    && t.dialogs.Keys == m.dialogs.Keys && (forall g :: g in m.dialogs && g != h ==> t.dialogs[g] == m.dialogs[g])
    && t.ids == m.ids && t.pending == m.pending && t.nextHandle == m.nextHandle
  }

  lemma HangUpSendsBye(m: Manager, h: Handle, base: DialogInfo)
    requires Talking(m, h, base)
    ensures var s := SendByeFor(m, h);
            && s.value.Some? && IsByeFor(s.value.value, base)
            && s.manager.dialogs[h].info.state == Terminating && OnlyDialog(m, s.manager, h)
            && Gains(m, s.manager, [ForwardRequest(s.value.value)])
  {
    var d := m.dialogs[h];
    assert AfterSendBye(d).request.Some?;
    PutGains(m, h, AfterSendBye(d).dialog, [SendRequest(AfterSendBye(d).request.value)]);
  }

  /** What a BYE makes the manager report. */
  function ByeReports(h: Handle, bye: SipRequest): seq<ManagerAction> {
    [Report(h, FromDialog(ByeReceived(bye))), Report(h, FromDialog(TerminatedEvent(ByeReceivedReason)))]
  }

  /** A BYE that this end of a call sends: tags, URIs, target and routes of its dialog. */
  predicate IsByeFor(q: SipRequest, base: DialogInfo) {
    && q.verb == Bye && q.cseq.Some? && FromPeer(q, base.id.Mirrored())
    && q.target == base.remoteTarget && q.routes == base.routes
    && q.fromUri == Some(base.localUri) && q.toUri == Some(base.remoteUri)
  }

  lemma ByeEndsDialog(m: Manager, contact: string, h: Handle, id: DialogId, bye: SipRequest, tag: string)
    requires Inv(m) && FoundById(m, h) && m.dialogs[h].info.id == id
    requires bye.verb == Bye && bye.cseq.Some? && FromPeer(bye, id)
    ensures var t := AfterIncoming(m, contact, bye, tag);
            && t.value == Some(h) && Ended(t.manager, h) && OnlyDialog(m, t.manager, h)
            && Gains(m, t.manager, ByeReports(h, bye))
  {
    assert FindDialog(m, bye) == Some(h);
    PutGains(m, h, AfterRequest(m.dialogs[h], bye),
             [Emit(ByeReceived(bye)), Emit(TerminatedEvent(ByeReceivedReason))]);
  }

  /** When both ends of a call stand, the BYE either of them builds is routed by the other to
      exactly that dialog, ends it and changes no other dialog. */
  lemma ByeIsRouted(m: Manager, h: Handle, base: DialogInfo, peer: Manager, contact: string, k: Handle,
                    peerBase: DialogInfo, tag: string)
    requires Talking(m, h, base) && Talking(peer, k, peerBase) && base.id == peerBase.id.Mirrored()
    ensures var s := SendByeFor(m, h);
            && s.value.Some? && s.manager.dialogs[h].info.state == Terminating && OnlyDialog(m, s.manager, h)
            && Gains(m, s.manager, [ForwardRequest(s.value.value)])
            && var t := AfterIncoming(peer, contact, s.value.value, tag);
               && t.value == Some(k) && Ended(t.manager, k) && OnlyDialog(peer, t.manager, k)
               && Gains(peer, t.manager, ByeReports(k, s.value.value))
  {
    HangUpSendsBye(m, h, base);
    ByeEndsDialog(peer, contact, k, peerBase.id, SendByeFor(m, h).value.value, tag);
  }

  /** The side that hangs up can still be found. */
  lemma FoundAfterHangUp(m: Manager, h: Handle)
    requires Inv(m) && FoundById(m, h)
    ensures var t := SendByeFor(m, h).manager;
            Inv(t) && FoundById(t, h) && t.dialogs[h].info.id == m.dialogs[h].info.id
  {
    ApplyKeepsInv(m, "", HangUp(h));
  }

  /** A BYE of the peer ends the dialog also after this side has hung up. */
  lemma ByeAfterHangUp(m: Manager, h: Handle, base: DialogInfo, contact: string, bye: SipRequest, tag: string)
    requires Talking(m, h, base) && bye.verb == Bye && bye.cseq.Some? && FromPeer(bye, base.id)
    ensures var t := AfterIncoming(SendByeFor(m, h).manager, contact, bye, tag);
            t.value == Some(h) && Ended(t.manager, h) && OnlyDialog(m, t.manager, h)
  {
    HangUpSendsBye(m, h, base);
    FoundAfterHangUp(m, h);
    ByeEndsDialog(SendByeFor(m, h).manager, contact, h, base.id, bye, tag);
  }

  /** When both ends hang up at once, the two BYEs cross and still end both dialogs. */
  lemma CrossingByesEndBoth(m: Manager, h: Handle, base: DialogInfo, contact: string,
                            peer: Manager, k: Handle, peerBase: DialogInfo, peerContact: string, tag: string)
    requires Talking(m, h, base) && Talking(peer, k, peerBase) && base.id == peerBase.id.Mirrored()
    ensures var s, u := SendByeFor(m, h), SendByeFor(peer, k);
            && s.value.Some? && u.value.Some?
            && var t := AfterIncoming(s.manager, contact, u.value.value, tag);
               var v := AfterIncoming(u.manager, peerContact, s.value.value, tag);
               && t.value == Some(h) && Ended(t.manager, h) && OnlyDialog(m, t.manager, h)
               && v.value == Some(k) && Ended(v.manager, k) && OnlyDialog(peer, v.manager, k)
  {
    HangUpSendsBye(m, h, base);
    HangUpSendsBye(peer, k, peerBase);
    ByeAfterHangUp(m, h, base, contact, SendByeFor(peer, k).value.value, tag);
    ByeAfterHangUp(peer, k, peerBase, peerContact, SendByeFor(m, h).value.value, tag);
  }

  /** A whole call: set up amid other traffic, then ended by either side. */
  lemma WholeCall(a: Manager, b: Manager, contactA: string, contactB: string, s: Setup, tag: string)
    requires s.Valid() && CallerAllowed(a, s) && CalleeAllowed(b, s, contactB)
    ensures var m, n := CallerEnd(a, contactA, s), CalleeEnd(b, contactB, s);
            var fromCaller, fromCallee := SendByeFor(m, a.nextHandle), SendByeFor(n, b.nextHandle);
            && fromCaller.value.Some? && fromCallee.value.Some?
            && var t := AfterIncoming(n, contactB, fromCaller.value.value, tag);
               var u := AfterIncoming(m, contactA, fromCallee.value.value, tag);
               && t.value == Some(b.nextHandle) && Ended(t.manager, b.nextHandle)
               && OnlyDialog(n, t.manager, b.nextHandle)
               && Gains(n, t.manager, ByeReports(b.nextHandle, fromCaller.value.value))
               && u.value == Some(a.nextHandle) && Ended(u.manager, a.nextHandle)
               && OnlyDialog(m, u.manager, a.nextHandle)
               && Gains(m, u.manager, ByeReports(a.nextHandle, fromCallee.value.value))
               && Gains(m, fromCaller.manager, [ForwardRequest(fromCaller.value.value)])
               && Gains(n, fromCallee.manager, [ForwardRequest(fromCallee.value.value)])
    ensures Gains(b, AfterIncoming(b, contactB, s.invite, s.tag).manager,
                  [Report(b.nextHandle, IncomingInvite(s.invite))])
    ensures var ringing := CalleeRings(b, contactB, s);
            Gains(ringing, SendResponseFor(ringing, b.nextHandle, s.answer),
                  [ForwardResponse(s.answer), Report(b.nextHandle, FromDialog(Established))])
    ensures var waiting := CallerWaits(a, contactA, s);
            Gains(waiting, AfterReply(waiting, s.answer).manager, [Report(a.nextHandle, FromDialog(Established))])
  {
    var m, n := CallerEnd(a, contactA, s), CalleeEnd(b, contactB, s);
    CallIsSetUp(a, b, contactA, contactB, s);
    CallerIsSetUp(a, contactA, s);
    CalleeIsSetUp(b, contactB, s);
    ByeIsRouted(m, a.nextHandle, CallerInfo(s), n, contactB, b.nextHandle, CalleeInfo(s, contactB), tag);
    ByeIsRouted(n, b.nextHandle, CalleeInfo(s, contactB), m, contactA, a.nextHandle, CallerInfo(s), tag);
  }
}
