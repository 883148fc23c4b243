/** INVITE dialogs (section 12 of RFC 3261): identifiers, dialog state and the transitions of
    one dialog. Messages are records of the header values the dialog layer reads; an absent
    or unparseable header is None. */
module SipDialog {
  import opened Words

  /** The printed form of a parsed URI is never empty, and parses again. */
  type Uri = s: string | s != "" witness "sip:a"

  datatype Method = Invite | Ack | Bye | Cancel | Prack | Update | OtherMethod(name: string)

  datatype SipRequest = SipRequest(verb: Method, target: string, callId: Option<string>, fromTag: Option<string>,
                                   toTag: Option<string>, cseq: Option<u32>, fromUri: Option<Uri>, toUri: Option<Uri>,
                                   contact: Option<Uri>, recordRoutes: seq<string>, routes: seq<string>,
                                   secureVia: bool, reason: Option<string>)

  datatype SipResponse = SipResponse(code: nat, callId: Option<string>, fromTag: Option<string>, toTag: Option<string>,
                                     cseqMethod: Option<Method>, contact: Option<Uri>, recordRoutes: seq<string>)

  /** A placeholder where only the request side of a lemma matters. */
  const NO_RESPONSE: SipResponse := SipResponse(0, None, None, None, None, None, [])

  datatype DialogId = DialogId(callId: string, localTag: string, remoteTag: string) {
    /** The same dialog as the peer names it. */
    function Mirrored(): DialogId {
      DialogId(callId, remoteTag, localTag)
    }
  }

  datatype DialogState = Early | Confirmed | Terminating | Terminated

  datatype Role = Uac | Uas

  datatype DialogInfo = DialogInfo(id: DialogId, state: DialogState, localSeq: u32, remoteSeq: Option<u32>,
                                   localUri: string, remoteUri: string, remoteTarget: string, localContact: string,
                                   routes: seq<string>, secure: bool)

  datatype Reason = ByeSent | ByeReceivedReason | Rejected(code: nat) | Cancelled

  datatype Event =
    | Established
    | Provisional(response: SipResponse)
    | SessionProgress(progress: SipResponse)
    | ReInvite(reinvite: SipRequest)
    | ByeReceived(bye: SipRequest)
    | TerminatedEvent(why: Reason)

  datatype Action = SendRequest(request: SipRequest) | SendResponse(answer: SipResponse) | Emit(event: Event)

  /** One dialog as a value. */
  datatype Dialog = Dialog(info: DialogInfo, role: Role, invite: SipRequest, actions: seq<Action>, ackSent: bool)

  function OrEmpty(u: Option<Uri>): string {
    if u.Some? then u.value else ""
  }

  function Reversed(xs: seq<string>): (r: seq<string>)
    ensures |r| == |xs| && forall i :: 0 <= i < |xs| ==> r[i] == xs[|xs| - 1 - i]
  {
    if xs == [] then [] else Reversed(xs[1..]) + [xs[0]]
  }

  // ---- Dialog information ----

  /** Known once a response has named the dialog: tags, target and the INVITE's own number. */
  function InfoFromResponse(invite: SipRequest, r: SipResponse, state: DialogState): Option<DialogInfo> {
    if r.callId.Some? && r.fromTag.Some? && r.toTag.Some? && invite.fromUri.Some? && invite.toUri.Some?
       && r.contact.Some? && invite.cseq.Some?
    then Some(DialogInfo(DialogId(r.callId.value, r.fromTag.value, r.toTag.value), state, invite.cseq.value, None,
                         invite.fromUri.value, invite.toUri.value, r.contact.value, OrEmpty(invite.contact),
                         Reversed(r.recordRoutes), invite.secureVia))
    else None
  }

  function InfoFromInvite(invite: SipRequest, localTag: string, localContact: string): Option<DialogInfo> {
    if invite.callId.Some? && invite.fromTag.Some? && invite.fromUri.Some? && invite.toUri.Some?
       && invite.contact.Some? && invite.cseq.Some?
    then Some(DialogInfo(DialogId(invite.callId.value, localTag, invite.fromTag.value), Early, 0, invite.cseq,
                         invite.toUri.value, invite.fromUri.value, invite.contact.value, localContact,
                         invite.recordRoutes, invite.secureVia))
    else None
  }

  function NewUac(invite: SipRequest): Dialog {
    Dialog(DialogInfo(DialogId("", "", ""), Early, if invite.cseq.Some? then invite.cseq.value else 1, None,
                      OrEmpty(invite.fromUri), OrEmpty(invite.toUri), "", OrEmpty(invite.contact), [], false),
           Uac, invite, [], false)
  }

  function NewUas(invite: SipRequest, localTag: string, localContact: string): Option<Dialog> {
    match InfoFromInvite(invite, localTag, localContact)
    case Some(info) => Some(Dialog(info, Uas, invite, [], false))
    case None => None
  }

  // ---- Transitions ----

  function Act(d: Dialog, actions: seq<Action>): Dialog {
    d.(actions := d.actions + actions)
  }

  function In(d: Dialog, state: DialogState): Dialog {
    d.(info := d.info.(state := state))
  }

  function OnProvisional(d: Dialog, r: SipResponse): Dialog {
    var info := InfoFromResponse(d.invite, r, Early);
    Act(if info.Some? then d.(info := info.value) else d,
        (if r.code == 183 then [Emit(SessionProgress(r))] else []) + [Emit(Provisional(r))])
  }

  function OnSuccess(d: Dialog, r: SipResponse): Dialog {
    var info := InfoFromResponse(d.invite, r, Confirmed);
    Act(if info.Some? then d.(info := info.value) else In(d, Confirmed), [Emit(Established)])
  }

  /** A response to the INVITE. Once past Early, responses are left to other layers. */
  function AfterResponse(d: Dialog, r: SipResponse): Dialog {
    if d.role != Uac || d.info.state != Early then d
    else if 100 < r.code < 200 then OnProvisional(d, r)
    else if 200 <= r.code < 300 then OnSuccess(d, r)
    else if r.code >= 300 then Act(In(d, Terminated), [Emit(TerminatedEvent(Rejected(r.code)))])
    else d
  }

  predicate Fresher(current: Option<u32>, number: u32) {
    current.None? || number > current.value
  }

  function AfterRequest(d: Dialog, q: SipRequest): Dialog {
    if q.cseq.None? then d
    else match q.verb
      case Bye => Act(In(d, Terminated), [Emit(ByeReceived(q)), Emit(TerminatedEvent(ByeReceivedReason))])
      case Invite =>
        if d.info.state == Confirmed && Fresher(d.info.remoteSeq, q.cseq.value)
        then Act(d.(info := d.info.(remoteSeq := q.cseq)), [Emit(ReInvite(q))]) else d
      case Ack => if d.role == Uas && d.info.state == Confirmed then d.(ackSent := true) else d
      case Cancel =>
        if d.info.state == Early && d.role == Uas
        then Act(In(d, Terminated), [Emit(TerminatedEvent(Cancelled))]) else d
      case _ => d
  }

  function AfterSendResponse(d: Dialog, r: SipResponse): Dialog {
    if d.role != Uas then d
    else if 200 <= r.code < 300 && d.info.state == Early then
      Act(In(d, Confirmed), [SendResponse(r), Emit(Established)])
    else if r.code >= 300 && d.info.state == Early then
      Act(In(d, Terminated), [SendResponse(r), Emit(TerminatedEvent(Rejected(r.code)))])
    else Act(d, [SendResponse(r)])
  }

  /** A request inside the dialog. It cannot be built while a URI is still unknown. */
  function InDialog(info: DialogInfo, verb: Method, cseq: u32, reason: Option<string>): Option<SipRequest> {
    if info.remoteTarget == "" || info.localUri == "" || info.remoteUri == "" then None
    else Some(SipRequest(verb, info.remoteTarget, Some(info.id.callId), Some(info.id.localTag), Some(info.id.remoteTag),
                         Some(cseq), Some(info.localUri), Some(info.remoteUri),
                         if info.localContact == "" then None else Some(info.localContact),
                         [], info.routes, false, reason))
  }

  datatype Built = Built(dialog: Dialog, request: Option<SipRequest>)

  function NextSeq(info: DialogInfo): DialogInfo {
    info.(localSeq := Wrap32(info.localSeq as int + 1))
  }

  /** The number is consumed and the dialog is Terminating even if the request cannot be built. */
  function AfterSendBye(d: Dialog): Built {
    if d.info.state != Confirmed then Built(d, None)
    else
      var info := NextSeq(d.info.(state := Terminating));
      match InDialog(info, Bye, info.localSeq, None)
      case Some(bye) => Built(Act(d.(info := info), [SendRequest(bye)]), Some(bye))
      case None => Built(d.(info := info), None)
  }

  /** PRACK for a reliable provisional response; None stands for an abort. */
  function AfterPrack(d: Dialog, r: SipResponse): Built {
    if r.cseqMethod.None? then Built(d, None)
    else
      var info := NextSeq(d.info);
      Built(d.(info := info), InDialog(info, Prack, info.localSeq, None))
  }

  function AfterUpdate(d: Dialog): Built {
    var info := NextSeq(d.info);
    Built(d.(info := info), InDialog(info, Update, info.localSeq, None))
  }

  /** Unlike a plain BYE, nothing changes if the request cannot be built. */
  function AfterByeWithReason(d: Dialog, reason: string): Built {
    if d.info.state != Confirmed then Built(d, None)
    else
      var cseq := Min(d.info.localSeq + 1, 0xffff_ffff);
      match InDialog(d.info, Bye, cseq, Some(reason))
      case Some(bye) =>
        Built(Act(d.(info := d.info.(localSeq := cseq, state := Terminating)), [SendRequest(bye)]), Some(bye))
      case None => Built(d, None)
  }

  /** The dialog object. */
  class InviteDialog {
    var info: DialogInfo
    const role: Role
    const invite: SipRequest
    var actions: seq<Action>
    var ackSent: bool

    ghost function View(): Dialog
      reads this
    {
      Dialog(info, role, invite, actions, ackSent)
    }

    constructor (d: Dialog)
      ensures View() == d
    {
      info, role, invite, actions, ackSent := d.info, d.role, d.invite, d.actions, d.ackSent;
    }

    method HandleResponse(r: SipResponse)
      modifies this
      ensures View() == AfterResponse(old(View()), r)
    {
      if role != Uac { return; }
      if info.state == Early {
        if 100 <= r.code < 200 {
          if r.code != 100 {
            var newInfo := InfoFromResponse(invite, r, Early);
            if newInfo.Some? {
              info := newInfo.value;
            }
            if r.code == 183 {
              actions := actions + [Emit(SessionProgress(r))];
            }
            actions := actions + [Emit(Provisional(r))];
          }
        } else if 200 <= r.code < 300 {
          var newInfo := InfoFromResponse(invite, r, Confirmed);
          if newInfo.Some? {
            info := newInfo.value;
          } else {
            info := info.(state := Confirmed);
          }
          actions := actions + [Emit(Established)];
        } else if r.code >= 300 {
          info := info.(state := Terminated);
          actions := actions + [Emit(TerminatedEvent(Rejected(r.code)))];
        }
      }
    }

    method UpdateRemoteSeq(number: u32) returns (valid: bool)
      modifies this`info
      ensures valid == Fresher(old(info.remoteSeq), number)
      ensures info == if valid then old(info).(remoteSeq := Some(number)) else old(info)
    {
      if info.remoteSeq.None? || number > info.remoteSeq.value {
        info := info.(remoteSeq := Some(number));
        return true;
      }
      return false;
    }

    method HandleRequest(q: SipRequest)
      modifies this
      ensures View() == AfterRequest(old(View()), q)
    {
      if q.cseq.None? { return; }
      match q.verb {
        case Bye =>
          info := info.(state := Terminated);
          actions := actions + [Emit(ByeReceived(q))];
          actions := actions + [Emit(TerminatedEvent(ByeReceivedReason))];
        case Invite =>
          if info.state == Confirmed {
            var valid := UpdateRemoteSeq(q.cseq.value);
            if valid {
              actions := actions + [Emit(ReInvite(q))];
            }
          }
        case Ack =>
          if role == Uas && info.state == Confirmed {
            ackSent := true;
          }
        case Cancel =>
          if info.state == Early && role == Uas {
            info := info.(state := Terminated);
            actions := actions + [Emit(TerminatedEvent(Cancelled))];
          }
        case _ =>
      }
    }

    method Respond(r: SipResponse)
      modifies this
      ensures View() == AfterSendResponse(old(View()), r)
    {
      if role != Uas { return; }
      if 200 <= r.code < 300 && info.state == Early {
        info := info.(state := Confirmed);
        actions := actions + [SendResponse(r)];
        actions := actions + [Emit(Established)];
      } else if r.code >= 300 && info.state == Early {
        info := info.(state := Terminated);
        actions := actions + [SendResponse(r)];
        actions := actions + [Emit(TerminatedEvent(Rejected(r.code)))];
      } else {
        actions := actions + [SendResponse(r)];
      }
    }

    method NextLocalSeq() returns (cseq: u32)
      modifies this`info
      ensures info == NextSeq(old(info)) && cseq == info.localSeq
    {
      info := info.(localSeq := Wrap32(info.localSeq as int + 1));
      return info.localSeq;
    }

    method SendBye() returns (bye: Option<SipRequest>)
      modifies this
      ensures Built(View(), bye) == AfterSendBye(old(View()))
    {
      if info.state != Confirmed { return None; }
      info := info.(state := Terminating);
      var cseq := NextLocalSeq();
      bye := InDialog(info, Bye, cseq, None);
      if bye.Some? {
        actions := actions + [SendRequest(bye.value)];
      }
    }

    method BuildPrack(r: SipResponse) returns (prack: Option<SipRequest>)
      modifies this`info
      ensures Built(View(), prack) == AfterPrack(old(View()), r)
    {
      if r.cseqMethod.None? { return None; }
      var cseq := NextLocalSeq();
      return InDialog(info, Prack, cseq, None);
    }

    method BuildUpdate() returns (update: Option<SipRequest>)
      modifies this`info
      ensures Built(View(), update) == AfterUpdate(old(View()))
    {
      var cseq := NextLocalSeq();
      return InDialog(info, Update, cseq, None);
    }

    method BuildByeWithReason(reason: string) returns (bye: Option<SipRequest>)
      modifies this
      ensures Built(View(), bye) == AfterByeWithReason(old(View()), reason)
    {
      if info.state != Confirmed { return None; }
      var cseq := Min(info.localSeq as int + 1, 0xffff_ffff);
      bye := InDialog(info, Bye, cseq, Some(reason));
      if bye.Some? {
        info := info.(localSeq := cseq);
        info := info.(state := Terminating);
        actions := actions + [SendRequest(bye.value)];
      }
    }

    method PollActions() returns (drained: seq<Action>)
      modifies this`actions
      ensures drained == old(actions) && actions == []
    {
      drained := actions;
      actions := [];
    }

    method AckSent()
      modifies this`ackSent
      ensures ackSent
    {
      ackSent := true;
    }
  }
}
