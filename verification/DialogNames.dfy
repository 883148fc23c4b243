/** Dialog IDs stay distinct when the inputs allow it: local tags are fresh, no outgoing call
    repeats the Call-ID and From tag of another, and every 2xx names its dialog. */
module DialogNames {
  import opened Words
  import opened SipDialog
  import opened DialogManager
  import opened DialogRouting

  // ---- Conditions on the inputs ----

  /** Call-ID and local tag of the dialog an operation may create. */
  function NameDrawn(op: Op): Option<CallKey> {
    match op
    case Call(invite) =>
      if invite.callId.Some? && invite.fromTag.Some? then Some((invite.callId.value, invite.fromTag.value)) else None
    case Incoming(q, tag) => if q.callId.Some? then Some((q.callId.value, tag)) else None
    case _ => None
  }

  predicate Complete(invite: SipRequest) {
    invite.fromUri.Some? && invite.toUri.Some? && invite.cseq.Some?
  }

  /** Calls are complete, local tags are not empty, and a 2xx has To tag and Contact. */
  predicate WellFormed(op: Op) {
    && (op.Call? ==> Complete(op.invite))
    && (NameDrawn(op).Some? ==> NameDrawn(op).value.1 != "")
    && (op.Reply? && 200 <= op.response.code < 300 ==> op.response.toTag.Some? && op.response.contact.Some?)
  }

  function Drawn(ops: seq<Op>): set<CallKey> {
    if ops == [] then {} else Drawn(ops[..|ops| - 1]) + AsSet(NameDrawn(ops[|ops| - 1]))
  }

  function AsSet(name: Option<CallKey>): set<CallKey> {
    if name.Some? then {name.value} else {}
  }

  /** Every operation is well formed and draws a name never drawn before. */
  predicate FreshNames(ops: seq<Op>) {
    ops == [] || (var front, op := ops[..|ops| - 1], ops[|ops| - 1];
                  FreshNames(front) && WellFormed(op) && AsSet(NameDrawn(op)) !! Drawn(front))
  }

  // ---- Names of dialogs ----

  predicate NameOk(d: Dialog) {
    IdOk(d) && NameOf(d).1 != "" && (d.role == Uac ==> Complete(d.invite))
  }

  ghost predicate AllNameOk(m: Manager) {
    forall h :: h in m.dialogs ==> NameOk(m.dialogs[h])
  }

  ghost predicate NamesOk(t: Tracked, drawn: set<CallKey>) {
    && (forall h :: h in t.manager.dialogs ==> NameOk(t.manager.dialogs[h]) && NameOf(t.manager.dialogs[h]) in drawn)
    && (forall g, h :: g in t.manager.dialogs && h in t.manager.dialogs && g != h ==>
          NameOf(t.manager.dialogs[g]) != NameOf(t.manager.dialogs[h]))
    && (forall h :: h in t.indexed && h in t.manager.dialogs ==>
          Settled(t.manager.dialogs[h]) && Identified(t.manager.dialogs[h]))
    && (forall id :: id in t.manager.ids ==> t.manager.ids[id] in t.indexed)
    && (forall h :: h in t.indexed ==> h < t.manager.nextHandle)
  }

  lemma NamesDistinct(t: Tracked, drawn: set<CallKey>)
    requires NamesOk(t, drawn)
    ensures Unshared(t) && SafeToClean(t)
  {
  }

  // ---- One operation ----

  /** A dialog keeps its name, and its ID once settled. */
  ghost predicate KeepsName(d: Dialog, after: Dialog) {
    && NameOk(after) && NameOf(after) == NameOf(d)
    && (Settled(d) ==> Settled(after)) && (Settled(d) && Identified(d) ==> Identified(after))
  }

  /** Every dialog held keeps its name or is new and has the name drawn. */
  ghost predicate KeepsNames(m: Manager, t: Manager, name: Option<CallKey>) {
    forall h :: h in t.dialogs ==>
      || (h in m.dialogs && KeepsName(m.dialogs[h], t.dialogs[h]))
      || (h == m.nextHandle && NameOk(t.dialogs[h]) && name == Some(NameOf(t.dialogs[h])))
  }

  lemma TransitionKeepsName(d: Dialog, after: Dialog)
    requires NameOk(d) && Keeps(d, after) && after.info.id == d.info.id
    ensures KeepsName(d, after)
  {
  }

  lemma IdsStay(d: Dialog, q: SipRequest, r: SipResponse)
    ensures AfterRequest(d, q).info.id == d.info.id && AfterSendResponse(d, r).info.id == d.info.id
    ensures AfterSendBye(d).dialog.info.id == d.info.id
  {
  }

  /** A response under the dialog's own Call-ID and From tag leaves it unnamed or names it; a
      2xx with To tag and Contact names it. */
  lemma ResponseKeepsName(d: Dialog, r: SipResponse)
    requires NameOk(d) && AnswersTo(d, r)
    requires 200 <= r.code < 300 ==> r.toTag.Some? && r.contact.Some?
    ensures KeepsName(d, AfterResponse(d, r))
    ensures d.info.state == Early && AfterResponse(d, r).info.state == Confirmed ==> Identified(AfterResponse(d, r))
  {
  }

  lemma PutKeepsNames(m: Manager, h: Handle, d: Dialog, t: Manager)
    requires h in m.dialogs && KeepsName(m.dialogs[h], d) && t.dialogs == Put(m, h, d).dialogs && AllNameOk(m)
    ensures KeepsNames(m, t, None)
  {
  }

  lemma SameKeepsNames(m: Manager, t: Manager)
    requires AllNameOk(m) && t.dialogs == m.dialogs && t.ids == m.ids
    ensures KeepsNames(m, t, None) && NewEntriesNamed(m, t)
  {
  }

  lemma AddedKeepsNames(m: Manager, d: Dialog, t: Manager)
    requires AllNameOk(m) && NameOk(d) && t.dialogs == Added(m, d).dialogs
    requires t.ids == m.ids || (t.ids == m.ids[d.info.id := m.nextHandle] && Identified(d))
    ensures KeepsNames(m, t, Some(NameOf(d))) && NewEntriesNamed(m, t)
  {
  }

  /** Index entries are old or lead to a dialog under its name. */
  ghost predicate NewEntriesNamed(m: Manager, t: Manager) {
    forall id :: id in t.ids ==>
      || (id in m.ids && m.ids[id] == t.ids[id])
      || (t.ids[id] in t.dialogs && Identified(t.dialogs[t.ids[id]]))
  }

  lemma ReplyKeepsNames(m: Manager, r: SipResponse)
    requires Inv(m) && AllNameOk(m) && WellFormed(Reply(r))
    ensures KeepsNames(m, AfterReply(m, r).manager, None) && NewEntriesNamed(m, AfterReply(m, r).manager)
  {
    var found := FindForResponse(m, r);
    if found.Some? && found.value in m.dialogs {
      var h := found.value;
      FoundForResponse(m, r);
      ResponseKeepsName(m.dialogs[h], r);
      PutKeepsNames(m, h, AfterResponse(m.dialogs[h], r), AfterReply(m, r).manager);
    }
  }

  lemma AnswerKeepsNames(m: Manager, h: Handle, r: SipResponse)
    requires Inv(m) && AllNameOk(m)
    ensures KeepsNames(m, SendResponseFor(m, h, r), None) && NewEntriesNamed(m, SendResponseFor(m, h, r))
  {
    if h in m.dialogs {
      var d, after := m.dialogs[h], AfterSendResponse(m.dialogs[h], r);
      TransitionsKeep(d, d.invite, r);
      IdsStay(d, d.invite, r);
      TransitionKeepsName(d, after);
      PutKeepsNames(m, h, after, SendResponseFor(m, h, r));
    }
  }

  lemma IncomingKeepsNames(m: Manager, contact: string, q: SipRequest, tag: string)
    requires Inv(m) && AllNameOk(m) && WellFormed(Incoming(q, tag))
    ensures KeepsNames(m, AfterIncoming(m, contact, q, tag).manager, NameDrawn(Incoming(q, tag)))
    ensures NewEntriesNamed(m, AfterIncoming(m, contact, q, tag).manager)
  {
    match FindDialog(m, q) {
      case Some(h) =>
        var d := m.dialogs[h];
        TransitionsKeep(d, q, NO_RESPONSE);
        IdsStay(d, q, NO_RESPONSE);
        TransitionKeepsName(d, AfterRequest(d, q));
        PutKeepsNames(m, h, AfterRequest(d, q), AfterIncoming(m, contact, q, tag).manager);
      case None =>
        var made := NewUas(q, tag, contact);
        if q.verb == Invite && made.Some? {
          AddedKeepsNames(m, made.value, AfterIncoming(m, contact, q, tag).manager);
        } else {
          SameKeepsNames(m, AfterIncoming(m, contact, q, tag).manager);
        }
    }
  }

  lemma CallKeepsNames(m: Manager, invite: SipRequest)
    requires Inv(m) && AllNameOk(m) && WellFormed(Call(invite))
    ensures KeepsNames(m, CreateDialog(m, invite).manager, NameDrawn(Call(invite)))
    ensures NewEntriesNamed(m, CreateDialog(m, invite).manager)
  {
    if invite.verb == Invite && NameDrawn(Call(invite)).Some? {
      AddedKeepsNames(m, NewUac(invite), CreateDialog(m, invite).manager);
    } else {
      SameKeepsNames(m, CreateDialog(m, invite).manager);
    }
  }

  lemma OthersKeepNames(m: Manager, contact: string, op: Op)
    requires Inv(m) && AllNameOk(m) && (op.HangUp? || op.Acked? || op.Poll? || op.Cleanup?)
    ensures KeepsNames(m, Apply(m, contact, op), None) && NewEntriesNamed(m, Apply(m, contact, op))
  {
    if op.HangUp? && op.handle in m.dialogs {
      var d := m.dialogs[op.handle];
      TransitionsKeep(d, d.invite, NO_RESPONSE);
      IdsStay(d, d.invite, NO_RESPONSE);
      TransitionKeepsName(d, AfterSendBye(d).dialog);
      PutKeepsNames(m, op.handle, AfterSendBye(d).dialog, Apply(m, contact, op));
    } else if op.Acked? && op.handle in m.dialogs {
      var d := m.dialogs[op.handle].(ackSent := true);
      TransitionKeepsName(m.dialogs[op.handle], d);
    }
  }

  lemma ApplyKeepsNames(m: Manager, contact: string, op: Op)
    requires Inv(m) && AllNameOk(m) && WellFormed(op)
    ensures KeepsNames(m, Apply(m, contact, op), NameDrawn(op)) && NewEntriesNamed(m, Apply(m, contact, op))
  {
    match op {
      case Call(invite) => CallKeepsNames(m, invite);
      case Incoming(q, tag) => IncomingKeepsNames(m, contact, q, tag);
      case Reply(r) => ReplyKeepsNames(m, r);
      case Answer(h, r) => AnswerKeepsNames(m, h, r);
      case _ => OthersKeepNames(m, contact, op);
    }
  }

  // ---- Runs ----

  lemma StepKeepsNames(t: Tracked, after: Tracked, drawn: set<CallKey>, name: Option<CallKey>)
    requires Inv(t.manager) && Inv(after.manager) && NamesOk(t, drawn) && AsSet(name) !! drawn
    requires KeepsNames(t.manager, after.manager, name) && NewEntriesNamed(t.manager, after.manager)
    requires Allocates(t.manager, after.manager) && after.indexed == t.indexed + after.manager.ids.Values
    ensures NamesOk(after, drawn + AsSet(name))
  {
    var n := after.manager;
    forall h | h in after.indexed && h !in t.indexed
      ensures h in n.dialogs && Settled(n.dialogs[h]) && Identified(n.dialogs[h])
    {
      EntryNamed(t, after, h);
    }
    forall id | id in n.ids ensures n.ids[id] in after.indexed {
      assert n.ids[id] in n.ids.Values;
    }
  }

  lemma EntryNamed(t: Tracked, after: Tracked, h: Handle)
    requires Inv(after.manager) && NewEntriesNamed(t.manager, after.manager) && h !in t.indexed
    requires forall id :: id in t.manager.ids ==> t.manager.ids[id] in t.indexed
    requires h in after.manager.ids.Values
    ensures h in after.manager.dialogs && Settled(after.manager.dialogs[h]) && Identified(after.manager.dialogs[h])
  {
    var id :| id in after.manager.ids && after.manager.ids[id] == h;
  }

  lemma {:induction false} RunKeepsNames(contact: string, ops: seq<Op>)
    requires FreshNames(ops)
    ensures Inv(TrackedRun(contact, ops).manager) && NamesOk(TrackedRun(contact, ops), Drawn(ops))
    decreases |ops|
  {
    if ops != [] {
      var front, op := ops[..|ops| - 1], ops[|ops| - 1];
      RunKeepsNames(contact, front);
      var t := TrackedRun(contact, front);
      ApplyKeepsInv(t.manager, contact, op);
      ApplyAllocates(t.manager, contact, op);
      ApplyKeepsNames(t.manager, contact, op);
      StepKeepsNames(t, TrackedRun(contact, ops), Drawn(front), NameDrawn(op));
    }
  }

  lemma {:induction false} FreshPrefix(ops: seq<Op>, n: nat)
    requires FreshNames(ops) && n <= |ops|
    ensures FreshNames(ops[..n])
    decreases |ops|
  {
    if n < |ops| {
      FreshPrefix(ops[..|ops| - 1], n);
      assert ops[..|ops| - 1][..n] == ops[..n];
    } else {
      assert ops[..n] == ops;
    }
  }

  /** With fresh names no ID is shared throughout the run. */
  lemma FreshNamesAreNeverShared(contact: string, ops: seq<Op>)
    requires FreshNames(ops)
    ensures NeverShared(contact, ops)
  {
    forall n | 0 <= n <= |ops|
      ensures Unshared(TrackedRun(contact, ops[..n])) && SafeToClean(TrackedRun(contact, ops[..n]))
    {
      FreshPrefix(ops, n);
      RunKeepsNames(contact, ops[..n]);
      NamesDistinct(TrackedRun(contact, ops[..n]), Drawn(ops[..n]));
    }
  }

  /** So on inputs with fresh names the peer's requests find every server-side dialog, and
      every client-side one that has been confirmed, until it is cleaned up. */
  lemma FreshNamesAreFound(contact: string, ops: seq<Op>, h: Handle, q: SipRequest)
    requires FreshNames(ops)
    requires var t := TrackedRun(contact, ops);
             && h in t.manager.dialogs && (h in t.indexed || InUse(t.manager.dialogs[h]))
             && q.callId == Some(t.manager.dialogs[h].info.id.callId)
             && q.toTag == Some(t.manager.dialogs[h].info.id.localTag)
             && q.fromTag == Some(t.manager.dialogs[h].info.id.remoteTag)
    ensures FindDialog(TrackedRun(contact, ops).manager, q) == Some(h)
  {
    FreshNamesAreNeverShared(contact, ops);
    InDialogRequestsAreFound(contact, ops, h, q);
  }
}
