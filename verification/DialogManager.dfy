/** The dialog manager: dialogs by handle, an index from dialog ID to handle, and the calls
    still waiting for an answer. Here as functions on a value, with the invariant every
    operation keeps. */
module DialogManager {
  import opened Words
  import opened SipDialog

  type Handle = nat

  datatype ManagerEvent = IncomingInvite(invite: SipRequest) | FromDialog(event: Event)

  datatype ManagerAction =
    | ForwardRequest(request: SipRequest)
    | ForwardResponse(response: SipResponse)
    | Report(handle: Handle, what: ManagerEvent)

  /** Call-ID and From tag of an outgoing call. */
  type CallKey = (string, string)

  datatype Manager = Manager(nextHandle: nat, dialogs: map<Handle, Dialog>, ids: map<DialogId, Handle>,
                             pending: map<CallKey, Handle>, actions: seq<ManagerAction>)

  const EMPTY: Manager := Manager(1, map[], map[], map[], [])

  datatype Result<+T> = Result(manager: Manager, value: Option<T>)

  // ---- Operations ----

  function LiftAction(h: Handle, a: Action): ManagerAction {
    match a
    case SendRequest(q) => ForwardRequest(q)
    case SendResponse(r) => ForwardResponse(r)
    case Emit(e) => Report(h, FromDialog(e))
  }

  function Lift(h: Handle, actions: seq<Action>): seq<ManagerAction> {
    seq(|actions|, i requires 0 <= i < |actions| => LiftAction(h, actions[i]))
  }

  /** Stores a dialog after an operation and takes over its actions. */
  function Put(m: Manager, h: Handle, d: Dialog): Manager {
    m.(dialogs := m.dialogs[h := d.(actions := [])], actions := m.actions + Lift(h, d.actions))
  }

  function CreateDialog(m: Manager, invite: SipRequest): Result<Handle> {
    if invite.verb != Invite then Result(m, None)
    else
      var h, bumped := m.nextHandle, m.(nextHandle := m.nextHandle + 1);
      if invite.callId.None? || invite.fromTag.None? then Result(bumped, None)
      else Result(bumped.(pending := m.pending[(invite.callId.value, invite.fromTag.value) := h],
                             dialogs := m.dialogs[h := NewUac(invite)]), Some(h))
  }

  /** An incoming request names the dialog with the tags the other way round. */
  function FindDialog(m: Manager, q: SipRequest): Option<Handle> {
    if q.callId.None? || q.fromTag.None? || q.toTag.None? then None
    else
      var id := DialogId(q.callId.value, q.toTag.value, q.fromTag.value);
      if id in m.ids then Some(m.ids[id]) else None
  }

  function CreateUas(m: Manager, contact: string, q: SipRequest, tag: string): Result<Handle> {
    var h, bumped := m.nextHandle, m.(nextHandle := m.nextHandle + 1);
    match NewUas(q, tag, contact)
    case None => Result(bumped, None)
    case Some(d) =>
      Result(bumped.(dialogs := m.dialogs[h := d], ids := m.ids[d.info.id := h],
                        actions := m.actions + [Report(h, IncomingInvite(q))]), Some(h))
  }

  /** `tag` is the fresh local tag drawn if the request starts a dialog. */
  function AfterIncoming(m: Manager, contact: string, q: SipRequest, tag: string): Result<Handle> {
    match FindDialog(m, q)
    case Some(h) => Result(if h in m.dialogs then Put(m, h, AfterRequest(m.dialogs[h], q)) else m, Some(h))
    case None => if q.verb == Invite then CreateUas(m, contact, q, tag) else Result(m, None)
  }

  function FindForResponse(m: Manager, r: SipResponse): Option<Handle> {
    if r.callId.None? || r.fromTag.None? then None
    else if (r.callId.value, r.fromTag.value) in m.pending then Some(m.pending[(r.callId.value, r.fromTag.value)])
    else if r.toTag.Some? && DialogId(r.callId.value, r.fromTag.value, r.toTag.value) in m.ids
    then Some(m.ids[DialogId(r.callId.value, r.fromTag.value, r.toTag.value)])
    else None
  }

  function AfterReply(m: Manager, r: SipResponse): Result<Handle> {
    match FindForResponse(m, r)
    case None => Result(m, None)
    case Some(h) =>
      if h !in m.dialogs then Result(m, Some(h))
      else
        var d, after := m.dialogs[h], AfterResponse(m.dialogs[h], r);
        var indexed := if d.info.state == Early && after.info.state == Confirmed
                       then m.(ids := m.ids[after.info.id := h],
                               pending := m.pending - {(r.callId.value, r.fromTag.value)})
                       else m;
        Result(Put(indexed, h, after), Some(h))
  }

  function SendResponseFor(m: Manager, h: Handle, r: SipResponse): Manager {
    if h !in m.dialogs then m
    else
      var d, after := m.dialogs[h], AfterSendResponse(m.dialogs[h], r);
      var indexed := if d.info.state == Early && after.info.state == Confirmed
                     then m.(ids := m.ids[after.info.id := h]) else m;
      Put(indexed, h, after)
  }

  function SendByeFor(m: Manager, h: Handle): Result<SipRequest> {
    if h !in m.dialogs then Result(m, None)
    else
      var b := AfterSendBye(m.dialogs[h]);
      Result(Put(m, h, b.dialog), b.request)
  }

  function MarkAck(m: Manager, h: Handle): Manager {
    if h in m.dialogs then m.(dialogs := m.dialogs[h := m.dialogs[h].(ackSent := true)]) else m
  }

  predicate Ended(m: Manager, h: Handle) {
    h in m.dialogs && m.dialogs[h].info.state == Terminated
  }

  /** Drops the ended dialogs and, for each, whatever the index holds under its ID. */
  function CleanUp(m: Manager): Manager {
    var ended := set h | h in m.dialogs && Ended(m, h);
    var names := set h | h in m.dialogs && Ended(m, h) :: m.dialogs[h].info.id;
    m.(dialogs := m.dialogs - ended, ids := m.ids - names)
  }

  datatype Op =
    | Call(invite: SipRequest)
    | Incoming(request: SipRequest, tag: string)
    | Reply(response: SipResponse)
    | Answer(handle: Handle, answer: SipResponse)
    | HangUp(handle: Handle)
    | Acked(handle: Handle)
    | Poll
    | Cleanup

  function Apply(m: Manager, contact: string, op: Op): Manager {
    match op
    case Call(invite) => CreateDialog(m, invite).manager
    case Incoming(q, tag) => AfterIncoming(m, contact, q, tag).manager
    case Reply(r) => AfterReply(m, r).manager
    case Answer(h, r) => SendResponseFor(m, h, r)
    case HangUp(h) => SendByeFor(m, h).manager
    case Acked(h) => MarkAck(m, h)
    case Poll => m.(actions := [])
    case Cleanup => CleanUp(m)
  }

  // ---- Invariant ----

  /** A dialog whose ID is settled: a server-side one, or one past Early. */
  predicate Settled(d: Dialog) {
    d.role == Uas || d.info.state != Early
  }

  /** Each index entry points to a held, settled dialog with that very ID. */
  ghost predicate IndexOk(m: Manager) {
    forall id :: id in m.ids ==>
      m.ids[id] in m.dialogs && m.dialogs[m.ids[id]].info.id == id && Settled(m.dialogs[m.ids[id]])
  }

  const UNNAMED: DialogId := DialogId("", "", "")

  /** Call-ID and local tag: what tells the dialogs of one manager apart. */
  function NameOf(d: Dialog): CallKey {
    if d.role == Uac && d.invite.callId.Some? && d.invite.fromTag.Some?
    then (d.invite.callId.value, d.invite.fromTag.value)
    else (d.info.id.callId, d.info.id.localTag)
  }

  /** The dialog's ID carries its name. */
  predicate Identified(d: Dialog) {
    (d.info.id.callId, d.info.id.localTag) == NameOf(d)
  }

  /** A client-side dialog goes by the name in its INVITE, or has no ID yet. */
  predicate IdOk(d: Dialog) {
    d.role == Uac ==> d.invite.callId.Some? && d.invite.fromTag.Some? && (Identified(d) || d.info.id == UNNAMED)
  }

  ghost predicate PendingOk(m: Manager) {
    forall key :: key in m.pending && m.pending[key] in m.dialogs ==>
      var d := m.dialogs[m.pending[key]];
      d.role == Uac && d.invite.callId == Some(key.0) && d.invite.fromTag == Some(key.1)
  }

  ghost predicate HandlesOk(m: Manager) {
    && (forall h :: h in m.dialogs ==> h < m.nextHandle && IdOk(m.dialogs[h]) && m.dialogs[h].actions == [])
    && (forall key :: key in m.pending ==> m.pending[key] < m.nextHandle)
  }

  ghost predicate Inv(m: Manager) {
    IndexOk(m) && PendingOk(m) && HandlesOk(m)
  }

  /** A transition that keeps what the invariant needs of one dialog. */
  ghost predicate Keeps(d: Dialog, after: Dialog) {
    && after.role == d.role && after.invite == d.invite
    && (Settled(d) ==> Settled(after) && after.info.id == d.info.id)
    && (IdOk(d) ==> IdOk(after) && NameOf(after) == NameOf(d))
  }

  /** The response is to the dialog's own INVITE, or the dialog is past caring. */
  predicate AnswersTo(d: Dialog, r: SipResponse) {
    Settled(d) || (r.callId == d.invite.callId && r.fromTag == d.invite.fromTag)
  }

  lemma TransitionsKeep(d: Dialog, q: SipRequest, r: SipResponse)
    ensures Keeps(d, AfterRequest(d, q))
    ensures Keeps(d, AfterSendResponse(d, r))
    ensures Keeps(d, AfterSendBye(d).dialog)
    ensures AnswersTo(d, r) ==> Keeps(d, AfterResponse(d, r))
  {
  }

  lemma PutKeepsInv(m: Manager, h: Handle, d: Dialog)
    requires Inv(m) && h in m.dialogs && Keeps(m.dialogs[h], d)
    ensures Inv(Put(m, h, d))
  {
  }

  lemma IndexKeepsInv(m: Manager, h: Handle)
    requires Inv(m) && h in m.dialogs && Settled(m.dialogs[h])
    ensures Inv(m.(ids := m.ids[m.dialogs[h].info.id := h]))
  {
  }

  lemma FoundForResponse(m: Manager, r: SipResponse)
    requires Inv(m) && FindForResponse(m, r).Some? && FindForResponse(m, r).value in m.dialogs
    ensures AnswersTo(m.dialogs[FindForResponse(m, r).value], r)
  {
  }

  lemma ResponseKeepsInv(m: Manager, r: SipResponse)
    requires Inv(m)
    ensures Inv(AfterReply(m, r).manager)
  {
    match FindForResponse(m, r) {
      case None =>
      case Some(h) =>
        if h in m.dialogs {
          var d, after := m.dialogs[h], AfterResponse(m.dialogs[h], r);
          FoundForResponse(m, r);
          TransitionsKeep(d, d.invite, r);
          PutKeepsInv(m, h, after);
          var p := Put(m, h, after);
          if d.info.state == Early && after.info.state == Confirmed {
            IndexKeepsInv(p, h);
            var q := p.(ids := p.ids[after.info.id := h]);
            PendingShrinks(q, (r.callId.value, r.fromTag.value));
            assert AfterReply(m, r).manager == q.(pending := q.pending - {(r.callId.value, r.fromTag.value)});
          }
        }
    }
  }

  lemma PendingShrinks(m: Manager, key: CallKey)
    requires Inv(m)
    ensures Inv(m.(pending := m.pending - {key}))
  {
  }

  lemma AnswerKeepsInv(m: Manager, h: Handle, r: SipResponse)
    requires Inv(m)
    ensures Inv(SendResponseFor(m, h, r))
  {
    if h in m.dialogs {
      var d, after := m.dialogs[h], AfterSendResponse(m.dialogs[h], r);
      TransitionsKeep(d, d.invite, r);
      PutKeepsInv(m, h, after);
      if d.info.state == Early && after.info.state == Confirmed {
        IndexKeepsInv(Put(m, h, after), h);
        assert SendResponseFor(m, h, r) == Put(m, h, after).(ids := m.ids[after.info.id := h]);
      }
    }
  }

  lemma CleanUpKeepsInv(m: Manager)
    requires Inv(m)
    ensures Inv(CleanUp(m))
  {
  }

  /** Adding a dialog under the next handle. */
  function Added(m: Manager, d: Dialog): Manager {
    m.(nextHandle := m.nextHandle + 1, dialogs := m.dialogs[m.nextHandle := d])
  }

  lemma AddedKeepsInv(m: Manager, d: Dialog)
    requires Inv(m) && IdOk(d) && d.actions == []
    ensures Inv(Added(m, d))
  {
  }

  lemma CallKeepsInv(m: Manager, invite: SipRequest)
    requires Inv(m)
    ensures Inv(CreateDialog(m, invite).manager)
  {
    if invite.verb == Invite && invite.callId.Some? && invite.fromTag.Some? {
      AddedKeepsInv(m, NewUac(invite));
      var t := Added(m, NewUac(invite));
      PendingGrows(t, (invite.callId.value, invite.fromTag.value), m.nextHandle);
    }
  }

  lemma PendingGrows(m: Manager, key: CallKey, h: Handle)
    requires Inv(m) && h in m.dialogs && m.dialogs[h].role == Uac
    requires m.dialogs[h].invite.callId == Some(key.0) && m.dialogs[h].invite.fromTag == Some(key.1)
    ensures Inv(m.(pending := m.pending[key := h]))
  {
  }

  lemma IncomingKeepsInv(m: Manager, contact: string, q: SipRequest, tag: string)
    requires Inv(m)
    ensures Inv(AfterIncoming(m, contact, q, tag).manager)
  {
    match FindDialog(m, q) {
      case Some(h) =>
        TransitionsKeep(m.dialogs[h], q, NO_RESPONSE);
        PutKeepsInv(m, h, AfterRequest(m.dialogs[h], q));
      case None =>
        if q.verb == Invite && NewUas(q, tag, contact).Some? {
          var d := NewUas(q, tag, contact).value;
          AddedKeepsInv(m, d);
          IndexKeepsInv(Added(m, d), m.nextHandle);
          ActionsDoNotMatter(Added(m, d).(ids := m.ids[d.info.id := m.nextHandle]),
                             CreateUas(m, contact, q, tag).manager);
        }
    }
  }

  lemma ActionsDoNotMatter(m: Manager, t: Manager)
    requires Inv(m) && t == m.(actions := t.actions)
    ensures Inv(t)
  {
  }

  lemma ApplyKeepsInv(m: Manager, contact: string, op: Op)
    requires Inv(m)
    ensures Inv(Apply(m, contact, op))
  {
    match op {
      case Call(invite) => CallKeepsInv(m, invite);
      case Incoming(q, tag) => IncomingKeepsInv(m, contact, q, tag);
      case Reply(r) => ResponseKeepsInv(m, r);
      case Answer(h, r) => AnswerKeepsInv(m, h, r);
      case HangUp(h) =>
        if h in m.dialogs {
          TransitionsKeep(m.dialogs[h], m.dialogs[h].invite, NO_RESPONSE);
          PutKeepsInv(m, h, AfterSendBye(m.dialogs[h]).dialog);
        }
      case Acked(h) =>
      case Poll =>
      case Cleanup => CleanUpKeepsInv(m);
    }
  }

  // ---- Runs ----

  function RunAll(m: Manager, contact: string, ops: seq<Op>): Manager {
    if ops == [] then m else Apply(RunAll(m, contact, ops[..|ops| - 1]), contact, ops[|ops| - 1])
  }

  /** In every reachable state the index points to held dialogs with that ID. */
  lemma {:induction false} RunKeepsInv(m: Manager, contact: string, ops: seq<Op>)
    requires Inv(m)
    ensures Inv(RunAll(m, contact, ops))
    decreases |ops|
  {
    if ops != [] {
      RunKeepsInv(m, contact, ops[..|ops| - 1]);
      ApplyKeepsInv(RunAll(m, contact, ops[..|ops| - 1]), contact, ops[|ops| - 1]);
    }
  }

  /** At most the next handle comes into use. */
  ghost predicate Allocates(m: Manager, t: Manager) {
    && t.nextHandle >= m.nextHandle
    && forall h :: h in t.dialogs && h !in m.dialogs ==> h == m.nextHandle && h < t.nextHandle
  }

  lemma ApplyAllocates(m: Manager, contact: string, op: Op)
    ensures Allocates(m, Apply(m, contact, op))
  {
  }

  /** A handle that stands for a dialog was never given out before: between any two points of
      a run the dialogs that appear have handles beyond all earlier ones. */
  lemma {:induction false} HandlesAreNeverReused(m: Manager, contact: string, ops: seq<Op>, h: Handle)
    requires Inv(m) && h in RunAll(m, contact, ops).dialogs && h !in m.dialogs
    ensures h >= m.nextHandle
    ensures RunAll(m, contact, ops).nextHandle >= m.nextHandle
    decreases |ops|
  {
    if ops != [] {
      var front := RunAll(m, contact, ops[..|ops| - 1]);
      RunKeepsInv(m, contact, ops[..|ops| - 1]);
      ApplyAllocates(front, contact, ops[|ops| - 1]);
      NextHandleGrows(m, contact, ops[..|ops| - 1]);
      if h in front.dialogs {
        HandlesAreNeverReused(m, contact, ops[..|ops| - 1], h);
      }
    }
  }

  /** A handle is drawn for every INVITE placed, and for every incoming one that is not routed to
      a dialog, even if no dialog comes of it; and for nothing else. */
  lemma HandlesAreDrawn(m: Manager, contact: string, op: Op)
    ensures Apply(m, contact, op).nextHandle == m.nextHandle +
              if || (op.Call? && op.invite.verb == Invite)
                 || (op.Incoming? && op.request.verb == Invite && FindDialog(m, op.request).None?)
              then 1 else 0
  {
  }

  lemma {:induction false} NextHandleGrows(m: Manager, contact: string, ops: seq<Op>)
    requires Inv(m)
    ensures RunAll(m, contact, ops).nextHandle >= m.nextHandle
    decreases |ops|
  {
    if ops != [] {
      RunKeepsInv(m, contact, ops[..|ops| - 1]);
      NextHandleGrows(m, contact, ops[..|ops| - 1]);
      ApplyAllocates(RunAll(m, contact, ops[..|ops| - 1]), contact, ops[|ops| - 1]);
    }
  }
}
