/** Which dialogs the manager finds for requests inside a dialog, over whole runs. */
module DialogRouting {
  import opened Words
  import opened SipDialog
  import opened DialogManager

  /** A manager with the handles that have ever been in its index: every server-side dialog
      from its creation, every client-side dialog from its confirmation. */
  datatype Tracked = Tracked(manager: Manager, indexed: set<Handle>)

  function TrackedStep(t: Tracked, contact: string, op: Op): Tracked {
    var m := Apply(t.manager, contact, op);
    Tracked(m, t.indexed + m.ids.Values)
  }

  function TrackedRun(contact: string, ops: seq<Op>): Tracked {
    if ops == [] then Tracked(EMPTY, {})
    else TrackedStep(TrackedRun(contact, ops[..|ops| - 1]), contact, ops[|ops| - 1])
  }

  /** Two different dialogs held under one ID. */
  predicate Share(m: Manager, g: Handle, h: Handle) {
    g != h && g in m.dialogs && h in m.dialogs && m.dialogs[g].info.id == m.dialogs[h].info.id
  }

  /** No two indexed dialogs share an ID. */
  ghost predicate Unshared(t: Tracked) {
    forall g, h :: g in t.indexed && h in t.indexed ==> !Share(t.manager, g, h)
  }

  /** A cleanup drops no dialog that shares its ID with an indexed one it keeps. */
  ghost predicate SafeToClean(t: Tracked) {
    forall g, h :: g in t.indexed && !Ended(t.manager, g) && Ended(t.manager, h) ==> !Share(t.manager, g, h)
  }

  ghost predicate NeverShared(contact: string, ops: seq<Op>) {
    && (forall n :: 0 <= n <= |ops| ==> Unshared(TrackedRun(contact, ops[..n])))
    && (forall n :: 0 <= n < |ops| && ops[n].Cleanup? ==> SafeToClean(TrackedRun(contact, ops[..n])))
  }

  /** The index leads to dialog h by its own ID. */
  ghost predicate FoundById(m: Manager, h: Handle) {
    h in m.dialogs && m.dialogs[h].info.id in m.ids && m.ids[m.dialogs[h].info.id] == h
  }

  ghost predicate AllFound(t: Tracked) {
    forall h :: h in t.indexed && h in t.manager.dialogs ==> FoundById(t.manager, h)
  }

  /** Dialogs whose ID is in use by a peer have been indexed. */
  ghost predicate AllIndexed(t: Tracked) {
    forall h :: h in t.manager.dialogs && InUse(t.manager.dialogs[h]) ==> h in t.indexed
  }

  predicate InUse(d: Dialog) {
    d.role == Uas || d.info.state == Confirmed || d.info.state == Terminating
  }

  // ---- One operation ----

  /** Outside cleanup the index changes by at most one entry, under the ID of a dialog held,
      and no settled dialog is lost or renamed. */
  ghost predicate Extends(m: Manager, t: Manager, entry: Option<Handle>) {
    && (forall g :: g in m.dialogs ==>
          g in t.dialogs && (Settled(m.dialogs[g]) ==> t.dialogs[g].info.id == m.dialogs[g].info.id))
    && (entry.None? ==> t.ids == m.ids)
    && (entry.Some? ==> entry.value in t.dialogs && t.ids == m.ids[t.dialogs[entry.value].info.id := entry.value])
    && (forall g :: g in t.dialogs && InUse(t.dialogs[g]) ==>
          entry == Some(g) || (g in m.dialogs && InUse(m.dialogs[g])))
  }

  /** A transition that keeps a settled ID and puts no new dialog into use. */
  ghost predicate Quiet(d: Dialog, after: Dialog) {
    (Settled(d) ==> after.info.id == d.info.id) && (InUse(after) ==> InUse(d))
  }

  lemma QuietTransitions(d: Dialog, q: SipRequest, r: SipResponse)
    ensures Quiet(d, AfterRequest(d, q)) && Quiet(d, AfterSendBye(d).dialog) && Quiet(d, AfterSendResponse(d, r))
    ensures !(d.info.state == Early && AfterResponse(d, r).info.state == Confirmed) ==> Quiet(d, AfterResponse(d, r))
  {
  }

  lemma PutExtends(m: Manager, h: Handle, d: Dialog)
    requires h in m.dialogs && Quiet(m.dialogs[h], d)
    ensures Extends(m, Put(m, h, d), None)
  {
  }

  /** Storing a dialog and indexing it. */
  lemma PutIndexedExtends(m: Manager, h: Handle, d: Dialog, t: Manager)
    requires h in m.dialogs && (Settled(m.dialogs[h]) ==> d.info.id == m.dialogs[h].info.id)
    requires t.dialogs == Put(m, h, d).dialogs && t.ids == m.ids[d.info.id := h]
    ensures Extends(m, t, Some(h))
  {
  }

  lemma AddedExtends(m: Manager, d: Dialog, t: Manager)
    requires Inv(m) && t.dialogs == Added(m, d).dialogs
    ensures t.ids == m.ids && !InUse(d) ==> Extends(m, t, None)
    ensures t.ids == m.ids[d.info.id := m.nextHandle] ==> Extends(m, t, Some(m.nextHandle))
  {
  }

  lemma SameExtends(m: Manager, t: Manager)
    requires t.dialogs == m.dialogs && t.ids == m.ids
    ensures Extends(m, t, None)
  {
  }

  lemma CallExtends(m: Manager, invite: SipRequest)
    requires Inv(m)
    ensures Extends(m, CreateDialog(m, invite).manager, None)
  {
    var t := CreateDialog(m, invite).manager;
    if t.dialogs == m.dialogs {
      SameExtends(m, t);
    } else {
      AddedExtends(m, NewUac(invite), t);
    }
  }

  lemma IncomingExtends(m: Manager, contact: string, q: SipRequest, tag: string) returns (entry: Option<Handle>)
    requires Inv(m)
    ensures Extends(m, AfterIncoming(m, contact, q, tag).manager, entry)
  {
    entry := None;
    var t := AfterIncoming(m, contact, q, tag).manager;
    match FindDialog(m, q) {
      case Some(h) =>
        QuietTransitions(m.dialogs[h], q, NO_RESPONSE);
        PutExtends(m, h, AfterRequest(m.dialogs[h], q));
      case None =>
        if q.verb == Invite && NewUas(q, tag, contact).Some? {
          AddedExtends(m, NewUas(q, tag, contact).value, t);
          entry := Some(m.nextHandle);
        } else {
          SameExtends(m, t);
        }
    }
  }

  lemma ReplyExtends(m: Manager, r: SipResponse) returns (entry: Option<Handle>)
    requires Inv(m)
    ensures Extends(m, AfterReply(m, r).manager, entry)
  {
    entry := None;
    var t, found := AfterReply(m, r).manager, FindForResponse(m, r);
    if found.Some? && found.value in m.dialogs {
      var h := found.value;
      var d, after := m.dialogs[h], AfterResponse(m.dialogs[h], r);
      QuietTransitions(d, d.invite, r);
      if d.info.state == Early && after.info.state == Confirmed {
        entry := Some(h);
        PutIndexedExtends(m, h, after, t);
      } else {
        PutExtends(m, h, after);
      }
    } else {
      SameExtends(m, t);
    }
  }

  lemma AnswerExtends(m: Manager, h: Handle, r: SipResponse) returns (entry: Option<Handle>)
    requires Inv(m)
    ensures Extends(m, SendResponseFor(m, h, r), entry)
  {
    entry := None;
    if h in m.dialogs {
      var d, after := m.dialogs[h], AfterSendResponse(m.dialogs[h], r);
      QuietTransitions(d, d.invite, r);
      if d.info.state == Early && after.info.state == Confirmed {
        entry := Some(h);
        PutIndexedExtends(m, h, after, SendResponseFor(m, h, r));
      } else {
        PutExtends(m, h, after);
      }
    } else {
      SameExtends(m, m);
    }
  }

  lemma OthersExtend(m: Manager, contact: string, op: Op)
    requires Inv(m) && (op.HangUp? || op.Acked? || op.Poll?)
    ensures Extends(m, Apply(m, contact, op), None)
  {
    var t := Apply(m, contact, op);
    if op.Poll? || op.handle !in m.dialogs {
      SameExtends(m, t);
    } else {
      var d := m.dialogs[op.handle];
      if op.HangUp? {
        QuietTransitions(d, d.invite, NO_RESPONSE);
        PutExtends(m, op.handle, AfterSendBye(d).dialog);
      } else {
        PutExtends(m, op.handle, d.(ackSent := true));
        assert t.dialogs == Put(m, op.handle, d.(ackSent := true)).dialogs;
      }
    }
  }

  lemma ApplyExtends(m: Manager, contact: string, op: Op) returns (entry: Option<Handle>)
    requires Inv(m) && !op.Cleanup?
    ensures Extends(m, Apply(m, contact, op), entry)
  {
    match op {
      case Call(invite) => CallExtends(m, invite); entry := None;
      case Incoming(q, tag) => entry := IncomingExtends(m, contact, q, tag);
      case Reply(r) => entry := ReplyExtends(m, r);
      case Answer(h, r) => entry := AnswerExtends(m, h, r);
      case _ => OthersExtend(m, contact, op); entry := None;
    }
  }

  lemma ExtendsKeepsFound(t: Tracked, after: Tracked, entry: Option<Handle>)
    requires Inv(t.manager) && Inv(after.manager) && AllFound(t) && AllIndexed(t) && Unshared(after)
    requires Extends(t.manager, after.manager, entry) && after.indexed == t.indexed + after.manager.ids.Values
    requires forall h :: h in t.indexed ==> h < t.manager.nextHandle
    requires forall h :: h in after.manager.dialogs && h < t.manager.nextHandle ==> h in t.manager.dialogs
    ensures AllFound(after) && AllIndexed(after)
  {
    var m, n := t.manager, after.manager;
    forall h | h in after.indexed && h in n.dialogs ensures FoundById(n, h) {
      if h in t.indexed {
        assert h in m.dialogs && FoundById(m, h);
        if entry.Some? && entry.value != h {
          assert n.dialogs[entry.value].info.id in n.ids.Keys && entry.value in n.ids.Values;
          assert !Share(n, h, entry.value);
        }
      } else {
        assert h in n.ids.Values;
        var id :| id in n.ids && n.ids[id] == h;
      }
    }
    forall h | h in n.dialogs && InUse(n.dialogs[h]) ensures h in after.indexed {
      if entry == Some(h) {
        assert n.dialogs[h].info.id in n.ids.Keys && n.ids[n.dialogs[h].info.id] == h;
        assert h in n.ids.Values;
      }
    }
  }

  lemma CleanUpKeepsFound(t: Tracked, after: Tracked)
    requires Inv(t.manager) && AllFound(t) && AllIndexed(t) && SafeToClean(t)
    requires after.manager == CleanUp(t.manager) && after.indexed == t.indexed + after.manager.ids.Values
    ensures AllFound(after) && AllIndexed(after)
  {
  }

  // ---- Runs ----

  lemma SharedPrefix(contact: string, ops: seq<Op>, n: nat)
    requires NeverShared(contact, ops) && n <= |ops|
    ensures NeverShared(contact, ops[..n])
  {
    forall k | 0 <= k <= n ensures Unshared(TrackedRun(contact, ops[..n][..k])) {
      assert ops[..n][..k] == ops[..k];
    }
    forall k | 0 <= k < n && ops[..n][k].Cleanup? ensures SafeToClean(TrackedRun(contact, ops[..n][..k])) {
      assert ops[..n][..k] == ops[..k];
    }
  }

  lemma {:induction false} RunFinds(contact: string, ops: seq<Op>)
    requires NeverShared(contact, ops)
    ensures var t := TrackedRun(contact, ops);
            && Inv(t.manager) && AllFound(t) && AllIndexed(t)
            && forall h :: h in t.indexed ==> h < t.manager.nextHandle
    decreases |ops|
  {
    if ops != [] {
      var front, op := ops[..|ops| - 1], ops[|ops| - 1];
      SharedPrefix(contact, ops, |ops| - 1);
      RunFinds(contact, front);
      assert ops[..|ops|] == ops;
      TrackedStepFinds(TrackedRun(contact, front), contact, op, TrackedRun(contact, ops));
    }
  }

  lemma TrackedStepFinds(t: Tracked, contact: string, op: Op, after: Tracked)
    requires Inv(t.manager) && AllFound(t) && AllIndexed(t) && Unshared(after) && (op.Cleanup? ==> SafeToClean(t))
    requires forall h :: h in t.indexed ==> h < t.manager.nextHandle
    requires after == TrackedStep(t, contact, op)
    ensures Inv(after.manager) && AllFound(after) && AllIndexed(after)
    ensures forall h :: h in after.indexed ==> h < after.manager.nextHandle
  {
    ApplyKeepsInv(t.manager, contact, op);
    ApplyAllocates(t.manager, contact, op);
    if op.Cleanup? {
      CleanUpKeepsFound(t, after);
    } else {
      var entry := ApplyExtends(t.manager, contact, op);
      ExtendsKeepsFound(t, after, entry);
    }
    forall h | h in after.indexed ensures h < after.manager.nextHandle {
      if h !in t.indexed {
        var id :| id in after.manager.ids && after.manager.ids[id] == h;
      }
    }
  }

  ghost predicate AlwaysFound(contact: string, ops: seq<Op>) {
    forall n :: 0 <= n <= |ops| ==> AllFound(TrackedRun(contact, ops[..n]))
  }

  lemma FoundIsUnshared(t: Tracked)
    requires AllFound(t)
    ensures Unshared(t)
  {
  }

  lemma FoundAfterCleanUp(t: Tracked, after: Tracked)
    requires after.manager == CleanUp(t.manager) && t.indexed <= after.indexed && AllFound(after)
    ensures SafeToClean(t)
  {
  }

  /** Throughout a run every indexed dialog is found, until it is cleaned up, if and only if no
      two of them ever share an ID and no cleanup drops a dialog that shares its ID with one it
      keeps. */
  lemma AlwaysFoundIff(contact: string, ops: seq<Op>)
    ensures AlwaysFound(contact, ops) <==> NeverShared(contact, ops)
  {
    if NeverShared(contact, ops) {
      forall n | 0 <= n <= |ops| ensures AllFound(TrackedRun(contact, ops[..n])) {
        SharedPrefix(contact, ops, n);
        RunFinds(contact, ops[..n]);
      }
    }
    if AlwaysFound(contact, ops) {
      forall n | 0 <= n <= |ops| ensures Unshared(TrackedRun(contact, ops[..n])) {
        FoundIsUnshared(TrackedRun(contact, ops[..n]));
      }
      forall n | 0 <= n < |ops| && ops[n].Cleanup? ensures SafeToClean(TrackedRun(contact, ops[..n])) {
        assert ops[..n + 1][..n] == ops[..n];
        FoundAfterCleanUp(TrackedRun(contact, ops[..n]), TrackedRun(contact, ops[..n + 1]));
      }
    }
  }

  /** While no ID is shared, every server-side dialog not yet cleaned up, and every
      client-side dialog that has been confirmed and not cleaned up, is found by the requests
      of its peer. */
  lemma InDialogRequestsAreFound(contact: string, ops: seq<Op>, h: Handle, q: SipRequest)
    requires NeverShared(contact, ops)
    requires var t := TrackedRun(contact, ops);
             && h in t.manager.dialogs && (h in t.indexed || InUse(t.manager.dialogs[h]))
             && q.callId == Some(t.manager.dialogs[h].info.id.callId)
             && q.toTag == Some(t.manager.dialogs[h].info.id.localTag)
             && q.fromTag == Some(t.manager.dialogs[h].info.id.remoteTag)
    ensures FindDialog(TrackedRun(contact, ops).manager, q) == Some(h)
  {
    RunFinds(contact, ops);
    assert FoundById(TrackedRun(contact, ops).manager, h);
  }

  /** IDs can be shared. Two outgoing calls whose 2xx lacks the To tag or the
      Contact are both confirmed without a name, and the first is no longer found. */
  lemma UnnamedCallsCollide(contact: string, x: SipRequest, y: SipRequest, p: SipResponse, q: SipResponse)
    requires AcceptsUnnamed(x, p) && AcceptsUnnamed(y, q) && (x.callId, x.fromTag) != (y.callId, y.fromTag)
    ensures var t := RunAll(EMPTY, contact, [Call(x), Call(y), Reply(p), Reply(q)]);
            && t.dialogs.Keys == {1, 2} && t.dialogs[1].info.state == t.dialogs[2].info.state == Confirmed
            && t.ids == map[DialogId("", "", "") := 2] && FoundById(t, 2) && !FoundById(t, 1)
  {
    var two := TwoCalls(x, y);
    TwoCallsWait(contact, x, y);
    UnnamedConfirms(two, 1, p);
    var three := AfterReply(two, p).manager;
    UnnamedConfirms(three, 2, q);
    Unrolled(EMPTY, contact, Call(x), Call(y), Reply(p), Reply(q));
  }

  function TwoCalls(x: SipRequest, y: SipRequest): Manager {
    CreateDialog(CreateDialog(EMPTY, x).manager, y).manager
  }

  lemma TwoCallsWait(contact: string, x: SipRequest, y: SipRequest)
    requires x.verb == Invite && x.callId.Some? && x.fromTag.Some?
    requires y.verb == Invite && y.callId.Some? && y.fromTag.Some?
    ensures var m := TwoCalls(x, y);
            && m.dialogs == map[1 := NewUac(x), 2 := NewUac(y)] && m.ids == map[]
            && m.pending == map[(x.callId.value, x.fromTag.value) := 1, (y.callId.value, y.fromTag.value) := 2]
  {
  }

  lemma Unrolled(m: Manager, contact: string, a: Op, b: Op, c: Op, e: Op)
    ensures RunAll(m, contact, [a, b, c, e]) ==
            Apply(Apply(Apply(Apply(m, contact, a), contact, b), contact, c), contact, e)
  {
    assert [a, b, c, e][..3] == [a, b, c] && [a, b, c][..2] == [a, b] && [a, b][..1] == [a] && [a][..0] == [];
    assert RunAll(m, contact, [a]) == Apply(m, contact, a);
    assert RunAll(m, contact, [a, b]) == Apply(RunAll(m, contact, [a]), contact, b);
    assert RunAll(m, contact, [a, b, c]) == Apply(RunAll(m, contact, [a, b]), contact, c);
  }

  /** A call and a 2xx to it that does not name the dialog. */
  predicate AcceptsUnnamed(invite: SipRequest, r: SipResponse) {
    && invite.verb == Invite && invite.callId.Some? && invite.fromTag.Some?
    && 200 <= r.code < 300 && r.callId == invite.callId && r.fromTag == invite.fromTag
    && (r.toTag.None? || r.contact.None?)
  }

  lemma UnnamedConfirms(m: Manager, h: Handle, r: SipResponse)
    requires FindForResponse(m, r) == Some(h) && h in m.dialogs
    requires m.dialogs[h].role == Uac && m.dialogs[h].info.state == Early
    requires AcceptsUnnamed(m.dialogs[h].invite, r)
    ensures var t := AfterReply(m, r).manager;
            var d := m.dialogs[h];
            && t.dialogs.Keys == m.dialogs.Keys && t.dialogs[h].info == d.info.(state := Confirmed)
            && (forall g :: g in m.dialogs && g != h ==> t.dialogs[g] == m.dialogs[g])
            && t.ids == m.ids[d.info.id := h] && t.pending == m.pending - {(r.callId.value, r.fromTag.value)}
  {
  }

  /** A 2xx with To tag and Contact gives the client-side dialog the ID its peer uses. */
  lemma ConfirmedUnderPeersId(m: Manager, r: SipResponse, h: Handle)
    requires Inv(m) && FindForResponse(m, r) == Some(h) && h in m.dialogs && !Settled(m.dialogs[h])
    requires 200 <= r.code < 300 && r.toTag.Some? && r.contact.Some?
    requires var q := m.dialogs[h].invite; q.fromUri.Some? && q.toUri.Some? && q.cseq.Some?
    ensures var t := AfterReply(m, r).manager;
            && t.dialogs[h].info.id == DialogId(r.callId.value, r.fromTag.value, r.toTag.value)
            && t.dialogs[h].info.state == Confirmed && FoundById(t, h)
  {
  }

  /** A response that arrives when its call is no longer pending is found by the dialog's ID, and
      changes nothing. */
  lemma LateResponseIsFound(m: Manager, r: SipResponse, h: Handle)
    requires Inv(m) && FoundById(m, h)
    requires var id := m.dialogs[h].info.id;
             && r.callId == Some(id.callId) && r.fromTag == Some(id.localTag) && r.toTag == Some(id.remoteTag)
             && (id.callId, id.localTag) !in m.pending
    ensures AfterReply(m, r) == Result(m, Some(h))
  {
    var d := m.dialogs[h];
    assert Settled(d) && AfterResponse(d, r) == d;
    assert m.dialogs[h := d] == m.dialogs && m.actions + [] == m.actions;
  }
}
