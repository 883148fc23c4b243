/** The dialog manager as an object that owns its dialog objects. Each method is proved
    against the manager value it must produce. */
module DialogTable {
  import opened Words
  import opened SipDialog
  import opened DialogManager

  class DialogTable {
    var nextHandle: nat
    var dialogs: map<Handle, InviteDialog>
    var ids: map<DialogId, Handle>
    var pending: map<CallKey, Handle>
    var actions: seq<ManagerAction>
    const localContact: string

    /** The dialogs held, as values. */
    ghost var model: map<Handle, Dialog>

    ghost function Objects(): set<InviteDialog>
      reads this
    {
      set h | h in dialogs :: dialogs[h]
    }

    /** The model is up to date, and no dialog object is held under two handles. */
    ghost predicate Valid()
      reads this, Objects()
    {
      && model.Keys == dialogs.Keys
      && (forall h :: h in dialogs ==> dialogs[h].View() == model[h])
      && (forall g, h :: g in dialogs && h in dialogs && g != h ==> dialogs[g] != dialogs[h])
    }

    ghost function View(): Manager
      reads this
    {
      Manager(nextHandle, model, ids, pending, actions)
    }

    constructor (localContact: string)
      ensures Valid() && View() == EMPTY && this.localContact == localContact
    {
      nextHandle := 1;
      dialogs, ids, pending, actions := map[], map[], map[], [];
      model := map[];
      this.localContact := localContact;
    }

    method AllocHandle() returns (h: Handle)
      modifies this`nextHandle
      ensures h == old(nextHandle) && nextHandle == h + 1
    {
      h := nextHandle;
      nextHandle := nextHandle + 1;
    }

    /** Stores a new dialog object. */
    method Hold(h: Handle, dialog: InviteDialog)
      requires Valid() && dialog !in Objects()
      modifies this`dialogs, this`model
      ensures Valid() && Objects() <= old(Objects()) + {dialog}
      ensures model == old(model)[h := dialog.View()]
    {
      dialogs := dialogs[h := dialog];
      model := model[h := dialog.View()];
    }

    method Create(invite: SipRequest) returns (handle: Option<Handle>)
      requires Valid()
      modifies this
      ensures Valid() && fresh(Objects() - old(Objects()))
      ensures Result(View(), handle) == CreateDialog(old(View()), invite)
    {
      if invite.verb != Invite { return None; }
      var h := AllocHandle();
      var dialog := new InviteDialog(NewUac(invite));
      if invite.callId.None? { return None; }
      if invite.fromTag.None? { return None; }
      pending := pending[(invite.callId.value, invite.fromTag.value) := h];
      Hold(h, dialog);
      return Some(h);
    }

    method FindDialogForRequest(q: SipRequest) returns (handle: Option<Handle>)
      ensures handle == FindDialog(View(), q)
    {
      if q.callId.None? || q.fromTag.None? || q.toTag.None? { return None; }
      var id := DialogId(q.callId.value, q.toTag.value, q.fromTag.value);
      return if id in ids then Some(ids[id]) else None;
    }

    /** Moves the pending actions of a dialog, in order, into the manager's own list. */
    method CollectDialogActions(h: Handle)
      requires Valid() && h in dialogs
      modifies this`actions, this`model, {dialogs[h]}
      ensures Valid()
      ensures View() == Put(old(View()), h, old(model)[h])
    {
      var drained := dialogs[h].PollActions();
      model := model[h := model[h].(actions := [])];
      ForwardAll(h, drained);
    }

    method ForwardAll(h: Handle, drained: seq<Action>)
      modifies this`actions
      ensures actions == old(actions) + Lift(h, drained)
    {
      for i := 0 to |drained|
        invariant actions == old(actions) + Lift(h, drained[..i])
      {
        assert Lift(h, drained[..i + 1]) == Lift(h, drained[..i]) + [LiftAction(h, drained[i])];
        match drained[i] {
          case SendRequest(q) => actions := actions + [ForwardRequest(q)];
          case SendResponse(r) => actions := actions + [ForwardResponse(r)];
          case Emit(e) => actions := actions + [Report(h, FromDialog(e))];
        }
      }
      assert drained[..|drained|] == drained;
    }

    method RequestTo(h: Handle, q: SipRequest)
      requires Valid() && h in dialogs
      modifies this`model, {dialogs[h]}
      ensures Valid() && model == old(model)[h := AfterRequest(old(model)[h], q)]
    {
      dialogs[h].HandleRequest(q);
      model := model[h := AfterRequest(model[h], q)];
    }

    method HandleRequest(q: SipRequest, tag: string) returns (handle: Option<Handle>)
      requires Valid()
      modifies this, Objects()
      ensures Valid() && fresh(Objects() - old(Objects()))
      ensures Result(View(), handle) == AfterIncoming(old(View()), localContact, q, tag)
    {
      handle := FindDialogForRequest(q);
      if handle.Some? {
        if handle.value in dialogs {
          RequestTo(handle.value, q);
          CollectDialogActions(handle.value);
          PutOver(old(View()), handle.value, AfterRequest(old(model)[handle.value], q));
        }
        return;
      }
      if q.verb == Invite {
        handle := CreateUasDialog(q, tag);
      }
    }

    method CreateUasDialog(q: SipRequest, tag: string) returns (handle: Option<Handle>)
      requires Valid()
      modifies this
      ensures Valid() && fresh(Objects() - old(Objects()))
      ensures Result(View(), handle) == CreateUas(old(View()), localContact, q, tag)
    {
      var h := AllocHandle();
      var d := NewUas(q, tag, localContact);
      if d.None? { return None; }
      HoldIncoming(h, d.value, q);
      return Some(h);
    }

    /** Stores a server-side dialog, indexes it and reports the call. */
    method HoldIncoming(h: Handle, d: Dialog, q: SipRequest)
      requires Valid()
      modifies this`dialogs, this`ids, this`actions, this`model
      ensures Valid() && fresh(Objects() - old(Objects()))
      ensures model == old(model)[h := d] && ids == old(ids)[d.info.id := h]
      ensures actions == old(actions) + [Report(h, IncomingInvite(q))]
    {
      var dialog := new InviteDialog(d);
      var id := dialog.info.id;
      Hold(h, dialog);
      ids := ids[id := h];
      actions := actions + [Report(h, IncomingInvite(q))];
    }

    method FindPending(r: SipResponse) returns (handle: Option<Handle>)
      ensures handle == FindForResponse(View(), r)
    {
      if r.callId.None? || r.fromTag.None? { return None; }
      var key := (r.callId.value, r.fromTag.value);
      if key in pending { return Some(pending[key]); }
      if r.toTag.Some? {
        var id := DialogId(r.callId.value, r.fromTag.value, r.toTag.value);
        return if id in ids then Some(ids[id]) else None;
      }
      return None;
    }

    method ResponseTo(h: Handle, r: SipResponse)
      requires Valid() && h in dialogs
      modifies this`model, {dialogs[h]}
      ensures Valid() && model == old(model)[h := AfterResponse(old(model)[h], r)]
    {
      dialogs[h].HandleResponse(r);
      model := model[h := AfterResponse(model[h], r)];
    }

    method HandleResponse(r: SipResponse) returns (handle: Option<Handle>)
      requires Valid()
      modifies this, Objects()
      ensures Valid() && Objects() == old(Objects())
      ensures Result(View(), handle) == AfterReply(old(View()), r)
    {
      handle := FindPending(r);
      if handle.None? { return; }
      var h := handle.value;
      if h in dialogs {
        TakeResponse(h, r, (r.callId.value, r.fromTag.value));
      }
    }

    /** A response for a dialog that is held. */
    method TakeResponse(h: Handle, r: SipResponse, key: CallKey)
      requires Valid() && h in dialogs
      modifies this`ids, this`pending, this`actions, this`model, {dialogs[h]}
      ensures Valid() && View() == Replaced(old(View()), h, AfterResponse(old(model)[h], r), Some(key))
    {
      var oldState := dialogs[h].info.state;
      ResponseTo(h, r);
      ghost var after := model[h];
      IndexAndCollect(h, oldState, Some(key));
      StoredOnce(old(View()), h, oldState, after, Some(key));
    }

    /** After a transition: index a dialog that has just been confirmed, close its pending
        entry if there is one, and take over its actions. */
    method IndexAndCollect(h: Handle, oldState: DialogState, key: Option<CallKey>)
      requires Valid() && h in dialogs
      modifies this`ids, this`pending, this`actions, this`model, {dialogs[h]}
      ensures Valid()
      ensures View() == Put(Indexing(old(View()), h, oldState, old(model)[h], key), h, old(model)[h])
    {
      var newState := dialogs[h].info.state;
      if oldState == Early && newState == Confirmed {
        ids := ids[dialogs[h].info.id := h];
        if key.Some? {
          pending := pending - {key.value};
        }
      }
      CollectDialogActions(h);
    }

    method AnswerFrom(h: Handle, r: SipResponse)
      requires Valid() && h in dialogs
      modifies this`model, {dialogs[h]}
      ensures Valid() && model == old(model)[h := AfterSendResponse(old(model)[h], r)]
    {
      dialogs[h].Respond(r);
      model := model[h := AfterSendResponse(model[h], r)];
    }

    method Respond(h: Handle, r: SipResponse)
      requires Valid()
      modifies this, Objects()
      ensures Valid() && Objects() == old(Objects())
      ensures View() == SendResponseFor(old(View()), h, r)
    {
      if h in dialogs {
        var oldState := dialogs[h].info.state;
        AnswerFrom(h, r);
        ghost var after := model[h];
        IndexAndCollect(h, oldState, None);
        StoredOnce(old(View()), h, oldState, after, None);
      }
    }

    method SendBye(h: Handle) returns (bye: Option<SipRequest>)
      requires Valid()
      modifies this, Objects()
      ensures Valid() && Objects() == old(Objects())
      ensures Result(View(), bye) == SendByeFor(old(View()), h)
    {
      if h !in dialogs { return None; }
      bye := dialogs[h].SendBye();
      model := model[h := AfterSendBye(model[h]).dialog];
      CollectDialogActions(h);
      PutOver(old(View()), h, AfterSendBye(old(model)[h]).dialog);
    }

    method AckSent(h: Handle)
      requires Valid()
      modifies this`model, Objects()
      ensures Valid() && Objects() == old(Objects())
      ensures View() == MarkAck(old(View()), h)
    {
      if h in dialogs {
        dialogs[h].AckSent();
        model := model[h := model[h].(ackSent := true)];
      }
    }

    method PollActions() returns (drained: seq<ManagerAction>)
      modifies this`actions
      ensures drained == old(actions) && View() == old(View()).(actions := [])
    {
      drained := actions;
      actions := [];
    }

    /** Removes ended dialogs; `order` is the order in which the map is iterated. */
    method CleanupTerminated(order: seq<Handle>)
      requires Valid() && forall h :: h in order <==> h in dialogs
      modifies this`dialogs, this`ids, this`model
      ensures Valid() && Objects() <= old(Objects())
      ensures View() == CleanUp(old(View()))
    {
      var toRemove := FindEnded(order);
      ghost var m := old(View());
      RemoveAll(toRemove);
      EndedSets(m, order, toRemove);
    }

    method FindEnded(order: seq<Handle>) returns (toRemove: seq<(Handle, DialogId)>)
      requires Valid() && forall h :: h in order <==> h in dialogs
      ensures ListsEnded(View(), order, toRemove)
    {
      toRemove := [];
      for i := 0 to |order|
        invariant ListsEnded(View(), order[..i], toRemove)
      {
        var dialog := dialogs[order[i]];
        assert order[..i + 1] == order[..i] + [order[i]];
        if dialog.info.state == Terminated {
          toRemove := toRemove + [(order[i], dialog.info.id)];
        }
      }
      assert order[..|order|] == order;
    }

    method RemoveAll(toRemove: seq<(Handle, DialogId)>)
      requires Valid()
      modifies this`dialogs, this`ids, this`model
      ensures Valid() && Objects() <= old(Objects())
      ensures model == old(model) - HandlesIn(toRemove) && ids == old(ids) - NamesIn(toRemove)
    {
      for i := 0 to |toRemove|
        invariant Valid() && Objects() <= old(Objects())
        invariant model == old(model) - HandlesIn(toRemove[..i])
        invariant ids == old(ids) - NamesIn(toRemove[..i])
      {
        InSnoc(toRemove, i);
        MinusTwice(old(model), HandlesIn(toRemove[..i]), toRemove[i].0);
        MinusTwice(old(ids), NamesIn(toRemove[..i]), toRemove[i].1);
        DropOne(toRemove[i].0, toRemove[i].1);
      }
      assert toRemove[..|toRemove|] == toRemove;
    }

    method DropOne(h: Handle, id: DialogId)
      requires Valid()
      modifies this`dialogs, this`ids, this`model
      ensures Valid() && Objects() <= old(Objects())
      ensures model == old(model) - {h} && ids == old(ids) - {id}
    {
      dialogs := dialogs - {h};
      model := model - {h};
      ids := ids - {id};
    }
  }

  /** Storing a dialog twice is storing it once. */
  lemma PutOver(m: Manager, h: Handle, d: Dialog)
    ensures Put(m.(dialogs := m.dialogs[h := d]), h, d) == Put(m, h, d)
  {
  }

  /** The tables after a transition of dialog h from `was` to `d`. */
  function Indexing(m: Manager, h: Handle, was: DialogState, d: Dialog, key: Option<CallKey>): Manager {
    if was == Early && d.info.state == Confirmed then
      var indexed := m.(ids := m.ids[d.info.id := h]);
      if key.Some? then indexed.(pending := m.pending - {key.value}) else indexed
    else m
  }

  /** The manager after dialog h has become `d`. */
  function Replaced(m: Manager, h: Handle, d: Dialog, key: Option<CallKey>): Manager
    requires h in m.dialogs
  {
    Put(Indexing(m, h, m.dialogs[h].info.state, d, key), h, d)
  }

  /** Storing the new dialog before the tables are brought up to date makes no difference. */
  lemma StoredOnce(m: Manager, h: Handle, was: DialogState, d: Dialog, key: Option<CallKey>)
    ensures Put(Indexing(m.(dialogs := m.dialogs[h := d]), h, was, d, key), h, d)
            == Put(Indexing(m, h, was, d, key), h, d)
  {
    PutOver(Indexing(m, h, was, d, key), h, d);
  }

  ghost function HandlesIn(list: seq<(Handle, DialogId)>): set<Handle> {
    set e | e in list :: e.0
  }

  ghost function NamesIn(list: seq<(Handle, DialogId)>): set<DialogId> {
    set e | e in list :: e.1
  }

  lemma MinusTwice<K, V>(m: map<K, V>, a: set<K>, x: K)
    ensures m - a - {x} == m - (a + {x})
  {
  }

  lemma InSnoc(list: seq<(Handle, DialogId)>, i: nat)
    requires i < |list|
    ensures HandlesIn(list[..i + 1]) == HandlesIn(list[..i]) + {list[i].0}
    ensures NamesIn(list[..i + 1]) == NamesIn(list[..i]) + {list[i].1}
  {
  }

  /** The list names exactly the ended dialogs among those visited, with their IDs. */
  ghost predicate ListsEnded(m: Manager, visited: seq<Handle>, list: seq<(Handle, DialogId)>) {
    && (forall e :: e in list ==> Ended(m, e.0) && e.1 == m.dialogs[e.0].info.id)
    && (forall h :: h in visited && Ended(m, h) ==> (h, m.dialogs[h].info.id) in list)
  }

  lemma EndedSets(m: Manager, order: seq<Handle>, list: seq<(Handle, DialogId)>)
    requires ListsEnded(m, order, list) && forall h :: h in order <==> h in m.dialogs
    ensures CleanUp(m) == m.(dialogs := m.dialogs - HandlesIn(list), ids := m.ids - NamesIn(list))
  {
  }
}
