/** What the manager tells its user. Over every run, the actions it hands out are exactly those
    its dialogs have emitted, in order, plus one report for each incoming call. */
module DialogActions {
  import opened Words
  import opened SipDialog
  import opened DialogManager
  import Runs = DialogRuns

  /** A dialog's action as the user sees it: messages unchanged, events under the handle. */
  function Told(h: Handle, actions: seq<Action>): seq<ManagerAction> {
    if actions == [] then []
    else
      var last := actions[|actions| - 1];
      Told(h, actions[..|actions| - 1]) +
      [match last
       case SendRequest(q) => ForwardRequest(q)
       case SendResponse(r) => ForwardResponse(r)
       case Emit(e) => Report(h, FromDialog(e))]
  }

  /** What a step of the dialog under a handle tells; nothing if there is no such dialog. */
  function StepTells(m: Manager, h: Handle, step: Runs.Op): seq<ManagerAction> {
    if h in m.dialogs then Told(h, Runs.Emitted(m.dialogs[h], step)) else []
  }

  /** What one operation tells. */
  function Tells(m: Manager, contact: string, op: Op): seq<ManagerAction> {
    match op
    case Incoming(q, tag) =>
      (match FindDialog(m, q)
       case Some(h) => StepTells(m, h, Runs.HandleRequest(q))
       case None =>
         if q.verb == Invite && NewUas(q, tag, contact).Some? then [Report(m.nextHandle, IncomingInvite(q))] else [])
    case Reply(r) =>
      (match FindForResponse(m, r)
       case Some(h) => StepTells(m, h, Runs.HandleResponse(r))
       case None => [])
    case Answer(h, r) => StepTells(m, h, Runs.Respond(r))
    case HangUp(h) => StepTells(m, h, Runs.SendBye)
    case _ => []
  }

  lemma {:induction false} ToldIsLift(h: Handle, actions: seq<Action>)
    ensures Told(h, actions) == Lift(h, actions)
    decreases |actions|
  {
    if actions != [] {
      var front := actions[..|actions| - 1];
      ToldIsLift(h, front);
      assert Lift(h, actions) == Lift(h, front) + [LiftAction(h, actions[|actions| - 1])];
    }
  }

  lemma PutTells(m: Manager, h: Handle, d: Dialog, step: Runs.Op)
    requires h in m.dialogs && m.dialogs[h].actions == [] && d == Runs.DialogStep(m.dialogs[h], step) && !step.Poll?
    ensures Put(m, h, d).actions == m.actions + StepTells(m, h, step)
  {
    Runs.StepAppends(m.dialogs[h], step);
    assert [] + Runs.Emitted(m.dialogs[h], step) == Runs.Emitted(m.dialogs[h], step);
    ToldIsLift(h, d.actions);
  }

  lemma ReplyTells(m: Manager, r: SipResponse)
    requires Inv(m)
    ensures AfterReply(m, r).manager.actions == m.actions + Tells(m, "", Reply(r))
  {
    var found := FindForResponse(m, r);
    if found.Some? && found.value in m.dialogs {
      PutTells(m, found.value, AfterResponse(m.dialogs[found.value], r), Runs.HandleResponse(r));
    }
  }

  /** An operation other than a poll adds to the list exactly what it tells. */
  lemma ApplyTells(m: Manager, contact: string, op: Op)
    requires Inv(m) && !op.Poll?
    ensures Apply(m, contact, op).actions == m.actions + Tells(m, contact, op)
  {
    match op {
      case Incoming(q, _) =>
        var found := FindDialog(m, q);
        if found.Some? {
          PutTells(m, found.value, AfterRequest(m.dialogs[found.value], q), Runs.HandleRequest(q));
        }
      case Reply(r) => ReplyTells(m, r);
      case Answer(h, r) =>
        if h in m.dialogs {
          PutTells(m, h, AfterSendResponse(m.dialogs[h], r), Runs.Respond(r));
        }
      case HangUp(h) =>
        if h in m.dialogs {
          PutTells(m, h, AfterSendBye(m.dialogs[h]).dialog, Runs.SendBye);
        }
      case _ =>
    }
  }

  // ---- Runs ----

  /** Everything told over a run, in order. */
  function ToldOver(m: Manager, contact: string, ops: seq<Op>): seq<ManagerAction> {
    if ops == [] then []
    else
      var front := ops[..|ops| - 1];
      ToldOver(m, contact, front) + Tells(RunAll(m, contact, front), contact, ops[|ops| - 1])
  }

  /** Everything the polls of a run have handed out, in order. */
  function PolledOver(m: Manager, contact: string, ops: seq<Op>): seq<ManagerAction> {
    if ops == [] then []
    else
      var front := ops[..|ops| - 1];
      PolledOver(m, contact, front) + if ops[|ops| - 1].Poll? then RunAll(m, contact, front).actions else []
  }

  /** What the polls have handed out, followed by what is still listed, is exactly what was
      listed at first followed by everything told: nothing is lost, repeated or reordered. */
  lemma {:induction false} NothingIsLost(m: Manager, contact: string, ops: seq<Op>)
    requires Inv(m)
    ensures PolledOver(m, contact, ops) + RunAll(m, contact, ops).actions == m.actions + ToldOver(m, contact, ops)
    decreases |ops|
  {
    if ops != [] {
      var front, op := ops[..|ops| - 1], ops[|ops| - 1];
      NothingIsLost(m, contact, front);
      RunKeepsInv(m, contact, front);
      var before := RunAll(m, contact, front);
      if !op.Poll? {
        ApplyTells(before, contact, op);
      }
      Continued(PolledOver(m, contact, front), before.actions, m.actions, ToldOver(m, contact, front),
                Tells(before, contact, op));
    }
  }

  lemma Continued<T>(polled: seq<T>, listed: seq<T>, first: seq<T>, told: seq<T>, more: seq<T>)
    requires polled + listed == first + told
    ensures (polled + []) + (listed + more) == first + (told + more)
    ensures (polled + listed) + [] == first + (told + [])
  {
    assert (polled + []) + (listed + more) == (polled + listed) + more;
    assert first + (told + more) == (first + told) + more;
  }
}
