/** What one dialog keeps over every sequence of messages and calls. */
module DialogRuns {
  import opened Words
  import opened SipDialog

  datatype Op =
    | HandleResponse(response: SipResponse)
    | HandleRequest(request: SipRequest)
    | Respond(answer: SipResponse)
    | SendBye
    | BuildPrack(provisional: SipResponse)
    | BuildUpdate
    | ByeWithReason(reason: string)
    | Poll
    | AckSent

  /** A dialog with everything it has ever emitted and the numbers of the requests it built.
      `early` counts the requests built while the dialog was Early. `reset`: an early response
      has set the local number below that of a request already built. `repeated`: a request
      was built in that condition. `wrapped`: a number was taken at the 32-bit limit. */
  datatype Run = Run(dialog: Dialog, log: seq<Action>, built: seq<u32>, early: nat,
                     reset: bool, repeated: bool, wrapped: bool)

  function Start(d: Dialog): Run {
    Run(d, [], [], 0, false, false, false)
  }

  function BuildStep(d: Dialog, op: Op): Built {
    match op
    case SendBye => AfterSendBye(d)
    case BuildPrack(r) => AfterPrack(d, r)
    case BuildUpdate => AfterUpdate(d)
    case ByeWithReason(reason) => AfterByeWithReason(d, reason)
    case _ => Built(d, None)
  }

  function DialogStep(d: Dialog, op: Op): Dialog {
    match op
    case HandleResponse(r) => AfterResponse(d, r)
    case HandleRequest(q) => AfterRequest(d, q)
    case Respond(r) => AfterSendResponse(d, r)
    case Poll => d.(actions := [])
    case AckSent => d.(ackSent := true)
    case _ => BuildStep(d, op).dialog
  }

  /** An early response that renames the dialog starts its local numbering over. */
  predicate Renames(d: Dialog, op: Op) {
    op.HandleResponse? && d.role == Uac && d.info.state == Early && 100 < op.response.code < 300
    && InfoFromResponse(d.invite, op.response, Early).Some?
  }

  /** The step advances the local number, whether or not its request can be built. */
  predicate TakesNumber(d: Dialog, op: Op) {
    || (op.SendBye? && d.info.state == Confirmed)
    || (op.BuildPrack? && op.provisional.cseqMethod.Some?)
    || op.BuildUpdate?
    || (op.ByeWithReason? && BuildStep(d, op).request.Some?)
  }

  function NewActions(d: Dialog, after: Dialog, op: Op): seq<Action> {
    if op.Poll? || |after.actions| < |d.actions| then [] else after.actions[|d.actions|..]
  }

  function Step(r: Run, op: Op): Run {
    var d := r.dialog;
    var after := DialogStep(d, op);
    var request := BuildStep(d, op).request;
    var built := if request.Some? && request.value.cseq.Some? then r.built + [request.value.cseq.value] else r.built;
    var builds := |built| > |r.built|;
    Run(after, r.log + NewActions(d, after, op), built,
        if d.info.state == Early then |built| else r.early,
        if builds then false
        else if Renames(d, op) then r.built != [] && after.info.localSeq < r.built[|r.built| - 1]
        else r.reset,
        r.repeated || (builds && r.reset),
        r.wrapped || (TakesNumber(d, op) && d.info.localSeq == 0xffff_ffff))
  }

  function RunAll(d: Dialog, ops: seq<Op>): Run {
    if ops == [] then Start(d) else Step(RunAll(d, ops[..|ops| - 1]), ops[|ops| - 1])
  }

  // ---- Rank ----

  function Rank(s: DialogState): nat {
    match s
    case Early => 0
    case Confirmed => 1
    case Terminating => 2
    case Terminated => 3
  }

  lemma StepKeepsRank(d: Dialog, op: Op)
    ensures Rank(DialogStep(d, op).info.state) >= Rank(d.info.state)
    ensures DialogStep(d, op).role == d.role && DialogStep(d, op).invite == d.invite
  {
  }

  lemma LastStep(d: Dialog, ops: seq<Op>)
    requires ops != []
    ensures RunAll(d, ops).dialog == DialogStep(RunAll(d, ops[..|ops| - 1]).dialog, ops[|ops| - 1])
  {
  }

  /** The rank of the dialog state never falls. */
  lemma {:induction false} RankNeverFalls(d: Dialog, ops: seq<Op>, n: nat)
    requires n <= |ops|
    ensures Rank(RunAll(d, ops).dialog.info.state) >= Rank(RunAll(d, ops[..n]).dialog.info.state)
    decreases |ops|
  {
    if n < |ops| {
      var front := ops[..|ops| - 1];
      RankNeverFalls(d, front, n);
      assert front[..n] == ops[..n];
      LastStep(d, ops);
      StepKeepsRank(RunAll(d, front).dialog, ops[|ops| - 1]);
    } else {
      assert ops[..n] == ops;
    }
  }

  // ---- One verdict on the INVITE ----

  predicate IsVerdict(a: Action) {
    a.Emit? && (a.event.Established? || (a.event.TerminatedEvent? && (a.event.why.Rejected? || a.event.why.Cancelled?)))
  }

  function Verdicts(log: seq<Action>): nat {
    if log == [] then 0 else Verdicts(log[..|log| - 1]) + if IsVerdict(log[|log| - 1]) then 1 else 0
  }

  lemma {:induction false} VerdictsConcat(a: seq<Action>, b: seq<Action>)
    ensures Verdicts(a + b) == Verdicts(a) + Verdicts(b)
    decreases |b|
  {
    if b == [] {
      assert a + b == a;
    } else {
      var last := |b| - 1;
      VerdictsConcat(a, b[..last]);
      assert (a + b)[..|a + b| - 1] == a + b[..last];
    }
  }

  /** What a step adds to the actions, named for the cases that follow. */
  function Emitted(d: Dialog, op: Op): seq<Action> {
    match op
    case HandleResponse(r) =>
      if d.role != Uac || d.info.state != Early then []
      else if 100 < r.code < 200 then
        (if r.code == 183 then [Emit(SessionProgress(r))] else []) + [Emit(Provisional(r))]
      else if 200 <= r.code < 300 then [Emit(Established)]
      else if r.code >= 300 then [Emit(TerminatedEvent(Rejected(r.code)))]
      else []
    case HandleRequest(q) =>
      if q.cseq.None? then []
      else if q.verb.Bye? then [Emit(ByeReceived(q)), Emit(TerminatedEvent(ByeReceivedReason))]
      else if q.verb.Invite? && d.info.state == Confirmed && Fresher(d.info.remoteSeq, q.cseq.value) then
        [Emit(ReInvite(q))]
      else if q.verb.Cancel? && d.info.state == Early && d.role == Uas then [Emit(TerminatedEvent(Cancelled))]
      else []
    case Respond(r) =>
      if d.role != Uas then []
      else if d.info.state != Early || r.code < 200 then [SendResponse(r)]
      else [SendResponse(r), Emit(if r.code < 300 then Established else TerminatedEvent(Rejected(r.code)))]
    case SendBye => if BuildStep(d, op).request.Some? then [SendRequest(BuildStep(d, op).request.value)] else []
    case ByeWithReason(_) =>
      if BuildStep(d, op).request.Some? then [SendRequest(BuildStep(d, op).request.value)] else []
    case _ => []
  }

  lemma StepAppends(d: Dialog, op: Op)
    ensures !op.Poll? ==> DialogStep(d, op).actions == d.actions + Emitted(d, op)
    ensures NewActions(d, DialogStep(d, op), op) == Emitted(d, op)
  {
  }

  lemma EmittedVerdicts(d: Dialog, op: Op)
    ensures Verdicts(Emitted(d, op))
            <= if d.info.state == Early && DialogStep(d, op).info.state != Early then 1 else 0
  {
    VerdictsShort(Emitted(d, op));
  }

  lemma VerdictsShort(e: seq<Action>)
    requires |e| <= 2
    ensures Verdicts(e) == (if |e| >= 1 && IsVerdict(e[0]) then 1 else 0)
                           + (if |e| == 2 && IsVerdict(e[1]) then 1 else 0)
  {
  }

  /** At most one of Established, Rejected and Cancelled is ever emitted. */
  lemma {:induction false} AtMostOneVerdict(d: Dialog, ops: seq<Op>)
    ensures Verdicts(RunAll(d, ops).log) <= 1
    ensures RunAll(d, ops).dialog.info.state == Early ==> Verdicts(RunAll(d, ops).log) == 0
    decreases |ops|
  {
    if ops != [] {
      var last := |ops| - 1;
      var r := RunAll(d, ops[..last]);
      AtMostOneVerdict(d, ops[..last]);
      StepKeepsRank(r.dialog, ops[last]);
      StepAppends(r.dialog, ops[last]);
      EmittedVerdicts(r.dialog, ops[last]);
      VerdictsConcat(r.log, NewActions(r.dialog, DialogStep(r.dialog, ops[last]), ops[last]));
    }
  }

  // ---- Numbers of re-INVITEs ----

  ghost predicate Increasing(xs: seq<u32>) {
    forall i, j :: 0 <= i < j < |xs| ==> xs[i] < xs[j]
  }

  lemma IncreasingSnoc(xs: seq<u32>, x: u32)
    ensures Increasing(xs + [x]) <==> Increasing(xs) && (xs != [] ==> xs[|xs| - 1] < x)
  {
    var ys := xs + [x];
    if Increasing(ys) {
      forall i, j | 0 <= i < j < |xs| ensures xs[i] < xs[j] {
        assert ys[i] == xs[i] && ys[j] == xs[j];
      }
      if xs != [] {
        assert ys[|xs| - 1] < ys[|xs|];
      }
    }
  }

  function ReInviteSeqs(log: seq<Action>): seq<u32> {
    if log == [] then []
    else
      var a := log[|log| - 1];
      ReInviteSeqs(log[..|log| - 1]) +
      (if a.Emit? && a.event.ReInvite? && a.event.reinvite.cseq.Some? then [a.event.reinvite.cseq.value] else [])
  }

  lemma ReInviteSnoc(log: seq<Action>, a: Action)
    ensures ReInviteSeqs(log + [a]) == ReInviteSeqs(log) +
              (if a.Emit? && a.event.ReInvite? && a.event.reinvite.cseq.Some?
               then [a.event.reinvite.cseq.value] else [])
  {
  }

  /** Only a fresh re-INVITE contributes a number, and it comes alone. */
  lemma LogGrows(log: seq<Action>, d: Dialog, op: Op)
    ensures ReInviteSeqs(log + Emitted(d, op)) == ReInviteSeqs(log) +
              (if Reports(d, op) then [op.request.cseq.value] else [])
  {
    var e := Emitted(d, op);
    if e == [] {
      assert log + e == log;
    } else if |e| == 1 {
      assert e == [e[0]];
      ReInviteSnoc(log, e[0]);
    } else {
      assert log + e == (log + [e[0]]) + [e[1]];
      ReInviteSnoc(log, e[0]);
      ReInviteSnoc(log + [e[0]], e[1]);
    }
  }

  ghost predicate ReInvitesOk(r: Run) {
    var seqs := ReInviteSeqs(r.log);
    && Increasing(seqs)
    && (seqs != [] ==> r.dialog.info.state != Early && r.dialog.info.remoteSeq.Some?
                       && seqs[|seqs| - 1] <= r.dialog.info.remoteSeq.value)
  }

  /** The step reports a re-INVITE. */
  predicate Reports(d: Dialog, op: Op) {
    op.HandleRequest? && op.request.cseq.Some? && op.request.verb.Invite? && d.info.state == Confirmed
    && Fresher(d.info.remoteSeq, op.request.cseq.value)
  }

  lemma StepRemoteSeq(d: Dialog, op: Op)
    requires d.info.state != Early
    ensures DialogStep(d, op).info.remoteSeq == if Reports(d, op) then op.request.cseq else d.info.remoteSeq
  {
  }

  lemma ReInvitesStep(d: Dialog, op: Op, after: Dialog, seqs: seq<u32>, seqs': seq<u32>)
    requires Increasing(seqs)
    requires seqs != [] ==>
               d.info.state != Early && d.info.remoteSeq.Some? && seqs[|seqs| - 1] <= d.info.remoteSeq.value
    requires seqs' == seqs + (if Reports(d, op) then [op.request.cseq.value] else [])
    requires d.info.state != Early ==>
               after.info.remoteSeq == if Reports(d, op) then op.request.cseq else d.info.remoteSeq
    requires Rank(after.info.state) >= Rank(d.info.state)
    ensures Increasing(seqs')
    ensures seqs' != [] ==>
              && after.info.state != Early && after.info.remoteSeq.Some?
              && seqs'[|seqs'| - 1] <= after.info.remoteSeq.value
  {
  }

  lemma StepKeepsReInvites(r: Run, op: Op)
    requires ReInvitesOk(r)
    ensures ReInvitesOk(Step(r, op))
  {
    StepAppends(r.dialog, op);
    LogGrows(r.log, r.dialog, op);
    StepKeepsRank(r.dialog, op);
    if r.dialog.info.state != Early {
      StepRemoteSeq(r.dialog, op);
    }
    ReInvitesStep(r.dialog, op, DialogStep(r.dialog, op), ReInviteSeqs(r.log),
                  ReInviteSeqs(r.log + Emitted(r.dialog, op)));
  }

  /** Re-INVITEs are reported with strictly increasing numbers. */
  lemma {:induction false} ReInvitesIncrease(d: Dialog, ops: seq<Op>)
    ensures ReInvitesOk(RunAll(d, ops))
    decreases |ops|
  {
    if ops != [] {
      ReInvitesIncrease(d, ops[..|ops| - 1]);
      StepKeepsReInvites(RunAll(d, ops[..|ops| - 1]), ops[|ops| - 1]);
    }
  }

  // ---- Numbers of our own requests ----

  /** Everything a request needs is known. */
  predicate Full(info: DialogInfo) {
    info.remoteTarget != "" && info.localUri != "" && info.remoteUri != ""
  }

  ghost predicate MarksOk(r: Run) {
    && r.early <= |r.built| && (r.dialog.info.state == Early ==> r.early == |r.built|)
    && (r.built != [] ==> Full(r.dialog.info))
    && (r.reset ==> r.dialog.role == Uac && r.built != [])
    && (r.repeated ==> r.dialog.role == Uac)
  }

  /** Below the limit: where the local number stands relative to the last request built. */
  ghost predicate NumberStands(r: Run) {
    && (r.built != [] ==> (r.reset <==> r.dialog.info.localSeq < r.built[|r.built| - 1]))
    && (|r.built| > r.early ==> !r.reset)
  }

  ghost predicate OrderStands(r: Run)
    requires r.early <= |r.built|
  {
    && Increasing(r.built[r.early..])
    && (Increasing(r.built) <==> !r.repeated)
  }

  ghost predicate NumbersOk(r: Run) {
    MarksOk(r) && (!r.wrapped ==> NumberStands(r) && OrderStands(r))
  }

  lemma StaysFull(d: Dialog, op: Op)
    requires Full(d.info)
    ensures Full(DialogStep(d, op).info)
  {
  }

  /** Steps that build nothing leave the number of a full dialog alone, unless they rename it. */
  lemma QuietStep(d: Dialog, op: Op)
    requires BuildStep(d, op).request.None? && Full(d.info)
    ensures Renames(d, op) ==> d.role == Uac && d.info.state == Early
    ensures !Renames(d, op) ==> DialogStep(d, op).info.localSeq == d.info.localSeq
  {
  }

  lemma BuildingStep(d: Dialog, op: Op)
    requires BuildStep(d, op).request.Some?
    ensures Full(d.info) && !Renames(d, op)
    ensures var q := BuildStep(d, op).request.value;
            && q.cseq == Some(DialogStep(d, op).info.localSeq)
            && (d.info.localSeq < 0xffff_ffff ==> q.cseq == Some(d.info.localSeq + 1))
  {
  }

  lemma QuietKeepsNumbers(r: Run, op: Op, after: Run)
    requires NumbersOk(r) && BuildStep(r.dialog, op).request.None? && after == Step(r, op)
    ensures NumbersOk(after)
  {
    StepKeepsRank(r.dialog, op);
    if Full(r.dialog.info) {
      QuietStep(r.dialog, op);
      StaysFull(r.dialog, op);
    }
    assert after.built == r.built;
  }

  lemma NumbersAfterBuild(r: Run, after: Run, cseq: u32)
    requires NumbersOk(r) && Full(r.dialog.info) && Full(after.dialog.info)
    requires after.dialog.role == r.dialog.role && after.dialog.invite == r.dialog.invite
    requires Rank(after.dialog.info.state) >= Rank(r.dialog.info.state)
    requires after.built == r.built + [cseq] && after.dialog.info.localSeq == cseq
    requires after.early == if r.dialog.info.state == Early then |after.built| else r.early
    requires !after.reset && after.repeated == (r.repeated || r.reset)
    requires !after.wrapped ==> !r.wrapped && cseq == r.dialog.info.localSeq + 1
    ensures NumbersOk(after)
  {
    if !after.wrapped {
      OrderAfterBuild(r, after, cseq);
    }
  }

  lemma OrderAfterBuild(r: Run, after: Run, cseq: u32)
    requires MarksOk(r) && NumberStands(r) && OrderStands(r) && cseq == r.dialog.info.localSeq + 1
    requires after.built == r.built + [cseq] && after.repeated == (r.repeated || r.reset)
    requires after.early == if r.dialog.info.state == Early then |after.built| else r.early
    ensures OrderStands(after)
  {
    IncreasingSnoc(r.built, cseq);
    if r.dialog.info.state != Early {
      var xs := r.built[r.early..];
      assert after.built[r.early..] == xs + [cseq];
      assert xs != [] ==> xs[|xs| - 1] == r.built[|r.built| - 1];
      IncreasingSnoc(xs, cseq);
    }
  }

  lemma BuildingKeepsNumbers(r: Run, op: Op, after: Run)
    requires NumbersOk(r) && BuildStep(r.dialog, op).request.Some? && after == Step(r, op)
    ensures NumbersOk(after)
  {
    BuildingStep(r.dialog, op);
    StaysFull(r.dialog, op);
    StepKeepsRank(r.dialog, op);
    NumbersAfterBuild(r, after, after.dialog.info.localSeq);
  }

  lemma {:induction false} RunKeepsNumbers(d: Dialog, ops: seq<Op>)
    ensures NumbersOk(RunAll(d, ops)) && RunAll(d, ops).dialog.role == d.role
    decreases |ops|
  {
    if ops != [] {
      var r, op := RunAll(d, ops[..|ops| - 1]), ops[|ops| - 1];
      RunKeepsNumbers(d, ops[..|ops| - 1]);
      StepKeepsRank(r.dialog, op);
      if BuildStep(r.dialog, op).request.None? {
        QuietKeepsNumbers(r, op, RunAll(d, ops));
      } else {
        BuildingKeepsNumbers(r, op, RunAll(d, ops));
      }
    }
  }

  /** Below the 32-bit limit, the requests of any dialog, however it came into being, carry
      strictly increasing numbers if and only if none is built after an early response has set
      the local number below that of an earlier request. */
  lemma NumbersIncreaseIff(d: Dialog, ops: seq<Op>)
    requires !RunAll(d, ops).wrapped
    ensures Increasing(RunAll(d, ops).built) <==> !RunAll(d, ops).repeated
  {
    RunKeepsNumbers(d, ops);
  }

  /** A UAS never repeats a number, and neither does a UAC among the requests it builds once
      the dialog has left Early. */
  lemma NumbersIncrease(d: Dialog, ops: seq<Op>)
    requires !RunAll(d, ops).wrapped
    ensures d.role == Uas ==> Increasing(RunAll(d, ops).built)
    ensures RunAll(d, ops).early <= |RunAll(d, ops).built| && Increasing(RunAll(d, ops).built[RunAll(d, ops).early..])
  {
    RunKeepsNumbers(d, ops);
  }

  /** The dialog's number and all it has built stand above the number of its INVITE. */
  ghost predicate AboveInvite(r: Run) {
    var cseq := r.dialog.invite.cseq;
    cseq.Some? && !r.wrapped ==>
      r.dialog.info.localSeq >= cseq.value && forall i :: 0 <= i < |r.built| ==> r.built[i] > cseq.value
  }

  /** A step either renames the dialog, or leaves its number, or takes the next one. */
  lemma NumberStep(d: Dialog, op: Op)
    ensures DialogStep(d, op).invite == d.invite
    ensures Renames(d, op) ==> Some(DialogStep(d, op).info.localSeq) == d.invite.cseq && BuildStep(d, op).request.None?
    ensures !Renames(d, op) && !TakesNumber(d, op) ==>
              DialogStep(d, op).info.localSeq == d.info.localSeq && BuildStep(d, op).request.None?
    ensures TakesNumber(d, op) && d.info.localSeq < 0xffff_ffff ==>
              DialogStep(d, op).info.localSeq == d.info.localSeq + 1
  {
  }

  lemma {:induction false} RunStaysAbove(d: Dialog, ops: seq<Op>)
    requires d.invite.cseq.Some? ==> d.info.localSeq >= d.invite.cseq.value
    ensures AboveInvite(RunAll(d, ops)) && RunAll(d, ops).dialog.invite == d.invite
    decreases |ops|
  {
    if ops != [] {
      var r, op := RunAll(d, ops[..|ops| - 1]), ops[|ops| - 1];
      RunStaysAbove(d, ops[..|ops| - 1]);
      NumberStep(r.dialog, op);
      if BuildStep(r.dialog, op).request.Some? {
        BuildingStep(r.dialog, op);
      }
    }
  }

  /** For a call placed with an INVITE the condition is simply that an early response names the
      dialog again after a request was built: it always sets the number back. */
  lemma RenamingSetsBack(invite: SipRequest, ops: seq<Op>, op: Op)
    requires var r := RunAll(NewUac(invite), ops); !r.wrapped && r.built != [] && Renames(r.dialog, op)
    ensures Step(RunAll(NewUac(invite), ops), op).reset
  {
    RunStaysAbove(NewUac(invite), ops);
    NumberStep(RunAll(NewUac(invite), ops).dialog, op);
  }

  const EXAMPLE_INVITE: SipRequest :=
    SipRequest(Invite, "sip:b", Some("c"), Some("a"), None, Some(1), Some("sip:a"), Some("sip:b"), Some("sip:a@h"),
               [], [], false, None)

  /** A reliable provisional response acknowledged by PRACK, then the final answer, then BYE:
      PRACK and BYE carry the same number. */
  lemma UacRepeatsNumber()
    ensures var ringing := SipResponse(183, Some("c"), Some("a"), Some("b"), Some(Invite), Some("sip:b@h"), []);
            var answer := ringing.(code := 200);
            RunAll(NewUac(EXAMPLE_INVITE),
                   [HandleResponse(ringing), BuildPrack(ringing), HandleResponse(answer), SendBye]).built == [2, 2]
  {
    var ringing := SipResponse(183, Some("c"), Some("a"), Some("b"), Some(Invite), Some("sip:b@h"), []);
    var answer := ringing.(code := 200);
    var d := NewUac(EXAMPLE_INVITE);
    var early := InfoFromResponse(EXAMPLE_INVITE, ringing, Early).value;
    var confirmed := InfoFromResponse(EXAMPLE_INVITE, answer, Confirmed).value;
    var r1 := Step(Start(d), HandleResponse(ringing));
    ResponseNames(Start(d), ringing, early);
    PrackTakes(r1, ringing);
    var r2 := Step(r1, BuildPrack(ringing));
    var r3 := Step(r2, HandleResponse(answer));
    ResponseNames(r2, answer, confirmed);
    ByeTakes(r3);
    Unrolled(d, HandleResponse(ringing), BuildPrack(ringing), HandleResponse(answer), SendBye);
  }

  lemma ResponseNames(r: Run, p: SipResponse, info: DialogInfo)
    requires r.dialog.role == Uac && r.dialog.info.state == Early && 100 < p.code < 300
    requires InfoFromResponse(r.dialog.invite, p, if p.code < 200 then Early else Confirmed) == Some(info)
    ensures var t := Step(r, HandleResponse(p));
            t.built == r.built && t.dialog.info == info && t.dialog.invite == r.dialog.invite && t.dialog.role == Uac
  {
  }

  lemma PrackTakes(r: Run, p: SipResponse)
    requires Full(r.dialog.info) && r.dialog.info.localSeq < 0xffff_ffff && p.cseqMethod.Some?
    ensures var t := Step(r, BuildPrack(p));
            && t.built == r.built + [r.dialog.info.localSeq + 1]
            && t.dialog == r.dialog.(info := r.dialog.info.(localSeq := r.dialog.info.localSeq + 1))
  {
  }

  lemma ByeTakes(r: Run)
    requires Full(r.dialog.info) && r.dialog.info.localSeq < 0xffff_ffff && r.dialog.info.state == Confirmed
    ensures Step(r, SendBye).built == r.built + [r.dialog.info.localSeq + 1]
  {
  }

  lemma Unrolled(d: Dialog, a: Op, b: Op, c: Op, e: Op)
    ensures RunAll(d, [a, b, c, e]) == Step(Step(Step(Step(Start(d), a), b), c), e)
  {
    assert [a, b, c, e][..3] == [a, b, c] && [a, b, c][..2] == [a, b] && [a, b][..1] == [a] && [a][..0] == [];
    assert RunAll(d, [a]) == Step(Start(d), a);
    assert RunAll(d, [a, b]) == Step(RunAll(d, [a]), b);
    assert RunAll(d, [a, b, c]) == Step(RunAll(d, [a, b]), c);
  }
}
