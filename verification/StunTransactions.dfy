/** Outgoing STUN transactions as a system of interleaved steps: callers that register, send
    and wait, or are cancelled at a point where they wait; socket dispatchers that claim
    datagrams and hand them over; and close. The shared table of pending transactions is
    updated under a lock, one entry at a time, and anything may happen between two such
    updates. */
module StunTransactions {
  import opened Candidate
  import opened StunBytes
  import opened StunBinding
  import opened StunExchange

  /** A datagram received on some socket; `serial` tells datagrams apart. */
  datatype Datagram = Datagram(serial: nat, data: Bytes)

  datatype Outcome = Got(datagram: Datagram) | SenderDropped | TimedOut | SendFailed

  /** Where a caller of send-and-await stands. */
  datatype Caller =
    | Sending
    | Awaiting
    | Leaving(decided: Outcome)
    | Returned(outcome: Outcome)
    | Abandoned                     // dropped with its future, before it could return

  /** Receiver side of the one-shot channel. */
  datatype Channel = Empty | Full(datagram: Datagram)

  /** A dispatcher that has removed the entry for `txn` and not yet sent to its channel. */
  datatype Claim = Claim(txn: Bytes, datagram: Datagram)

  datatype State = State(callers: map<Bytes, Caller>, channels: map<Bytes, Channel>, pending: set<Bytes>,
                         claims: map<nat, Claim>, claimed: map<nat, Bytes>, answered: set<nat>,
                         nextSerial: nat, closed: bool)

  datatype Step =
    | Begin(txn: Bytes)                                      // register in the table
    | Sent(txn: Bytes)                                       // the socket took the message
    | SendError(txn: Bytes)                                  // the socket refused it
    | Receive(socket: nat, bytes: Bytes, from: SocketAddr)   // a dispatcher reads a datagram
    | HandOver(socket: nat)                                  // it sends to the claimed channel
    | Wake(txn: Bytes)                                       // the caller sees its channel full
    | SeeDropped(txn: Bytes)                                 // the caller sees its sender gone
    | Timeout(txn: Bytes)
    | Finish(txn: Bytes)                                     // the caller removes its entry and returns
    | Cancel(txn: Bytes)                                     // an outer timeout drops the caller
    | Close                                                  // the agent clears the table

  /** Identity and key of the agent. */
  datatype Agent = Agent(mac: Mac, ufrag: Bytes, pwd: Bytes)

  const INIT: State := State(map[], map[], {}, map[], map[], {}, 0, false)

  predicate IsWaiting(s: State, txn: Bytes) {
    txn in s.callers && s.callers[txn] == Awaiting && txn in s.channels
  }

  /** The sender half of the channel is in the table or in a dispatcher's hands. */
  predicate SenderAlive(s: State, txn: Bytes) {
    txn in s.pending || exists k :: k in s.claims && s.claims[k].txn == txn
  }

  /** A caller that is gone and will do nothing more. */
  predicate Gone(c: Caller) {
    c.Returned? || c.Abandoned?
  }

  predicate Enabled(s: State, step: Step) {
    match step
    case Begin(txn) => txn !in s.callers                     // transaction numbers are fresh
    case Sent(txn) => txn in s.callers && s.callers[txn] == Sending
    case SendError(txn) => txn in s.callers && s.callers[txn] == Sending
    case Receive(socket, _, _) => socket !in s.claims
    case HandOver(socket) => socket in s.claims
    case Wake(txn) => IsWaiting(s, txn) && s.channels[txn].Full?
    case SeeDropped(txn) => IsWaiting(s, txn) && s.channels[txn].Empty? && !SenderAlive(s, txn)
    case Timeout(txn) => IsWaiting(s, txn) && s.channels[txn].Empty?
    case Finish(txn) => txn in s.callers && s.callers[txn].Leaving?
    case Cancel(txn) => txn in s.callers && !Gone(s.callers[txn])
    case Close => true
  }

  function OnReceive(a: Agent, s: State, socket: nat, bytes: Bytes, from: SocketAddr): State {
    var n := s.nextSerial;
    match Dispatch(a.mac, s.pending, bytes, from, a.ufrag, a.pwd)
    case Drop => s.(nextSerial := n + 1)
    case Deliver(txn, data) =>
      s.(pending := s.pending - {txn}, claims := s.claims[socket := Claim(txn, Datagram(n, data))],
         claimed := s.claimed[n := txn], nextSerial := n + 1)
    case Reply(_) => s.(answered := s.answered + {n}, nextSerial := n + 1)
  }

  /** Sending fails silently once the caller has stopped waiting. */
  function OnHandOver(s: State, socket: nat): State
    requires socket in s.claims
  {
    var claim := s.claims[socket];
    var listening := claim.txn in s.callers && s.callers[claim.txn] in {Sending, Awaiting};
    s.(claims := s.claims - {socket},
       channels := if listening then s.channels[claim.txn := Full(claim.datagram)] else s.channels)
  }

  function Apply(a: Agent, s: State, step: Step): State
    requires Enabled(s, step)
  {
    match step
    case Begin(txn) =>
      s.(callers := s.callers[txn := Sending], channels := s.channels[txn := Empty], pending := s.pending + {txn})
    case Sent(txn) => s.(callers := s.callers[txn := Awaiting])
    case SendError(txn) => s.(callers := s.callers[txn := Leaving(SendFailed)])
    case Receive(socket, bytes, from) => OnReceive(a, s, socket, bytes, from)
    case HandOver(socket) => OnHandOver(s, socket)
    case Wake(txn) => s.(callers := s.callers[txn := Leaving(Got(s.channels[txn].datagram))])
    case SeeDropped(txn) => s.(callers := s.callers[txn := Leaving(SenderDropped)])
    case Timeout(txn) => s.(callers := s.callers[txn := Leaving(TimedOut)])
    case Finish(txn) =>
      s.(callers := s.callers[txn := Returned(s.callers[txn].decided)], pending := s.pending - {txn})
    case Cancel(txn) => s.(callers := s.callers[txn := Abandoned])
    case Close => s.(pending := {}, closed := true)
  }

  ghost predicate IsRun(a: Agent, states: seq<State>, steps: seq<Step>) {
    && |states| == |steps| + 1
    && states[0] == INIT
    && forall i :: 0 <= i < |steps| ==>
         Enabled(states[i], steps[i]) && states[i + 1] == Apply(a, states[i], steps[i])
  }

  // ---- Invariant ----

  /** A datagram in the hands of transaction `txn` was claimed for it and carries its number. */
  ghost predicate Belongs(s: State, txn: Bytes, d: Datagram) {
    && d.serial in s.claimed && s.claimed[d.serial] == txn
    && |d.data| >= HEADER && d.data[8..20] == txn
  }

  ghost predicate OutcomeOk(s: State, txn: Bytes, o: Outcome)
    requires txn in s.channels
  {
    && (o.TimedOut? ==> s.channels[txn].Empty?)
    && (o.Got? ==> Belongs(s, txn, o.datagram))
    && (o.SenderDropped? ==> s.closed)
  }

  ghost predicate CallerOk(s: State, txn: Bytes, c: Caller)
    requires txn in s.channels
  {
    match c
    case Sending => s.channels[txn].Empty? && !s.closed ==> SenderAlive(s, txn)
    case Awaiting => s.channels[txn].Empty? && !s.closed ==> SenderAlive(s, txn)
    case Leaving(o) => OutcomeOk(s, txn, o)
    case Returned(o) => OutcomeOk(s, txn, o) && txn !in s.pending
    case Abandoned => true
  }

  ghost predicate CallersOk(s: State) {
    && s.pending <= s.callers.Keys
    && s.channels.Keys == s.callers.Keys
    && forall txn :: txn in s.callers ==> CallerOk(s, txn, s.callers[txn])
  }

  ghost predicate DatagramsOk(s: State) {
    && (forall txn :: txn in s.channels && s.channels[txn].Full? ==> Belongs(s, txn, s.channels[txn].datagram))
    && (forall k :: k in s.claims ==>
          Belongs(s, s.claims[k].txn, s.claims[k].datagram) && s.claims[k].txn in s.callers)
    && (forall n :: n in s.claimed ==> n < s.nextSerial && n !in s.answered)
    && (forall n :: n in s.answered ==> n < s.nextSerial)
  }

  ghost predicate Inv(s: State) {
    CallersOk(s) && DatagramsOk(s)
  }

  lemma DeliverMatches(a: Agent, pending: set<Bytes>, bytes: Bytes, from: SocketAddr)
    requires Dispatch(a.mac, pending, bytes, from, a.ufrag, a.pwd).Deliver?
    ensures var action := Dispatch(a.mac, pending, bytes, from, a.ufrag, a.pwd);
            action.txn in pending && |action.data| >= HEADER && action.data[8..20] == action.txn
  {
  }

  /** Claiming a datagram: the general form of a delivering receive. */
  function Claiming(s: State, socket: nat, txn: Bytes, data: Bytes): State {
    s.(pending := s.pending - {txn}, claims := s.claims[socket := Claim(txn, Datagram(s.nextSerial, data))],
       claimed := s.claimed[s.nextSerial := txn], nextSerial := s.nextSerial + 1)
  }

  lemma ClaimKeepsInv(s: State, socket: nat, txn: Bytes, data: Bytes)
    requires Inv(s) && socket !in s.claims && txn in s.pending && |data| >= HEADER && data[8..20] == txn
    ensures Inv(Claiming(s, socket, txn, data))
  {
    var t := Claiming(s, socket, txn, data);
    forall x | x in t.callers ensures CallerOk(t, x, t.callers[x]) {
      assert CallerOk(s, x, s.callers[x]);
      StillAlive(s, t, socket, x);
    }
  }

  lemma StillAlive(s: State, t: State, socket: nat, txn: Bytes)
    requires SenderAlive(s, txn) ==> txn in t.pending || socket !in s.claims
    requires socket in t.claims && forall k :: k in s.claims ==> k in t.claims && t.claims[k] == s.claims[k]
    requires forall x :: x in s.pending ==> x in t.pending || t.claims[socket].txn == x
    ensures SenderAlive(s, txn) ==> SenderAlive(t, txn)
  {
  }

  lemma ReceiveKeepsInv(a: Agent, s: State, socket: nat, bytes: Bytes, from: SocketAddr)
    requires Inv(s) && socket !in s.claims
    ensures Inv(OnReceive(a, s, socket, bytes, from))
  {
    match Dispatch(a.mac, s.pending, bytes, from, a.ufrag, a.pwd) {
      case Deliver(txn, data) =>
        DeliverMatches(a, s.pending, bytes, from);
        ClaimKeepsInv(s, socket, txn, data);
        assert OnReceive(a, s, socket, bytes, from) == Claiming(s, socket, txn, data);
      case _ => SameTables(s, OnReceive(a, s, socket, bytes, from));
    }
  }

  lemma SameTables(s: State, t: State)
    requires Inv(s) && t.callers == s.callers && t.channels == s.channels
    requires t.pending == s.pending && t.claims == s.claims
    requires t.claimed == s.claimed && t.closed == s.closed && s.nextSerial < t.nextSerial
    requires forall n :: n in t.answered ==> n in s.answered || n == s.nextSerial
    ensures Inv(t)
  {
  }

  lemma HandOverKeepsInv(s: State, socket: nat)
    requires Inv(s) && socket in s.claims
    ensures Inv(OnHandOver(s, socket))
  {
    var t := OnHandOver(s, socket);
    var done := s.claims[socket].txn;
    forall x | x in t.callers ensures CallerOk(t, x, t.callers[x]) {
      assert CallerOk(s, x, s.callers[x]);
      if x != done && SenderAlive(s, x) && x !in s.pending {
        var k :| k in s.claims && s.claims[k].txn == x;
        assert t.claims[k].txn == x;
      }
    }
  }

  lemma BeginKeepsInv(a: Agent, s: State, txn: Bytes)
    requires Inv(s) && txn !in s.callers
    ensures Inv(Apply(a, s, Begin(txn)))
  {
  }

  /** A caller moves on: Sent, SendError, Wake, SeeDropped, Timeout and Cancel. */
  lemma MoveKeepsInv(s: State, txn: Bytes, c: Caller)
    requires Inv(s) && txn in s.callers && CallerOk(s, txn, c) && !c.Returned?
    ensures Inv(s.(callers := s.callers[txn := c]))
  {
  }

  lemma FinishKeepsInv(a: Agent, s: State, txn: Bytes)
    requires Inv(s) && Enabled(s, Finish(txn))
    ensures Inv(Apply(a, s, Finish(txn)))
  {
    var t := Apply(a, s, Finish(txn));
    forall x | x in t.callers ensures CallerOk(t, x, t.callers[x]) {
      assert CallerOk(s, x, s.callers[x]);
      assert x != txn && SenderAlive(s, x) ==> SenderAlive(t, x);
    }
  }

  lemma CloseKeepsInv(a: Agent, s: State)
    requires Inv(s)
    ensures Inv(Apply(a, s, Close))
  {
  }

  lemma StepKeepsInv(a: Agent, s: State, step: Step)
    requires Inv(s) && Enabled(s, step)
    ensures Inv(Apply(a, s, step))
  {
    match step {
      case Begin(txn) => BeginKeepsInv(a, s, txn);
      case Sent(txn) => MoveKeepsInv(s, txn, Awaiting);
      case SendError(txn) => MoveKeepsInv(s, txn, Leaving(SendFailed));
      case Receive(socket, bytes, from) => ReceiveKeepsInv(a, s, socket, bytes, from);
      case HandOver(socket) => HandOverKeepsInv(s, socket);
      case Wake(txn) => MoveKeepsInv(s, txn, Leaving(Got(s.channels[txn].datagram)));
      case SeeDropped(txn) => MoveKeepsInv(s, txn, Leaving(SenderDropped));
      case Timeout(txn) => MoveKeepsInv(s, txn, Leaving(TimedOut));
      case Finish(txn) => FinishKeepsInv(a, s, txn);
      case Cancel(txn) => MoveKeepsInv(s, txn, Abandoned);
      case Close => CloseKeepsInv(a, s);
    }
  }

  /** Every reachable state satisfies the invariant, whatever the interleaving. */
  lemma {:induction false} RunKeepsInv(a: Agent, states: seq<State>, steps: seq<Step>, n: nat)
    requires IsRun(a, states, steps) && n < |states|
    ensures Inv(states[n])
  {
    if n > 0 {
      RunKeepsInv(a, states, steps, n - 1);
      StepKeepsInv(a, states[n - 1], steps[n - 1]);
    }
  }

  // ---- What it means ----

  /** A transaction completes at most once: once its caller has returned or was dropped, that
      never changes. */
  lemma {:induction false} CompletesOnce(a: Agent, states: seq<State>, steps: seq<Step>, m: nat, n: nat, txn: Bytes)
    requires IsRun(a, states, steps) && m <= n < |states|
    requires txn in states[m].callers && Gone(states[m].callers[txn])
    ensures txn in states[n].callers && states[n].callers[txn] == states[m].callers[txn]
    decreases n
  {
    if m < n {
      CompletesOnce(a, states, steps, m, n - 1, txn);
      GoneStays(a, states[n - 1], steps[n - 1], txn);
    }
  }

  lemma GoneStays(a: Agent, s: State, step: Step, txn: Bytes)
    requires Enabled(s, step) && txn in s.callers && Gone(s.callers[txn])
    ensures txn in Apply(a, s, step).callers && Apply(a, s, step).callers[txn] == s.callers[txn]
  {
  }

  /** It completes only with bytes that carry its own number, not for want of a sender unless the
      agent was closed, and times out only if no bytes ever reached it. */
  lemma CompletesWithItsOwnBytes(a: Agent, states: seq<State>, steps: seq<Step>, n: nat, txn: Bytes)
    requires IsRun(a, states, steps) && n < |states|
    requires txn in states[n].callers && states[n].callers[txn].Returned?
    ensures var o := states[n].callers[txn].outcome;
            && (o.Got? ==> |o.datagram.data| >= HEADER && o.datagram.data[8..20] == txn)
            && (o.SenderDropped? ==> states[n].closed)
            && (o.TimedOut? ==> txn in states[n].channels && states[n].channels[txn].Empty?)
  {
    RunKeepsInv(a, states, steps, n);
    assert CallerOk(states[n], txn, states[n].callers[txn]);
  }

  /** A datagram completes at most one transaction and is then never answered as a request. */
  lemma DatagramHasOneFate(a: Agent, states: seq<State>, steps: seq<Step>, n: nat, x: Bytes, y: Bytes)
    requires IsRun(a, states, steps) && n < |states|
    requires x in states[n].callers && states[n].callers[x].Returned? && states[n].callers[x].outcome.Got?
    requires y in states[n].callers && states[n].callers[y].Returned? && states[n].callers[y].outcome.Got?
    ensures var d, e := states[n].callers[x].outcome.datagram, states[n].callers[y].outcome.datagram;
            d.serial !in states[n].answered && (d.serial == e.serial ==> x == y)
  {
    RunKeepsInv(a, states, steps, n);
    assert CallerOk(states[n], x, states[n].callers[x]);
    assert CallerOk(states[n], y, states[n].callers[y]);
  }

  // ---- Entries that outlive their caller ----

  /** A datagram of acceptable size that carries the number. */
  predicate Carries(bytes: Bytes, txn: Bytes) {
    HEADER <= |bytes| < RECEIVE_BUFFER && bytes[8..20] == txn
  }

  /** The steps that take an entry out of the table, other than by its own caller. */
  predicate Clears(step: Step, txn: Bytes) {
    step.Close? || (step.Receive? && Carries(step.bytes, txn))
  }

  /** No step from `from` on takes the entry out of the table. */
  ghost predicate Untouched(steps: seq<Step>, txn: Bytes, from: nat) {
    forall k :: from <= k < |steps| ==> !Clears(steps[k], txn) && steps[k] != Finish(txn)
  }

  /** The table still has an entry whose caller is gone. */
  predicate Orphaned(s: State, txn: Bytes) {
    txn in s.pending && (txn in s.callers ==> Gone(s.callers[txn]))
  }

  /** The caller was cancelled, and since it registered nothing has cleared the entry. */
  ghost predicate CancelledUnclaimed(steps: seq<Step>, txn: Bytes) {
    exists b, m :: 0 <= b < m < |steps| && steps[b] == Begin(txn) && steps[m] == Cancel(txn)
                   && forall k :: b < k < |steps| ==> !Clears(steps[k], txn)
  }

  /** What one step does to one entry. */
  lemma EntryStep(a: Agent, s: State, step: Step, txn: Bytes)
    requires Enabled(s, step)
    ensures txn in Apply(a, s, step).pending <==>
              step == Begin(txn) || (txn in s.pending && !Clears(step, txn) && step != Finish(txn))
  {
  }

  lemma OnlyCancelAbandons(a: Agent, s: State, step: Step, txn: Bytes)
    requires Enabled(s, step)
    ensures txn in Apply(a, s, step).callers && Apply(a, s, step).callers[txn].Abandoned? && step != Cancel(txn) ==>
              txn in s.callers && s.callers[txn].Abandoned?
  {
  }

  ghost predicate Registered(steps: seq<Step>, txn: Bytes) {
    exists b :: 0 <= b < |steps| && steps[b] == Begin(txn) && Untouched(steps, txn, b + 1)
  }

  /** An entry is in the table exactly if it was registered and nothing has removed it since. */
  lemma {:induction false} PendingIff(a: Agent, states: seq<State>, steps: seq<Step>, n: nat, txn: Bytes)
    requires IsRun(a, states, steps) && n < |states|
    ensures txn in states[n].pending <==> Registered(steps[..n], txn)
  {
    if n > 0 {
      PendingIff(a, states, steps, n - 1, txn);
      EntryStep(a, states[n - 1], steps[n - 1], txn);
      RegisteredSnoc(steps[..n - 1], steps[n - 1], txn);
      assert steps[..n] == steps[..n - 1] + [steps[n - 1]];
    }
  }

  lemma RegisteredSnoc(steps: seq<Step>, step: Step, txn: Bytes)
    ensures Registered(steps + [step], txn) <==>
              step == Begin(txn) || (Registered(steps, txn) && !Clears(step, txn) && step != Finish(txn))
  {
    var all := steps + [step];
    if step == Begin(txn) {
      assert all[|steps|] == step && Untouched(all, txn, |steps| + 1);
    } else if Registered(all, txn) {
      var b :| 0 <= b < |all| && all[b] == Begin(txn) && Untouched(all, txn, b + 1);
      assert all[|steps|] == step;
      assert forall k :: 0 <= k < |steps| ==> all[k] == steps[k];
      assert Untouched(steps, txn, b + 1);
    } else if Registered(steps, txn) {
      var b :| 0 <= b < |steps| && steps[b] == Begin(txn) && Untouched(steps, txn, b + 1);
      assert all[b] == Begin(txn);
    }
  }

  /** A caller was dropped exactly by its Cancel. */
  lemma {:induction false} AbandonedByCancel(a: Agent, states: seq<State>, steps: seq<Step>, n: nat, txn: Bytes)
    returns (m: nat)
    requires IsRun(a, states, steps) && n < |states|
    requires txn in states[n].callers && states[n].callers[txn].Abandoned?
    ensures m < n && steps[m] == Cancel(txn)
  {
    assert n > 0;
    if steps[n - 1] == Cancel(txn) {
      m := n - 1;
    } else {
      OnlyCancelAbandons(a, states[n - 1], steps[n - 1], txn);
      m := AbandonedByCancel(a, states, steps, n - 1, txn);
    }
  }

  /** A cancelled caller never finishes, before or after. */
  lemma CancelExcludesFinish(a: Agent, states: seq<State>, steps: seq<Step>, m: nat, k: nat, txn: Bytes)
    requires IsRun(a, states, steps) && m < |steps| && k < |steps| && steps[m] == Cancel(txn)
    ensures steps[k] != Finish(txn)
  {
    if steps[k] == Finish(txn) {
      if k < m {
        CompletesOnce(a, states, steps, k + 1, m, txn);
      } else {
        CompletesOnce(a, states, steps, m + 1, k, txn);
      }
    }
  }

  /** The table keeps an entry whose caller is gone if and only if that caller was cancelled
      and, since it registered, no datagram with its number has arrived and the agent has not
      been closed. The condition is about the steps alone. */
  lemma EntryOutlivesCallerIff(a: Agent, states: seq<State>, steps: seq<Step>, n: nat, txn: Bytes)
    requires IsRun(a, states, steps) && n < |states|
    ensures Orphaned(states[n], txn) <==> CancelledUnclaimed(steps[..n], txn)
  {
    if Orphaned(states[n], txn) {
      OrphanWasCancelled(a, states, steps, n, txn);
    }
    if CancelledUnclaimed(steps[..n], txn) {
      CancelLeavesOrphan(a, states, steps, n, txn);
    }
  }

  lemma OrphanWasCancelled(a: Agent, states: seq<State>, steps: seq<Step>, n: nat, txn: Bytes)
    requires IsRun(a, states, steps) && n < |states| && Orphaned(states[n], txn)
    ensures CancelledUnclaimed(steps[..n], txn)
  {
    RunKeepsInv(a, states, steps, n);
    assert CallerOk(states[n], txn, states[n].callers[txn]);
    var m := AbandonedByCancel(a, states, steps, n, txn);
    PendingIff(a, states, steps, n, txn);
    var b :| 0 <= b < n && steps[..n][b] == Begin(txn) && Untouched(steps[..n], txn, b + 1);
    if m < b {
      CompletesOnce(a, states, steps, m + 1, b, txn);
    }
    assert steps[..n][m] == Cancel(txn);
  }

  lemma CancelLeavesOrphan(a: Agent, states: seq<State>, steps: seq<Step>, n: nat, txn: Bytes)
    requires IsRun(a, states, steps) && n < |states| && CancelledUnclaimed(steps[..n], txn)
    ensures Orphaned(states[n], txn)
  {
    var b, m :| 0 <= b < m < n && steps[..n][b] == Begin(txn) && steps[..n][m] == Cancel(txn)
                && forall k :: b < k < n ==> !Clears(steps[..n][k], txn);
    forall k | b < k < n ensures steps[..n][k] != Finish(txn) {
      CancelExcludesFinish(a, states, steps, m, k, txn);
    }
    assert Untouched(steps[..n], txn, b + 1);
    PendingIff(a, states, steps, n, txn);
    CompletesOnce(a, states, steps, m + 1, n, txn);
  }

  /** The shortest such run: registered, sent, cancelled while waiting. */
  lemma CancelLeaksEntry(a: Agent, txn: Bytes) returns (states: seq<State>)
    ensures IsRun(a, states, [Begin(txn), Sent(txn), Cancel(txn)])
    ensures states[3].pending == {txn} && states[3].callers == map[txn := Abandoned]
  {
    var s1 := Apply(a, INIT, Begin(txn));
    var s2 := Apply(a, s1, Sent(txn));
    states := [INIT, s1, s2, Apply(a, s2, Cancel(txn))];
  }
}
