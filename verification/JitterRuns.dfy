/** Properties of the jitter buffer over whole runs: playout only moves forward, packets
    and pops are accounted for, and the jitter estimate and target delay stay bounded. */
module JitterRuns {
  import opened Words
  import opened Jitter

  datatype Op = DoPush(sequence: u16, timestamp: u32, samples: seq<i16>, now: nat) | DoPop | DoReset

  /** One pop as an observer sees it, with the media position of its frame. */
  datatype Record = Record(decision: Decision, position: int, samples: seq<i16>) {
    predicate PlaysFrame() {
      decision == Play || decision == Accelerate
    }
  }

  /** A buffer together with what an observer has seen. `position` is the playout point on an
      unbounded time line: it moves by the signed distance between successive playout
      timestamps. `pops` and `position` start afresh on a reset. */
  datatype Run = Run(buffer: Buffer, position: int, pops: seq<Record>, primedPops: nat,
                     discarded: nat, worst: nat)

  function Start(c: Config): Run {
    Run(Fresh(c, NO_STATS), 0, [], 0, 0, 0)
  }

  /** The signed movement of the playout timestamp between two buffer states. */
  function Movement(before: Buffer, after: Buffer): int {
    if before.nextPlayout.Some? && after.nextPlayout.Some?
    then TimestampDiff(after.nextPlayout.value, before.nextPlayout.value) else 0
  }

  function Measured(c: Config, b: Buffer, op: Op): nat {
    if op.DoPush? && b.lastArrival.Some? then Deviation(c, b.lastArrival.value, op.now, op.timestamp) else 0
  }

  function Step(c: Config, r: Run, op: Op): Run
    requires c.Valid()
  {
    match op
    case DoPush(sequence, timestamp, samples, now) =>
      var after := AfterPush(c, r.buffer, sequence, timestamp, samples, now).buffer;
      r.(buffer := after,
         position := if r.buffer.nextPlayout.None? then timestamp else r.position + Movement(r.buffer, after),
         worst := Max(r.worst, Measured(c, r.buffer, op)))
    case DoPop =>
      var p := AfterPop(c, r.buffer);
      var position := r.position + Movement(r.buffer, p.buffer);
      r.(buffer := p.buffer, position := position,
         pops := r.pops + [Record(p.decision, if p.decision == Accelerate then position else r.position, p.samples)],
         primedPops := r.primedPops + if r.buffer.primed then 1 else 0)
    case DoReset =>
      Run(Fresh(c, r.buffer.stats), 0, [], r.primedPops, r.discarded + |r.buffer.packets|, r.worst)
  }

  function RunAll(c: Config, ops: seq<Op>): Run
    requires c.Valid()
  {
    if ops == [] then Start(c)
    else Step(c, RunAll(c, ops[..|ops| - 1]), ops[|ops| - 1])
  }

  // ---- Invariants ----

  ghost predicate WellFormed(b: Buffer) {
    && (b.primed ==> b.nextPlayout.Some?)
    && (b.nextPlayout.Some? <==> b.firstPacketTime.Some?)
    && (b.nextPlayout.None? ==> b.packets == map[])
    && forall k :: k in b.packets ==> b.packets[k].timestamp == k
  }

  ghost predicate OnTimeLine(r: Run) {
    r.buffer.nextPlayout.Some? ==> Wrap32(r.position) == r.buffer.nextPlayout.value
  }

  /** How far playout must have moved past a recorded frame. */
  function Stride(c: Config, rec: Record): int {
    if rec.decision == Accelerate then 0 else c.samplesPerPacket
  }

  /** Two successive pops of a primed buffer. */
  ghost predicate Follows(c: Config, a: Record, b: Record) {
    && b.decision != Silence
    && b.position >= a.position + Stride(c, a)
    && (b.decision == Accelerate ==> b.position > a.position)
  }

  /** Playout has moved past the latest pop. */
  ghost predicate Ahead(c: Config, r: Run, last: Record) {
    last.decision != Silence ==> r.buffer.primed && r.position >= last.position + Stride(c, last)
  }

  ghost predicate Forward(c: Config, r: Run) {
    && (forall i :: 0 <= i < |r.pops| - 1 && r.pops[i].decision != Silence ==> Follows(c, r.pops[i], r.pops[i + 1]))
    && (|r.pops| > 0 ==> Ahead(c, r, r.pops[|r.pops| - 1]))
  }

  /** Every packet ever received is a duplicate, late, played, still held or dropped by a
      reset, and every pop of a primed buffer plays a packet or counts a loss. */
  ghost predicate Accounted(r: Run) {
    var s := r.buffer.stats;
    && s.received == s.duplicate + s.late + s.played + |r.buffer.packets| + r.discarded
    && r.primedPops == s.played + s.lost
  }

  ghost predicate JitterBounded(r: Run) {
    0.0 <= r.buffer.jitter <= r.worst as real
  }

  /** A push anchors playout on the first packet and never moves it afterwards. */
  lemma PushLeavesPlayout(c: Config, b: Buffer, op: Op)
    requires c.Valid() && op.DoPush?
    ensures var after := AfterPush(c, b, op.sequence, op.timestamp, op.samples, op.now).buffer;
            && after.firstPacketTime.Some?
            && after.nextPlayout == (if b.firstPacketTime.Some? then b.nextPlayout else Some(op.timestamp))
  {
  }

  lemma ShapeAfterPush(r: Run, after: Run, timestamp: u32)
    requires WellFormed(r.buffer) && OnTimeLine(r)
    requires after.buffer.firstPacketTime.Some?
    requires after.buffer.nextPlayout
             == if r.buffer.firstPacketTime.Some? then r.buffer.nextPlayout else Some(timestamp)
    requires after.position == if r.buffer.nextPlayout.None? then timestamp else r.position
    requires forall t :: t in after.buffer.packets ==> after.buffer.packets[t].timestamp == t
    ensures WellFormed(after.buffer) && OnTimeLine(after)
  {
  }

  lemma PushKeepsShape(c: Config, r: Run, op: Op)
    requires c.Valid() && op.DoPush?
    requires WellFormed(r.buffer) && OnTimeLine(r)
    ensures WellFormed(Step(c, r, op).buffer) && OnTimeLine(Step(c, r, op))
  {
    PushLeavesPlayout(c, r.buffer, op);
    PushAddsOnlyItself(c, r.buffer, op.sequence, op.timestamp, op.samples, op.now);
    ShapeAfterPush(r, Step(c, r, op), op.timestamp);
  }

  /** A primed pop moves playout by exactly one packet, or further when it skips ahead. */
  lemma PopMoves(c: Config, r: Run)
    requires c.Valid() && r.buffer.primed && r.buffer.nextPlayout.Some?
    ensures Movement(r.buffer, AfterPop(c, r.buffer).buffer) >= c.samplesPerPacket
    ensures AfterPop(c, r.buffer).decision == Accelerate ==>
              Movement(r.buffer, AfterPop(c, r.buffer).buffer) > c.samplesPerPacket
    ensures AfterPop(c, r.buffer).decision in {Play, Conceal, Accelerate}
  {
  }

  /** Moving a lifted position by the signed difference keeps it a lift. */
  lemma LiftMoves(position: int, before: u32, after: u32)
    requires Wrap32(position) == before
    ensures Wrap32(position + TimestampDiff(after, before)) == after
  {
  }

  lemma PopKeepsShape(c: Config, r: Run)
    requires c.Valid()
    requires WellFormed(r.buffer) && OnTimeLine(r)
    ensures WellFormed(Step(c, r, DoPop).buffer) && OnTimeLine(Step(c, r, DoPop))
  {
    var after := AfterPop(c, r.buffer).buffer;
    assert forall k :: k in after.packets ==> k in r.buffer.packets && after.packets[k] == r.buffer.packets[k];
    if r.buffer.nextPlayout.Some? && after.nextPlayout.Some? {
      LiftMoves(r.position, r.buffer.nextPlayout.value, after.nextPlayout.value);
    }
  }

  lemma ForwardExtends(c: Config, r: Run, after: Run, rec: Record)
    requires Forward(c, r) && after.pops == r.pops + [rec] && Ahead(c, after, rec)
    requires |r.pops| > 0 && r.pops[|r.pops| - 1].decision != Silence ==> Follows(c, r.pops[|r.pops| - 1], rec)
    ensures Forward(c, after)
  {
  }

  lemma ForwardStays(c: Config, r: Run, after: Run)
    requires Forward(c, r) && after.pops == r.pops
    requires r.buffer.primed ==> after.buffer.primed && after.position >= r.position
    ensures Forward(c, after)
  {
  }

  lemma PushStaysPrimed(c: Config, r: Run, op: Op)
    requires c.Valid() && op.DoPush? && WellFormed(r.buffer)
    ensures r.buffer.primed ==> Step(c, r, op).buffer.primed && Step(c, r, op).position == r.position
  {
  }

  lemma StepKeepsForward(c: Config, r: Run, op: Op)
    requires c.Valid() && WellFormed(r.buffer) && Forward(c, r)
    ensures Forward(c, Step(c, r, op))
  {
    var after := Step(c, r, op);
    match op {
      case DoPush(_, _, _, _) =>
        PushStaysPrimed(c, r, op);
        ForwardStays(c, r, after);
      case DoPop =>
        if r.buffer.primed {
          PopMoves(c, r);
        }
        ForwardExtends(c, r, after, after.pops[|r.pops|]);
      case DoReset =>
    }
  }

  /** A push counts the packet once: as a duplicate, as late, or by storing it. */
  lemma PushCounts(c: Config, b: Buffer, op: Op)
    requires c.Valid() && op.DoPush?
    ensures var p := AfterPush(c, b, op.sequence, op.timestamp, op.samples, op.now);
            var s, t := b.stats, p.buffer.stats;
            && t.received == s.received + 1 && t.played == s.played && t.lost == s.lost
            && t.duplicate + t.late + |p.buffer.packets| == s.duplicate + s.late + |b.packets| + 1
            && (p.accepted <==> |p.buffer.packets| == |b.packets| + 1)
  {
  }

  /** A pop of a primed buffer either removes a packet and plays it, or counts a loss. */
  lemma PopCounts(c: Config, b: Buffer)
    requires b.primed ==> b.nextPlayout.Some?
    ensures var p := AfterPop(c, b);
            var s, t := b.stats, p.buffer.stats;
            && t.received == s.received && t.duplicate == s.duplicate && t.late == s.late
            && t.played + |p.buffer.packets| == s.played + |b.packets|
            && t.played + t.lost == s.played + s.lost + (if b.primed then 1 else 0)
  {
  }

  lemma StepKeepsAccounts(c: Config, r: Run, op: Op)
    requires c.Valid() && WellFormed(r.buffer) && Accounted(r)
    ensures Accounted(Step(c, r, op))
  {
    match op {
      case DoPush(_, _, _, _) => PushCounts(c, r.buffer, op);
      case DoPop => PopCounts(c, r.buffer);
      case DoReset =>
    }
  }

  lemma StepKeepsJitter(c: Config, r: Run, op: Op)
    requires c.Valid() && JitterBounded(r)
    ensures JitterBounded(Step(c, r, op))
  {
  }

  ghost predicate Inv(c: Config, r: Run) {
    WellFormed(r.buffer) && OnTimeLine(r) && Forward(c, r) && Accounted(r) && JitterBounded(r)
  }

  lemma StepKeepsShape(c: Config, r: Run, op: Op)
    requires c.Valid() && WellFormed(r.buffer) && OnTimeLine(r)
    ensures WellFormed(Step(c, r, op).buffer) && OnTimeLine(Step(c, r, op))
  {
    match op {
      case DoPush(_, _, _, _) => PushKeepsShape(c, r, op);
      case DoPop => PopKeepsShape(c, r);
      case DoReset =>
    }
  }

  lemma StepKeepsInv(c: Config, r: Run, op: Op, after: Run)
    requires c.Valid() && Inv(c, r) && after == Step(c, r, op)
    ensures Inv(c, after)
  {
    StepKeepsShape(c, r, op);
    StepKeepsForward(c, r, op);
    StepKeepsAccounts(c, r, op);
    StepKeepsJitter(c, r, op);
  }

  /** Every reachable state satisfies the invariants, whatever the operations and times. */
  lemma {:induction false} RunKeepsInv(c: Config, ops: seq<Op>)
    requires c.Valid()
    ensures Inv(c, RunAll(c, ops))
  {
    if ops != [] {
      RunKeepsInv(c, ops[..|ops| - 1]);
      StepKeepsInv(c, RunAll(c, ops[..|ops| - 1]), ops[|ops| - 1], RunAll(c, ops));
    }
  }

  /** Playout never goes backwards: from the first audible pop on there is no silence until a
      reset, and later pops have later positions. Two pops share a position only when the
      second comes straight after a skip ahead. */
  lemma {:induction false} PlayoutNeverGoesBack(c: Config, ops: seq<Op>, i: nat, j: nat)
    requires c.Valid()
    requires i < j < |RunAll(c, ops).pops| && RunAll(c, ops).pops[i].decision != Silence
    ensures RunAll(c, ops).pops[j].decision != Silence
    ensures RunAll(c, ops).pops[i].position <= RunAll(c, ops).pops[j].position
    ensures RunAll(c, ops).pops[i].position == RunAll(c, ops).pops[j].position ==>
              j == i + 1 && RunAll(c, ops).pops[i].decision == Accelerate
    decreases j
  {
    RunKeepsInv(c, ops);
    PositionsGrow(c, RunAll(c, ops).pops, i, j);
  }

  lemma {:induction false} PositionsGrow(c: Config, pops: seq<Record>, i: nat, j: nat)
    requires c.Valid() && i < j < |pops| && pops[i].decision != Silence
    requires forall k :: 0 <= k < |pops| - 1 && pops[k].decision != Silence ==> Follows(c, pops[k], pops[k + 1])
    ensures pops[j].decision != Silence
    ensures pops[j].position >= pops[i].position + Stride(c, pops[i])
    ensures j > i + 1 || pops[j].decision == Accelerate ==> pops[j].position > pops[i].position
    decreases j
  {
    assert Follows(c, pops[i], pops[i + 1]);
    if j > i + 1 {
      PositionsGrow(c, pops, i, j - 1);
      assert Follows(c, pops[j - 1], pops[j]);
    }
  }

  /** Over every run: each packet received was a duplicate, late, played, is still held or
      was discarded by a reset; each pop of a primed buffer played or lost one packet; and the
      jitter estimate lies between zero and the largest deviation seen. */
  lemma AccountsBalance(c: Config, ops: seq<Op>)
    requires c.Valid()
    ensures var r := RunAll(c, ops);
            var s := r.buffer.stats;
            && s.received == s.duplicate + s.late + s.played + |r.buffer.packets| + r.discarded
            && r.primedPops == s.played + s.lost
            && 0.0 <= r.buffer.jitter <= r.worst as real
  {
    RunKeepsInv(c, ops);
  }

  // ---- Nothing is invented ----

  ghost predicate WasPushed(ops: seq<Op>, timestamp: u32, samples: seq<i16>) {
    exists k :: 0 <= k < |ops| && ops[k].DoPush? && ops[k].timestamp == timestamp && ops[k].samples == samples
  }

  ghost predicate Genuine(ops: seq<Op>, r: Run) {
    && (forall t :: t in r.buffer.packets ==> WasPushed(ops, t, r.buffer.packets[t].samples))
    && (forall i :: 0 <= i < |r.pops| && r.pops[i].PlaysFrame() ==>
          WasPushed(ops, Wrap32(r.pops[i].position), r.pops[i].samples))
  }

  lemma PushedEarlier(ops: seq<Op>, timestamp: u32, samples: seq<i16>)
    requires ops != [] && WasPushed(ops[..|ops| - 1], timestamp, samples)
    ensures WasPushed(ops, timestamp, samples)
  {
  }

  /** A popped frame is the stored packet of its own media position. */
  lemma PopTakesItsPosition(c: Config, r: Run)
    requires c.Valid() && WellFormed(r.buffer) && OnTimeLine(r)
    ensures var p, after := AfterPop(c, r.buffer), Step(c, r, DoPop);
            var rec := after.pops[|r.pops|];
            && (rec.PlaysFrame() ==>
                  Wrap32(rec.position) in r.buffer.packets &&
                  rec.samples == r.buffer.packets[Wrap32(rec.position)].samples)
            && forall t :: t in after.buffer.packets ==>
                 t in r.buffer.packets && after.buffer.packets[t] == r.buffer.packets[t]
  {
    PopKeepsShape(c, r);
  }

  lemma PushAddsOnlyItself(c: Config, b: Buffer, sequence: u16, timestamp: u32, samples: seq<i16>, now: nat)
    requires c.Valid()
    ensures var after := AfterPush(c, b, sequence, timestamp, samples, now).buffer;
            forall t :: t in after.packets ==>
              || (t in b.packets && after.packets[t] == b.packets[t])
              || (t == timestamp && after.packets[t] == Packet(sequence, timestamp, samples, now))
  {
  }

  /** Every frame played was pushed with the timestamp of the position it is played at. */
  lemma {:induction false} PlayedFramesWerePushed(c: Config, ops: seq<Op>)
    requires c.Valid()
    ensures Genuine(ops, RunAll(c, ops))
  {
    if ops != [] {
      var earlier, op := ops[..|ops| - 1], ops[|ops| - 1];
      var r, after := RunAll(c, earlier), RunAll(c, ops);
      PlayedFramesWerePushed(c, earlier);
      RunKeepsInv(c, earlier);
      StepIsGenuine(c, ops, r, op, after);
    }
  }

  lemma StepIsGenuine(c: Config, ops: seq<Op>, r: Run, op: Op, after: Run)
    requires c.Valid() && WellFormed(r.buffer) && OnTimeLine(r)
    requires ops != [] && op == ops[|ops| - 1] && Genuine(ops[..|ops| - 1], r) && after == Step(c, r, op)
    ensures Genuine(ops, after)
  {
    match op {
      case DoPush(sequence, timestamp, samples, now) =>
        PushAddsOnlyItself(c, r.buffer, sequence, timestamp, samples, now);
      case DoPop => PopTakesItsPosition(c, r);
      case DoReset =>
    }
    forall t | t in after.buffer.packets
      ensures WasPushed(ops, t, after.buffer.packets[t].samples)
    {
      if t in r.buffer.packets && after.buffer.packets[t] == r.buffer.packets[t] {
        PushedEarlier(ops, t, r.buffer.packets[t].samples);
      }
    }
    forall i | 0 <= i < |after.pops| && after.pops[i].PlaysFrame()
      ensures WasPushed(ops, Wrap32(after.pops[i].position), after.pops[i].samples)
    {
      if i < |r.pops| {
        PushedEarlier(ops, Wrap32(r.pops[i].position), r.pops[i].samples);
      } else {
        PushedEarlier(ops, Wrap32(after.pops[i].position), after.pops[i].samples);
      }
    }
  }
}
