/** What becomes of a stored packet. Playout takes a packet only when it lands on it; one that
    it passes by stays in the buffer, unplayed, until the next reset. */
module JitterFate {
  import opened Words
  import opened Jitter
  import opened JitterRuns

  /** Distance from the playout point to a timestamp, negative once playout has passed it. */
  function Distance(b: Buffer, t: u32): int
    requires b.nextPlayout.Some?
  {
    TimestampDiff(t, b.nextPlayout.value)
  }

  /** The next pop skips ahead to the smallest key. */
  predicate Skips(c: Config, b: Buffer)
    requires b.nextPlayout.Some?
  {
    && b.nextPlayout.value !in b.packets && b.packets != map[]
    && Distance(b, SmallestKey(b.packets)) > Max(c.samplesPerPacket, SkipThreshold(b.targetDelay))
  }

  /** How far the next pop moves the playout point. */
  function Reach(c: Config, b: Buffer): int
    requires b.nextPlayout.Some?
  {
    if Skips(c, b) then Distance(b, SmallestKey(b.packets)) else c.samplesPerPacket
  }

  /** The next pop passes the stored packet t by: it lies strictly within the pop's reach, so
      off the packet grid, or jumped over by a skip across the wrap. */
  predicate PassesBy(c: Config, b: Buffer, t: u32) {
    b.primed && b.nextPlayout.Some? && t in b.packets && 0 < Distance(b, t) < Reach(c, b)
  }

  // ---- One operation ----

  lemma PopTakes(c: Config, b: Buffer)
    requires b.primed && b.nextPlayout.Some?
    ensures var p := AfterPop(c, b);
            var playout := b.nextPlayout.value;
            && p.buffer.primed
            && (Skips(c, b) ==>
                  var m := SmallestKey(b.packets);
                  p.decision == Accelerate && p.buffer.packets == b.packets - {m} && p.buffer.nextPlayout == Some(m)
                  && p.samples == b.packets[m].samples)
            && (!Skips(c, b) ==> p.buffer.nextPlayout == Some(Wrap32(playout as int + c.samplesPerPacket)))
            && (playout in b.packets ==> p.decision == Play && p.buffer.packets == b.packets - {playout}
                                         && p.samples == b.packets[playout].samples)
            && (!Skips(c, b) && playout !in b.packets ==> p.decision == Conceal && p.buffer.packets == b.packets)
  {
  }

  lemma Advance(playout: u32, k: nat)
    requires k < TWO31
    ensures TimestampDiff(Wrap32(playout as int + k), playout) == k
  {
  }

  lemma PopReaches(c: Config, b: Buffer)
    requires c.Valid() && b.primed && b.nextPlayout.Some?
    ensures Movement(b, AfterPop(c, b).buffer) == Reach(c, b) >= c.samplesPerPacket
  {
    PopTakes(c, b);
    Advance(b.nextPlayout.value, c.samplesPerPacket);
  }

  lemma WrapOfDifference(p: int, q: int)
    ensures Wrap32(Wrap32(q) - Wrap32(p)) == Wrap32(q - p)
  {
    var n := 0x1_0000_0000;
    var i, j := q / n, p / n;
    assert Wrap32(q) - Wrap32(p) == (q - p) - n * (i - j);
    assert (q - p) == n * ((q - p) / n) + (q - p) % n;
  }

  /** Positions on the unbounded time line that are less than half the timestamp space apart
      are as far apart as their timestamps. */
  lemma Apart(position: int, q: int)
    requires -TWO31 <= q - position < TWO31
    ensures TimestampDiff(Wrap32(q), Wrap32(position)) == q - position
  {
    WrapOfDifference(position, q);
  }

  /** Different timestamps are at different distances. */
  lemma SameDistance(playout: u32, s: u32, t: u32)
    requires TimestampDiff(s, playout) == TimestampDiff(t, playout)
    ensures s == t
  {
  }

  // ---- The fate of one packet ----

  /** Where the packet stored for position q of the time line stands. */
  datatype Fate = Waiting | Played | Stranded

  /** One of the pops from number `from` on has played a frame at position q. */
  ghost predicate PlayedAt(pops: seq<Record>, from: nat, q: int) {
    exists i :: from <= i < |pops| && pops[i].PlaysFrame() && pops[i].position == q
  }

  /** One of them has played this very frame there. */
  ghost predicate PlayedAs(pops: seq<Record>, from: nat, q: int, samples: seq<i16>) {
    exists i :: from <= i < |pops| && pops[i].PlaysFrame() && pops[i].position == q && pops[i].samples == samples
  }

  /** The packet is stored. */
  predicate IsStored(b: Buffer, q: int, packet: Packet) {
    Wrap32(q) in b.packets && b.packets[Wrap32(q)] == packet
  }

  /** The time line is within half the timestamp space of q. */
  predicate Near(r: Run, q: int) {
    -TWO31 <= q - r.position < TWO31
  }

  ghost predicate Stands(r: Run, from: nat, q: int, packet: Packet, fate: Fate) {
    && WellFormed(r.buffer) && OnTimeLine(r) && r.buffer.nextPlayout.Some? && from <= |r.pops|
    && (PlayedAt(r.pops, from, q) <==> fate == Played)
    && match fate
       case Waiting => q >= r.position && IsStored(r.buffer, q, packet)
       case Stranded => q < r.position && IsStored(r.buffer, q, packet)
       case Played =>
         && q <= r.position && (Wrap32(q) in r.buffer.packets ==> q == r.position)
         && PlayedAs(r.pops, from, q, packet.samples)
  }

  /** The next pop lands on the packet. */
  predicate LandsOn(c: Config, r: Run, q: int) {
    && r.buffer.primed && r.buffer.nextPlayout.Some?
    && (q == r.position || (Skips(c, r.buffer) && q == r.position + Reach(c, r.buffer)))
  }

  /** What a pop makes of it. */
  function NextFate(c: Config, r: Run, q: int, fate: Fate): Fate {
    if fate != Waiting then fate
    else if PassesBy(c, r.buffer, Wrap32(q)) then Stranded
    else if LandsOn(c, r, q) then Played
    else Waiting
  }

  lemma PushKeepsFate(c: Config, r: Run, from: nat, q: int, packet: Packet, op: Op, fate: Fate)
    requires c.Valid() && op.DoPush? && Near(r, q) && Stands(r, from, q, packet, fate)
    ensures Stands(Step(c, r, op), from, q, packet, fate) && Step(c, r, op).position == r.position
  {
    PushKeepsShape(c, r, op);
    PushLeavesPlayout(c, r.buffer, op);
    Apart(r.position, q);
    PushTouchesOnlyNew(c, r.buffer, op);
  }

  /** A push leaves stored packets alone and refuses timestamps that playout has passed. */
  lemma PushTouchesOnlyNew(c: Config, b: Buffer, op: Op)
    requires c.Valid() && op.DoPush? && b.nextPlayout.Some? && b.firstPacketTime.Some?
    ensures var after := AfterPush(c, b, op.sequence, op.timestamp, op.samples, op.now).buffer;
            && (forall t :: t in b.packets ==> t in after.packets && after.packets[t] == b.packets[t])
            && (forall t :: t in after.packets && t !in b.packets ==> Distance(b, t) >= 0)
  {
  }

  lemma PlayedSnoc(pops: seq<Record>, rec: Record, from: nat, q: int)
    requires from <= |pops|
    ensures PlayedAt(pops + [rec], from, q) <==> PlayedAt(pops, from, q) || (rec.PlaysFrame() && rec.position == q)
    ensures forall samples :: PlayedAs(pops, from, q, samples) ==> PlayedAs(pops + [rec], from, q, samples)
    ensures rec.PlaysFrame() && rec.position == q ==> PlayedAs(pops + [rec], from, q, rec.samples)
  {
    forall samples | PlayedAs(pops, from, q, samples) ensures PlayedAs(pops + [rec], from, q, samples) {
      var i :| from <= i < |pops| && pops[i].PlaysFrame() && pops[i].position == q && pops[i].samples == samples;
      assert (pops + [rec])[i] == pops[i];
    }
    if PlayedAt(pops, from, q) {
      var i :| from <= i < |pops| && pops[i].PlaysFrame() && pops[i].position == q;
      assert (pops + [rec])[i] == pops[i];
    }
    assert (pops + [rec])[|pops|] == rec;
  }

  /** A pop of a primed buffer, in terms of the time line. */
  lemma PopOnTimeLine(c: Config, r: Run)
    requires c.Valid() && WellFormed(r.buffer) && OnTimeLine(r) && r.buffer.primed
    ensures var after := Step(c, r, DoPop);
            && WellFormed(after.buffer) && OnTimeLine(after) && after.buffer.nextPlayout.Some?
            && after.position == r.position + Reach(c, r.buffer) > r.position
            && |after.pops| == |r.pops| + 1 && after.pops == r.pops + [after.pops[|r.pops|]]
            && var rec := after.pops[|r.pops|];
               && (rec.decision == Accelerate <==> Skips(c, r.buffer))
               && (rec.decision == Play <==> r.buffer.nextPlayout.value in r.buffer.packets)
               && rec.position == if Skips(c, r.buffer) then after.position else r.position
  {
    PopKeepsShape(c, r);
    PopTakes(c, r.buffer);
    PopReaches(c, r.buffer);
  }

  /** Which stored packet a pop takes. */
  lemma PopLeaves(c: Config, r: Run, q: int)
    requires c.Valid() && WellFormed(r.buffer) && OnTimeLine(r) && r.buffer.primed && Near(r, q)
    requires Wrap32(q) in r.buffer.packets
    ensures var after := Step(c, r, DoPop).buffer;
            && (LandsOn(c, r, q) ==> Wrap32(q) !in after.packets
                                     && AfterPop(c, r.buffer).samples == r.buffer.packets[Wrap32(q)].samples)
            && (!LandsOn(c, r, q) ==>
                  Wrap32(q) in after.packets && after.packets[Wrap32(q)] == r.buffer.packets[Wrap32(q)])
  {
    PopTakes(c, r.buffer);
    Apart(r.position, q);
    if Skips(c, r.buffer) && Distance(r.buffer, SmallestKey(r.buffer.packets)) == Distance(r.buffer, Wrap32(q)) {
      SameDistance(r.buffer.nextPlayout.value, SmallestKey(r.buffer.packets), Wrap32(q));
    }
  }

  lemma WaitingPop(c: Config, r: Run, from: nat, q: int, packet: Packet)
    requires c.Valid() && Near(r, q) && Stands(r, from, q, packet, Waiting)
    ensures Stands(Step(c, r, DoPop), from, q, packet, NextFate(c, r, q, Waiting))
  {
    var after := Step(c, r, DoPop);
    PlayedSnoc(r.pops, after.pops[|r.pops|], from, q);
    if r.buffer.primed {
      PopOnTimeLine(c, r);
      PopLeaves(c, r, q);
      Apart(r.position, q);
    }
  }

  lemma SettledPop(c: Config, r: Run, from: nat, q: int, packet: Packet, fate: Fate)
    requires c.Valid() && Near(r, q) && Stands(r, from, q, packet, fate) && fate != Waiting
    ensures Stands(Step(c, r, DoPop), from, q, packet, fate)
    ensures fate == Played ==> !PassesBy(c, r.buffer, Wrap32(q))
  {
    var after := Step(c, r, DoPop);
    PlayedSnoc(r.pops, after.pops[|r.pops|], from, q);
    Apart(r.position, q);
    if r.buffer.primed {
      PopOnTimeLine(c, r);
      PopTakes(c, r.buffer);
      if Wrap32(q) in r.buffer.packets {
        PopLeaves(c, r, q);
      }
    }
  }

  // ---- Runs ----

  predicate NoReset(ops: seq<Op>, n: nat) {
    forall i :: n <= i < |ops| ==> !ops[i].DoReset?
  }

  /** Some pop after the first n operations passes the packet by. */
  ghost predicate PassedBy(c: Config, ops: seq<Op>, n: nat, t: u32)
    requires c.Valid()
  {
    exists i :: n <= i < |ops| && PopPasses(c, ops, i, t)
  }

  ghost predicate PopPasses(c: Config, ops: seq<Op>, i: nat, t: u32)
    requires c.Valid() && i < |ops|
  {
    ops[i].DoPop? && PassesBy(c, RunAll(c, ops[..i]).buffer, t)
  }

  lemma PassedBySnoc(c: Config, ops: seq<Op>, n: nat, t: u32)
    requires c.Valid() && n < |ops|
    ensures PassedBy(c, ops, n, t) <==> PassedBy(c, ops[..|ops| - 1], n, t) || PopPasses(c, ops, |ops| - 1, t)
  {
    var front := ops[..|ops| - 1];
    forall i | 0 <= i < |front| ensures PopPasses(c, front, i, t) <==> PopPasses(c, ops, i, t) {
      assert front[..i] == ops[..i] && front[i] == ops[i];
    }
  }

  lemma StepKeepsFate(c: Config, r: Run, from: nat, q: int, packet: Packet, op: Op, fate: Fate)
    requires c.Valid() && !op.DoReset? && Near(r, q) && Stands(r, from, q, packet, fate)
    ensures Step(c, r, op).position >= r.position
    ensures Stands(Step(c, r, op), from, q, packet, if op.DoPop? then NextFate(c, r, q, fate) else fate)
    ensures op.DoPop? && fate == Played ==> !PassesBy(c, r.buffer, Wrap32(q))
  {
    if op.DoPush? {
      PushKeepsFate(c, r, from, q, packet, op, fate);
    } else {
      if r.buffer.primed {
        PopOnTimeLine(c, r);
      }
      if fate == Waiting {
        WaitingPop(c, r, from, q, packet);
      } else {
        SettledPop(c, r, from, q, packet, fate);
      }
    }
  }

  /** Positions do not fall without a reset. */
  lemma {:induction false} PositionGrows(c: Config, ops: seq<Op>, n: nat)
    requires c.Valid() && n <= |ops| && NoReset(ops, n) && RunAll(c, ops[..n]).buffer.nextPlayout.Some?
    ensures RunAll(c, ops).position >= RunAll(c, ops[..n]).position && RunAll(c, ops).buffer.nextPlayout.Some?
    decreases |ops|
  {
    if n == |ops| {
      assert ops[..n] == ops;
    } else {
      var front := ops[..|ops| - 1];
      assert front[..n] == ops[..n];
      PositionGrows(c, front, n);
      RunKeepsInv(c, front);
      OneStepGrows(c, RunAll(c, front), ops[|ops| - 1]);
    }
  }

  lemma OneStepGrows(c: Config, r: Run, op: Op)
    requires c.Valid() && !op.DoReset? && WellFormed(r.buffer) && OnTimeLine(r) && r.buffer.nextPlayout.Some?
    ensures Step(c, r, op).position >= r.position && Step(c, r, op).buffer.nextPlayout.Some?
  {
    if op.DoPush? {
      PushLeavesPlayout(c, r.buffer, op);
    } else if r.buffer.primed {
      PopOnTimeLine(c, r);
    }
  }

  /** From the moment it is stored, a packet waits, or has been played at its position, or is
      stranded, and it is stranded exactly if some pop passed it by. */
  lemma {:induction false} FateOverRun(c: Config, ops: seq<Op>, n: nat, q: int, packet: Packet) returns (fate: Fate)
    requires c.Valid() && n <= |ops| && NoReset(ops, n)
    requires var r := RunAll(c, ops[..n]);
             r.buffer.nextPlayout.Some? && IsStored(r.buffer, q, packet) && 0 <= q - r.position < TWO31
    requires RunAll(c, ops).position - q <= TWO31
    ensures Stands(RunAll(c, ops), |RunAll(c, ops[..n]).pops|, q, packet, fate)
    ensures fate == Stranded <==> PassedBy(c, ops, n, Wrap32(q))
    decreases |ops|
  {
    var from := |RunAll(c, ops[..n]).pops|;
    if n == |ops| {
      assert ops[..n] == ops;
      RunKeepsInv(c, ops);
      fate := Waiting;
    } else {
      var front, op := ops[..|ops| - 1], ops[|ops| - 1];
      assert front[..n] == ops[..n];
      var r := RunAll(c, front);
      PositionGrows(c, front, n);
      RunKeepsInv(c, front);
      OneStepGrows(c, r, op);
      var before := FateOverRun(c, front, n, q, packet);
      StepKeepsFate(c, r, from, q, packet, op, before);
      PassedBySnoc(c, ops, n, Wrap32(q));
      fate := if op.DoPop? then NextFate(c, r, q, before) else before;
    }
  }

  /** Once playout has moved beyond a stored packet, and by no more than half the timestamp
      space, the packet was played, at its own position, if and only if no pop passed it by;
      otherwise it is still stored. */
  lemma PlayedIffNotPassedBy(c: Config, ops: seq<Op>, n: nat, q: int, packet: Packet)
    requires c.Valid() && n <= |ops| && NoReset(ops, n)
    requires var r := RunAll(c, ops[..n]);
             r.buffer.nextPlayout.Some? && IsStored(r.buffer, q, packet) && 0 <= q - r.position < TWO31
    requires 0 < RunAll(c, ops).position - q <= TWO31
    ensures var r, from := RunAll(c, ops), |RunAll(c, ops[..n]).pops|;
            && (PlayedAs(r.pops, from, q, packet.samples) <==> !PassedBy(c, ops, n, Wrap32(q)))
            && (IsStored(r.buffer, q, packet) <==> PassedBy(c, ops, n, Wrap32(q)))
  {
    var fate := FateOverRun(c, ops, n, q, packet);
  }

  /** A passed packet with the smallest key keeps every pop from skipping ahead. */
  lemma StrandedBlocksSkips(c: Config, b: Buffer)
    requires b.primed && b.nextPlayout.Some? && b.packets != map[] && Distance(b, SmallestKey(b.packets)) < 0
    ensures AfterPop(c, b).decision in {Play, Conceal}
  {
    PopTakes(c, b);
  }

  /** A packet half a frame off the grid: playout passes it by, and it stays stored. */
  lemma OffGridIsPassedBy(samplesIn: nat -> nat)
    ensures var c := Config(0, 0, 0, 8000, 160, samplesIn);
            var ops := [DoPush(0, 0, [], 0), DoPush(1, 80, [], 0), DoPop];
            PassedBy(c, ops, 2, 80) && RunAll(c, ops).position == 160 && RunAll(c, ops).buffer.packets.Keys == {80}
  {
    var c := Config(0, 0, 0, 8000, 160, samplesIn);
    var first, second := DoPush(0, 0, [], 0), DoPush(1, 80, [], 0);
    Unrolled(c, first, second, DoPop);
    RunKeepsInv(c, [first, second, DoPop][..2]);
    FirstPush(c, Start(c), first);
    PushOntoPrimed(c, Step(c, Start(c), first), second);
    OffGridPop(c, RunAll(c, [first, second, DoPop][..2]));
    assert PopPasses(c, [first, second, DoPop], 2, 80);
  }

  lemma OffGridPop(c: Config, r: Run)
    requires c.Valid() && c.samplesPerPacket == 160 && WellFormed(r.buffer) && OnTimeLine(r) && r.position == 0
    requires r.buffer.primed && r.buffer.nextPlayout == Some(0) && r.buffer.packets.Keys == {0, 80}
    ensures PassesBy(c, r.buffer, 80)
    ensures Step(c, r, DoPop).position == 160 && Step(c, r, DoPop).buffer.packets.Keys == {80}
  {
    PopOnTimeLine(c, r);
    PopTakes(c, r.buffer);
  }

  lemma Unrolled(c: Config, x: Op, y: Op, z: Op)
    requires c.Valid()
    ensures RunAll(c, [x, y, z][..2]) == Step(c, Step(c, Start(c), x), y)
    ensures RunAll(c, [x, y, z]) == Step(c, RunAll(c, [x, y, z][..2]), z)
  {
    assert [x, y, z][..2] == [x, y] && [x, y][..1] == [x] && [x][..0] == [];
    assert RunAll(c, []) == Start(c);
    assert RunAll(c, [x]) == Step(c, RunAll(c, [x][..0]), x);
    assert RunAll(c, [x, y]) == Step(c, RunAll(c, [x, y][..1]), y);
  }

  lemma FirstPush(c: Config, r: Run, op: Op)
    requires c.Valid() && c.minDelayMs == c.maxDelayMs == c.initialDelayMs == 0 && r == Start(c) && op.DoPush?
    ensures var s := Step(c, r, op);
            && s.buffer.primed && s.buffer.nextPlayout == Some(op.timestamp) && s.buffer.firstPacketTime.Some?
            && s.buffer.packets.Keys == {op.timestamp} && s.position == op.timestamp
  {
  }

  lemma PushOntoPrimed(c: Config, r: Run, op: Op)
    requires c.Valid() && op.DoPush? && r.buffer.firstPacketTime.Some? && r.buffer.nextPlayout.Some? && r.buffer.primed
    requires op.timestamp !in r.buffer.packets && Distance(r.buffer, op.timestamp) >= 0
    ensures var s := Step(c, r, op);
            && s.buffer.primed && s.buffer.nextPlayout == r.buffer.nextPlayout && s.position == r.position
            && s.buffer.packets.Keys == r.buffer.packets.Keys + {op.timestamp}
  {
  }
}
