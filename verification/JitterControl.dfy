/** The delay controller of the jitter buffer: where it settles and what bounds it. */
module JitterControl {
  import opened Words
  import opened Jitter
  import opened JitterRuns

  /** The controller after n steps towards a constant goal. */
  function Steered(target: u32, goal: u32, n: nat): u32 {
    if n == 0 then target else AdaptStep(Steered(target, goal, n - 1), goal)
  }

  /** Integer division leaves a dead band around the goal, and only there does it rest. */
  lemma RestsExactlyInBand(target: u32, goal: u32)
    ensures AdaptStep(target, goal) == target <==> goal - 3 <= target <= goal + 15
  {
  }

  /** Each step moves towards the goal without passing it. */
  lemma NeverOvershoots(target: u32, goal: u32)
    ensures target <= goal ==> target <= AdaptStep(target, goal) <= goal
    ensures target >= goal ==> target >= AdaptStep(target, goal) >= goal
  {
  }

  /** The controller approaches monotonically, stays on its own side of the goal, and is at
      rest in the dead band after at most as many steps as the error has samples. */
  lemma {:induction false} Settles(target: u32, goal: u32, n: nat)
    ensures target <= goal ==> target <= Steered(target, goal, n) <= goal
    ensures target >= goal ==> target >= Steered(target, goal, n) >= goal
    ensures Abs(Steered(target, goal, n) - goal) <= Max(Abs(target - goal) - n, 15)
    ensures n >= Abs(target - goal) ==>
              && goal - 3 <= Steered(target, goal, n) <= goal + 15
              && Steered(target, goal, n + 1) == Steered(target, goal, n)
    decreases n
  {
    if n > 0 {
      Settles(target, goal, n - 1);
      var t := Steered(target, goal, n - 1);
      NeverOvershoots(t, goal);
      RestsExactlyInBand(t, goal);
      BelowBand(target, goal, n);
    }
    RestsExactlyInBand(Steered(target, goal, n), goal);
  }

  lemma {:induction false} BelowBand(target: u32, goal: u32, n: nat)
    ensures target < goal ==> Steered(target, goal, n) <= goal
    ensures target < goal ==> goal - Steered(target, goal, n) <= Max(goal - target - n, 3)
    decreases n
  {
    if n > 0 {
      BelowBand(target, goal, n - 1);
    }
  }

  function Lowest(c: Config): int {
    Min(c.MsToSamples(c.initialDelayMs), Min(c.MsToSamples(c.minDelayMs), c.MsToSamples(c.maxDelayMs)))
  }

  function Highest(c: Config): int {
    Max(c.MsToSamples(c.initialDelayMs), c.MsToSamples(c.maxDelayMs))
  }

  ghost predicate DelayBounded(c: Config, b: Buffer) {
    Lowest(c) <= b.targetDelay <= Highest(c)
  }

  lemma GoalInRange(c: Config, jitter: real)
    ensures Min(c.MsToSamples(c.minDelayMs), c.MsToSamples(c.maxDelayMs))
            <= Goal(c, jitter) <= c.MsToSamples(c.maxDelayMs)
  {
  }

  lemma PushAdapts(c: Config, b: Buffer, op: Op)
    requires c.Valid() && op.DoPush?
    ensures var p := AfterPush(c, b, op.sequence, op.timestamp, op.samples, op.now);
            p.buffer.targetDelay
            == if p.accepted then AdaptStep(b.targetDelay, Goal(c, p.buffer.jitter)) else b.targetDelay
  {
  }

  lemma PushKeepsDelayBounds(c: Config, b: Buffer, op: Op)
    requires c.Valid() && op.DoPush? && DelayBounded(c, b)
    ensures DelayBounded(c, AfterPush(c, b, op.sequence, op.timestamp, op.samples, op.now).buffer)
  {
    var p := AfterPush(c, b, op.sequence, op.timestamp, op.samples, op.now);
    PushAdapts(c, b, op);
    GoalInRange(c, p.buffer.jitter);
    NeverOvershoots(b.targetDelay, Goal(c, p.buffer.jitter));
  }

  lemma PopKeepsDelay(c: Config, b: Buffer)
    ensures AfterPop(c, b).buffer.targetDelay == b.targetDelay
  {
  }

  /** Over every run the target delay stays between the configured extremes. */
  lemma {:induction false} TargetStaysBounded(c: Config, ops: seq<Op>)
    requires c.Valid()
    ensures DelayBounded(c, RunAll(c, ops).buffer)
  {
    if ops != [] {
      var r, op := RunAll(c, ops[..|ops| - 1]), ops[|ops| - 1];
      TargetStaysBounded(c, ops[..|ops| - 1]);
      match op
      case DoPush(_, _, _, _) => PushKeepsDelayBounds(c, r.buffer, op);
      case DoPop => PopKeepsDelay(c, r.buffer);
      case DoReset =>
    }
  }

  /** In particular it never leaves [min, max] when it starts there. */
  lemma TargetStaysInRange(c: Config, ops: seq<Op>)
    requires c.Valid()
    requires c.MsToSamples(c.minDelayMs) <= c.MsToSamples(c.initialDelayMs) <= c.MsToSamples(c.maxDelayMs)
    ensures c.MsToSamples(c.minDelayMs) <= RunAll(c, ops).buffer.targetDelay <= c.MsToSamples(c.maxDelayMs)
  {
    TargetStaysBounded(c, ops);
  }

  // ---- The constants of the controller ----

  /** A delay in samples: milliseconds times rate over a thousand, while that fits 32 bits. */
  lemma DelayInSamples(c: Config, ms: u32)
    requires ms * c.clockRate < 0x1_0000_0000
    ensures c.MsToSamples(ms) == ms * c.clockRate / 1000
  {
    FitsWord(ms * c.clockRate);
  }

  lemma FitsWord(n: int)
    requires 0 <= n < 0x1_0000_0000
    ensures Wrap32(n) == n
  {
  }

  /** The goal is twice the jitter in whole samples, within the configured delays. */
  lemma GoalIsTwiceJitter(c: Config, jitter: real)
    requires 0.0 <= jitter < 2147483648.0
    requires c.MsToSamples(c.minDelayMs) <= c.MsToSamples(c.maxDelayMs)
    ensures var low, high := c.MsToSamples(c.minDelayMs), c.MsToSamples(c.maxDelayMs);
            var twice := 2 * jitter.Floor;
            Goal(c, jitter) == if twice < low then low else if twice > high then high else twice
  {
  }

  /** An accepted packet primes the buffer once what is stored, and one packet more, exceeds the
      target delay. */
  lemma PrimesWhen(c: Config, b: Buffer, op: Op)
    requires c.Valid() && op.DoPush?
    ensures var p := AfterPush(c, b, op.sequence, op.timestamp, op.samples, op.now);
            p.accepted ==>
              (p.buffer.primed <==> b.primed || p.buffer.targetDelay < (|p.buffer.packets| + 1) * c.samplesPerPacket)
  {
    var p := AfterPush(c, b, op.sequence, op.timestamp, op.samples, op.now);
    if p.accepted {
      assert op.timestamp in p.buffer.packets;
      QuotientBelow(p.buffer.targetDelay, c.samplesPerPacket, |p.buffer.packets|);
    }
  }

  lemma QuotientBelow(a: nat, b: nat, n: nat)
    requires b > 0
    ensures Quotient(a, b) <= n <==> a < (n + 1) * b
  {
    QuotientIsDivision(a, b);
    var q := Quotient(a, b);
    assert q <= n ==> (q + 1) * b <= (n + 1) * b;
    assert q >= n + 1 ==> q * b >= (n + 1) * b;
    assert (q + 1) * b == q * b + b;
  }

  /** Each packet is counted once: as a duplicate if its timestamp is stored, else as late if it
      lies before the playout point, else it is stored. The first packet is never late. */
  lemma PushCountsEach(c: Config, b: Buffer, op: Op)
    requires c.Valid() && op.DoPush?
    ensures var p := AfterPush(c, b, op.sequence, op.timestamp, op.samples, op.now);
            var duplicate := op.timestamp in b.packets;
            var late := !duplicate && b.firstPacketTime.Some? && b.nextPlayout.Some?
                        && (op.timestamp - b.nextPlayout.value) % 0x1_0000_0000 >= 0x8000_0000;
            && p.buffer.stats.duplicate == b.stats.duplicate + (if duplicate then 1 else 0)
            && p.buffer.stats.late == b.stats.late + (if late then 1 else 0)
            && p.accepted == (!duplicate && !late)
            && p.buffer.packets == if p.accepted
               then b.packets[op.timestamp := Packet(op.sequence, op.timestamp, op.samples, op.now)] else b.packets
  {
  }

  /** The expected sequence number is one beyond the newest packet accepted: it moves there
      unless the packet lies in the half of the sequence space before it. */
  lemma ExpectedSequence(c: Config, b: Buffer, op: Op)
    requires c.Valid() && op.DoPush? && b.nextSeq.Some? && b.firstPacketTime.Some?
    ensures var p := AfterPush(c, b, op.sequence, op.timestamp, op.samples, op.now);
            p.buffer.nextSeq ==
              if p.accepted && (op.sequence - b.nextSeq.value) % 0x1_0000 < 0x8000
              then Some((op.sequence + 1) % 0x1_0000) else b.nextSeq
  {
  }

  /** A pop skips ahead exactly when nothing is stored for the playout point and the smallest
      key lies more than a packet, and more than twice the target delay, ahead of it. */
  lemma SkipsWhen(c: Config, b: Buffer)
    requires c.Valid() && b.primed && b.nextPlayout.Some? && b.targetDelay < 0x4000_0000
    ensures AfterPop(c, b).decision == Accelerate <==>
              && b.nextPlayout.value !in b.packets && b.packets != map[]
              && var ahead := (SmallestKey(b.packets) - b.nextPlayout.value) % 0x1_0000_0000;
                 ahead < 0x8000_0000 && ahead > c.samplesPerPacket && ahead > 2 * b.targetDelay
  {
  }

  /** What the statistics report: the depth after each pop, and the delay and jitter in
      milliseconds after each packet stored. */
  lemma StatisticsReport(c: Config, b: Buffer, op: Op)
    requires c.Valid() && op.DoPush?
    ensures b.primed && b.nextPlayout.Some? ==>
              AfterPop(c, b).buffer.stats.bufferDepth == |AfterPop(c, b).buffer.packets|
    ensures var p := AfterPush(c, b, op.sequence, op.timestamp, op.samples, op.now);
            p.accepted ==>
              && p.buffer.stats.targetDelayMs == Wrap32(p.buffer.targetDelay * 1000) / c.clockRate
              && p.buffer.stats.jitterMs == p.buffer.jitter * 1000.0 / c.clockRate as real
  {
    var p := AfterPush(c, b, op.sequence, op.timestamp, op.samples, op.now);
    if p.accepted {
      QuotientIsDivision(Wrap32(p.buffer.targetDelay * 1000), c.clockRate);
    }
  }

  /** A packet with a timestamp k samples after the last one, also across the wrap, deviates
      by exactly what the conversion of the time between them is off from k. If it arrives on
      schedule that is at most one sample, and the estimate decays towards one. A clock that
      seems to have gone back counts as no time passed. */
  lemma OnSchedule(c: Config, last: Arrival, now: nat, k: nat, jitter: real)
    requires k < TWO31
    ensures now < last.time ==> Deviation(c, last, now, Wrap32(last.timestamp as int + k)) == k
    ensures now >= last.time ==>
            var gap := now - last.time;
            var d := Deviation(c, last, now, Wrap32(last.timestamp as int + k));
            && d == Abs(c.samplesIn(gap) - k)
            && (c.Converts(gap) && gap * c.clockRate == k * 1_000_000_000 ==>
                  d <= 1 && Smooth(jitter, d) <= (jitter * 15.0 + 1.0) / 16.0)
  {
    SignedDistance(last.timestamp, k);
    Elapsed(k);
  }

  lemma Elapsed(k: nat)
    ensures k * 1_000_000_000 / 1_000_000_000 == k
  {
  }

  lemma SignedDistance(base: u32, k: nat)
    requires k < TWO31
    ensures TimestampDiff(Wrap32(base as int + k), base) == k
  {
  }

  /** Concealment starts at full level and never falls below half of it within a frame. */
  lemma FadeStaysAudible(sample: i16, i: nat, n: nat)
    requires i < n
    ensures 2 * Abs(FadeSample(sample, i, n)) >= Abs(sample) - 1
    ensures i == 0 ==> FadeSample(sample, i, n) == sample
  {
    var a := Abs(sample);
    HalfLevel(a, 2 * n - i, n);
    assert sample < 0 ==> -(sample * (2 * n - i)) == a * (2 * n - i);
  }

  lemma HalfLevel(a: nat, k: nat, n: nat)
    requires 0 < n < k <= 2 * n
    ensures 2 * (a * k / (2 * n)) >= a - 1
    ensures k == 2 * n ==> a * k / (2 * n) == a
  {
    var q, d := a * k / (2 * n), 2 * n;
    assert a * k < q * d + d;
    MulMonotone(a, n, k);
    assert n * (2 * q + 2) == q * d + d;
    if 2 * q + 2 <= a {
      MulMonotone(n, 2 * q + 2, a);
      assert false;
    }
    if k == d {
      DivisionUnique(a * d, d, a);
    }
  }
}
