/** The adaptive jitter buffer: packets keyed by wrapping 32-bit timestamps, a moving
    playout point, priming, and a target delay that follows the measured jitter.

    Arrival times are inputs (nanoseconds). Their conversion to samples, which the program
    does in floating point, is an arbitrary function; the jitter estimate is a real number. */
module Jitter {
  import opened Words

  datatype Config = Config(minDelayMs: u32, maxDelayMs: u32, initialDelayMs: u32,
                           clockRate: u32, samplesPerPacket: u32, samplesIn: nat -> nat) {
    /** The buffer divides by both rates, and reads the packet length as a signed number. */
    predicate Valid() {
      clockRate > 0 && 0 < samplesPerPacket < 0x8000_0000
    }

    /** The conversion of a duration is off by at most one sample, as in floating point. */
    predicate Converts(nanoseconds: nat) {
      Abs(samplesIn(nanoseconds) - nanoseconds * clockRate / 1_000_000_000) <= 1
    }

    function MsToSamples(ms: u32): u32 {
      Wrap32(ms * clockRate) / 1000
    }

    function SamplesToMs(samples: u32): u32
      requires Valid()
    {
      Quotient(Wrap32(samples * 1000), clockRate)
    }
  }

  datatype Packet = Packet(sequence: u16, timestamp: u32, samples: seq<i16>, receivedAt: nat)

  datatype Decision = Play | Expand | Conceal | Accelerate | Silence

  datatype Stats = Stats(received: nat, played: nat, lost: nat, late: nat, duplicate: nat,
                         bufferDepth: nat, targetDelayMs: u32, jitterMs: real)

  datatype Arrival = Arrival(time: nat, timestamp: u32)

  datatype Buffer = Buffer(packets: map<u32, Packet>, targetDelay: u32, jitter: real,
                           nextSeq: Option<u16>, nextPlayout: Option<u32>,
                           lastArrival: Option<Arrival>, stats: Stats, lastSamples: seq<i16>,
                           primed: bool, firstPacketTime: Option<nat>)

  // ---- Wrapping differences ----

  function SequenceDiff(a: u16, b: u16): int {
    var d := (a - b) % 0x1_0000;
    if d < 0x8000 then d else d - 0x1_0000
  }

  function TimestampDiff(a: u32, b: u32): i32 {
    AsI32(Wrap32(a - b))
  }

  predicate TimestampBefore(a: u32, b: u32) {
    TimestampDiff(a, b) < 0
  }

  // ---- Delay control ----

  /** Conversion of a float to an unsigned word: truncates and saturates. */
  function SaturatingU32(x: real): u32 {
    if x < 0.0 then 0 else if x >= 4294967296.0 then 0xffff_ffff else x.Floor
  }

  /** The delay the controller steers towards: twice the jitter, clamped. */
  function Goal(c: Config, jitter: real): u32 {
    Min(Max(Wrap32(2 * SaturatingU32(jitter)), c.MsToSamples(c.minDelayMs)), c.MsToSamples(c.maxDelayMs))
  }

  /** One step of the controller: up by a quarter of the error, down by a sixteenth. */
  function AdaptStep(target: u32, goal: u32): u32 {
    if goal > target then target + (goal - target) / 4
    else if goal < target then target - (target - goal) / 16
    else target
  }

  /** How far, in samples, the spacing of two arrivals is from that of their timestamps. */
  function Deviation(c: Config, last: Arrival, now: nat, timestamp: u32): nat {
    var elapsed := if now < last.time then 0 else c.samplesIn(now - last.time);
    Abs(elapsed - TimestampDiff(timestamp, last.timestamp))
  }

  function Smooth(jitter: real, deviation: nat): real {
    jitter + (deviation as real - jitter) / 16.0
  }

  // ---- What each operation does to the buffer, as a function ----

  function SilentFrame(c: Config): seq<i16> {
    seq(c.samplesPerPacket, _ => 0)
  }

  function Fresh(c: Config, stats: Stats): Buffer {
    Buffer(map[], c.MsToSamples(c.initialDelayMs), 0.0, None, None, None, stats,
           SilentFrame(c), false, None)
  }

  const NO_STATS: Stats := Stats(0, 0, 0, 0, 0, 0, 0, 0.0)

  /** A packet has been seen: count it, anchor playout on the first one, measure jitter. */
  function Noted(c: Config, b: Buffer, sequence: u16, timestamp: u32, now: nat): Buffer {
    var anchored := if b.firstPacketTime.Some? then b
                    else b.(firstPacketTime := Some(now), nextSeq := Some(sequence), nextPlayout := Some(timestamp));
    anchored.(stats := b.stats.(received := b.stats.received + 1),
              jitter := if b.lastArrival.None? then b.jitter
                        else Smooth(b.jitter, Deviation(c, b.lastArrival.value, now, timestamp)),
              lastArrival := Some(Arrival(now, timestamp)))
  }

  function Adapted(c: Config, b: Buffer): Buffer
    requires c.Valid()
  {
    var target := AdaptStep(b.targetDelay, Goal(c, b.jitter));
    b.(targetDelay := target,
       stats := b.stats.(targetDelayMs := c.SamplesToMs(target),
                         jitterMs := b.jitter * 1000.0 / c.clockRate as real))
  }

  function PacketsNeeded(c: Config, b: Buffer): nat
    requires c.Valid()
  {
    Max(Quotient(b.targetDelay, c.samplesPerPacket), 1)
  }

  function Stored(c: Config, b: Buffer, packet: Packet): Buffer
    requires c.Valid()
  {
    var next := if b.nextSeq.Some? && SequenceDiff(packet.sequence, b.nextSeq.value) >= 0
                then Some((packet.sequence + 1) % 0x1_0000) else b.nextSeq;
    var s := Adapted(c, b.(nextSeq := next, packets := b.packets[packet.timestamp := packet]));
    s.(primed := s.primed || |s.packets| >= PacketsNeeded(c, s))
  }

  datatype PushResult = Pushed(buffer: Buffer, accepted: bool)

  function AfterPush(c: Config, b: Buffer, sequence: u16, timestamp: u32, samples: seq<i16>, now: nat): PushResult
    requires c.Valid()
  {
    var n := Noted(c, b, sequence, timestamp, now);
    if timestamp in n.packets then
      Pushed(n.(stats := n.stats.(duplicate := n.stats.duplicate + 1)), false)
    else if n.nextPlayout.Some? && TimestampBefore(timestamp, n.nextPlayout.value) then
      Pushed(n.(stats := n.stats.(late := n.stats.late + 1)), false)
    else
      Pushed(Stored(c, n, Packet(sequence, timestamp, samples, now)), true)
  }

  /** Division that truncates towards zero. */
  function TruncDiv(a: int, b: int): int
    requires b > 0
  {
    if a >= 0 then a / b else -((-a) / b)
  }

  /** Sample i of n, faded linearly from full level to half level over the frame. */
  function FadeSample(sample: i16, i: nat, n: nat): (r: i16)
    requires i < n
    ensures Abs(r) <= Abs(sample)
    ensures sample >= 0 ==> r >= 0
    ensures sample <= 0 ==> r <= 0
  {
    var a := Abs(sample);
    FadeShrinks(a, 2 * n - i, 2 * n);
    assert sample < 0 ==> -(sample * (2 * n - i)) == a * (2 * n - i);
    assert sample >= 0 ==> sample * (2 * n - i) == a * (2 * n - i);
    TruncDiv(sample * (2 * n - i), 2 * n)
  }

  lemma FadeShrinks(a: nat, k: nat, d: nat)
    requires 0 < k <= d
    ensures 0 <= a * k <= a * d
    ensures 0 <= a * k / d <= a
  {
  }

  lemma MulMonotone(a: nat, k: nat, d: nat)
    requires k <= d
    ensures 0 <= a * k <= a * d
  {
  }

  function Faded(samples: seq<i16>): seq<i16> {
    seq(|samples|, i requires 0 <= i < |samples| => FadeSample(samples[i], i, |samples|))
  }

  /** The numerically smallest key: the first entry of the ordered map. */
  function SmallestKey(packets: map<u32, Packet>): (k: u32)
    requires packets != map[]
    ensures k in packets && forall j :: j in packets ==> k <= j
  {
    SmallestExists(packets.Keys);
    var k :| k in packets && forall j :: j in packets ==> k <= j;
    k
  }

  lemma SmallestExists(keys: set<u32>)
    requires keys != {}
    ensures exists k :: k in keys && forall j :: j in keys ==> k <= j
    decreases |keys|
  {
    var x :| x in keys;
    var smaller := set j | j in keys && j < x;
    if smaller != {} {
      assert smaller < keys;
      SmallestProper(smaller, keys);
      SmallestExists(smaller);
      var k :| k in smaller && forall j :: j in smaller ==> k <= j;
      assert forall j :: j in keys ==> j in smaller || x <= j;
    } else {
      assert forall j :: j in keys ==> j !in smaller;
    }
  }

  lemma SmallestProper(a: set<u32>, b: set<u32>)
    requires a < b
    ensures |a| < |b|
  {
    assert b == a + (b - a);
  }

  datatype PopResult = Popped(buffer: Buffer, decision: Decision, samples: seq<i16>)

  function Lose(b: Buffer): PopResult {
    var faded := Faded(b.lastSamples);
    Popped(b.(lastSamples := faded,
              stats := b.stats.(lost := b.stats.lost + 1, bufferDepth := |b.packets|)),
           Conceal, faded)
  }

  function Take(b: Buffer, key: u32, decision: Decision): PopResult
    requires key in b.packets
  {
    var rest := b.packets - {key};
    Popped(b.(packets := rest, lastSamples := b.packets[key].samples,
              stats := b.stats.(played := b.stats.played + 1, bufferDepth := |rest|)),
           decision, b.packets[key].samples)
  }

  /** Twice the target delay as a signed word, the threshold for skipping ahead. */
  function SkipThreshold(targetDelay: u32): i32 {
    AsI32(Wrap32(2 * targetDelay))
  }

  /** Nothing is stored for the playout point: skip ahead if the stream has moved far on,
      otherwise conceal. */
  function Missing(c: Config, b: Buffer, playout: u32): PopResult {
    if b.packets == map[] then Lose(b)
    else
      var next := SmallestKey(b.packets);
      var gap := TimestampDiff(next, playout);
      if gap > c.samplesPerPacket && gap > SkipThreshold(b.targetDelay) then
        Take(b.(nextPlayout := Some(next)), next, Accelerate)
      else Lose(b)
  }

  function AfterPop(c: Config, b: Buffer): PopResult {
    if !b.primed || b.nextPlayout.None? then
      Popped(b, Silence, SilentFrame(c))
    else
      var playout := b.nextPlayout.value;
      var moved := b.(nextPlayout := Some(Wrap32(playout as int + c.samplesPerPacket)));
      if playout in b.packets then Take(moved, playout, Play) else Missing(c, moved, playout)
  }

  /** The buffer object. */
  class JitterBuffer {
    const config: Config
    var packets: map<u32, Packet>
    var targetDelay: u32
    var jitter: real
    var nextSeq: Option<u16>
    var nextPlayout: Option<u32>
    var lastArrival: Option<Arrival>
    var stats: Stats
    var lastSamples: seq<i16>
    var primed: bool
    var firstPacketTime: Option<nat>

    ghost function View(): Buffer
      reads this
    {
      Buffer(packets, targetDelay, jitter, nextSeq, nextPlayout, lastArrival, stats,
             lastSamples, primed, firstPacketTime)
    }

    constructor (config: Config)
      ensures this.config == config
      ensures View() == Fresh(config, NO_STATS)
    {
      this.config := config;
      packets := map[];
      targetDelay := config.MsToSamples(config.initialDelayMs);
      jitter := 0.0;
      nextSeq, nextPlayout, lastArrival, firstPacketTime := None, None, None, None;
      stats := NO_STATS;
      lastSamples := SilentFrame(config);
      primed := false;
    }

    method Push(sequence: u16, timestamp: u32, samples: seq<i16>, now: nat) returns (accepted: bool)
      requires config.Valid()
      modifies this
      ensures Pushed(View(), accepted) == AfterPush(config, old(View()), sequence, timestamp, samples, now)
    {
      Note(sequence, timestamp, now);
      if timestamp in packets {
        stats := stats.(duplicate := stats.duplicate + 1);
        return false;
      }
      if nextPlayout.Some? && TimestampBefore(timestamp, nextPlayout.value) {
        stats := stats.(late := stats.late + 1);
        return false;
      }
      Store(Packet(sequence, timestamp, samples, now));
      return true;
    }

    method Note(sequence: u16, timestamp: u32, now: nat)
      modifies this
      ensures View() == Noted(config, old(View()), sequence, timestamp, now)
    {
      stats := stats.(received := stats.received + 1);
      if firstPacketTime.None? {
        firstPacketTime := Some(now);
        nextSeq := Some(sequence);
        nextPlayout := Some(timestamp);
      }
      if lastArrival.Some? {
        jitter := Smooth(jitter, Deviation(config, lastArrival.value, now, timestamp));
      }
      lastArrival := Some(Arrival(now, timestamp));
    }

    method Store(packet: Packet)
      requires config.Valid()
      modifies this
      ensures View() == Stored(config, old(View()), packet)
    {
      if nextSeq.Some? {
        var seqDiff := SequenceDiff(packet.sequence, nextSeq.value);
        if seqDiff >= 0 {
          nextSeq := Some((packet.sequence + 1) % 0x1_0000);
        }
      }
      packets := packets[packet.timestamp := packet];
      AdaptDelay();
      if !primed {
        var packetsNeeded := Quotient(targetDelay, config.samplesPerPacket);
        if |packets| >= Max(packetsNeeded, 1) {
          primed := true;
        }
      }
    }

    method Pop() returns (decision: Decision, samples: seq<i16>)
      modifies this
      ensures Popped(View(), decision, samples) == AfterPop(config, old(View()))
    {
      if !primed || nextPlayout.None? {
        return Silence, SilentFrame(config);
      }
      var playout := nextPlayout.value;
      nextPlayout := Some(Wrap32(playout as int + config.samplesPerPacket));
      if playout in packets {
        samples := TakePacket(playout);
        return Play, samples;
      }
      decision, samples := SkipOrConceal(playout);
    }

    method SkipOrConceal(playout: u32) returns (decision: Decision, samples: seq<i16>)
      modifies this
      ensures Popped(View(), decision, samples) == Missing(config, old(View()), playout)
    {
      if packets == map[] {
        samples := LosePacket();
        return Conceal, samples;
      }
      var next := SmallestKey(packets);
      var gap := TimestampDiff(next, playout);
      if gap <= config.samplesPerPacket {
        samples := LosePacket();
        decision := Conceal;
      } else if gap > SkipThreshold(targetDelay) {
        nextPlayout := Some(next);
        samples := TakePacket(next);
        decision := Accelerate;
      } else {
        samples := LosePacket();
        decision := Conceal;
      }
    }

    method TakePacket(key: u32) returns (samples: seq<i16>)
      requires key in packets
      modifies this`packets, this`lastSamples, this`stats
      ensures View() == Take(old(View()), key, Play).buffer
      ensures samples == old(packets)[key].samples
    {
      samples := packets[key].samples;
      packets := packets - {key};
      lastSamples := samples;
      stats := stats.(played := stats.played + 1, bufferDepth := |packets|);
    }

    method LosePacket() returns (samples: seq<i16>)
      modifies this`lastSamples, this`stats
      ensures Popped(View(), Conceal, samples) == Lose(old(View()))
    {
      samples := ConcealPacket();
      stats := stats.(lost := stats.lost + 1, bufferDepth := |packets|);
    }

    method ConcealPacket() returns (concealed: seq<i16>)
      modifies this`lastSamples
      ensures concealed == lastSamples == Faded(old(lastSamples))
    {
      concealed := lastSamples;
      var n := |concealed|;
      for i := 0 to n
        invariant |concealed| == n
        invariant forall k :: 0 <= k < i ==> concealed[k] == FadeSample(old(lastSamples)[k], k, n)
        invariant forall k :: i <= k < n ==> concealed[k] == old(lastSamples)[k]
      {
        concealed := concealed[i := FadeSample(concealed[i], i, n)];
      }
      lastSamples := concealed;
    }

    method AdaptDelay()
      requires config.Valid()
      modifies this`targetDelay, this`stats
      ensures View() == Adapted(config, old(View()))
    {
      var jitterSamples: int := SaturatingU32(jitter);
      var newTarget := Min(Max(Wrap32(2 * jitterSamples), config.MsToSamples(config.minDelayMs)),
                           config.MsToSamples(config.maxDelayMs));
      if newTarget > targetDelay {
        targetDelay := targetDelay + (newTarget - targetDelay) / 4;
      } else if newTarget < targetDelay {
        targetDelay := targetDelay - (targetDelay - newTarget) / 16;
      }
      stats := stats.(targetDelayMs := config.SamplesToMs(targetDelay),
                      jitterMs := jitter * 1000.0 / config.clockRate as real);
    }

    method Reset()
      modifies this
      ensures View() == Fresh(config, old(stats))
    {
      packets := map[];
      nextSeq, nextPlayout, lastArrival, firstPacketTime := None, None, None, None;
      lastSamples := SilentFrame(config);
      primed := false;
      jitter := 0.0;
      targetDelay := config.MsToSamples(config.initialDelayMs);
    }
  }
}
