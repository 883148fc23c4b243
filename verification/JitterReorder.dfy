/** Reordering is undone: consecutive frames pushed in any order that starts with the
    earliest come out in media order, across the wrap of the 32-bit timestamp. */
module JitterReorder {
  import opened Words
  import opened Jitter
  import opened JitterRuns
  import opened JitterControl

  /** The media offset of frame k. */
  function Offset(c: Config, k: nat): nat {
    if k == 0 then 0 else Offset(c, k - 1) + c.samplesPerPacket
  }

  lemma {:induction false} OffsetIsProduct(c: Config, k: nat)
    ensures Offset(c, k) == k * c.samplesPerPacket
  {
    if k > 0 {
      OffsetIsProduct(c, k - 1);
    }
  }

  lemma {:induction false} OffsetGrows(c: Config, i: nat, j: nat)
    requires i < j
    ensures Offset(c, i) + c.samplesPerPacket <= Offset(c, j)
  {
    if i < j - 1 {
      OffsetGrows(c, i, j - 1);
    }
  }

  function TimestampOf(c: Config, base: u32, k: nat): u32 {
    Wrap32(base as int + Offset(c, k))
  }

  lemma WrapApart(base: u32, x: nat, y: nat)
    requires x < TWO31 && y < TWO31
    ensures TimestampDiff(Wrap32(base as int + x), base) == x
    ensures Wrap32(base as int + x) == Wrap32(base as int + y) <==> x == y
  {
  }

  /** Frames within half the timestamp space have distinct keys and none precedes the first. */
  lemma TimestampsApart(c: Config, base: u32, n: nat, i: nat, j: nat)
    requires c.Valid() && i < n && j < n && Offset(c, n) <= TWO31
    ensures !TimestampBefore(TimestampOf(c, base, i), base)
    ensures TimestampOf(c, base, i) == TimestampOf(c, base, j) <==> i == j
  {
    OffsetGrows(c, i, n);
    OffsetGrows(c, j, n);
    WrapApart(base, Offset(c, i), Offset(c, j));
    if i < j {
      OffsetGrows(c, i, j);
    } else if j < i {
      OffsetGrows(c, j, i);
    }
  }

  /** Frame `index` arrives at time `now` carrying sequence number `sequence`. */
  datatype Arrived = Arrived(index: nat, sequence: u16, now: nat)

  function PushOf(c: Config, base: u32, frames: seq<seq<i16>>, a: Arrived): Op
    requires a.index < |frames|
  {
    DoPush(a.sequence, TimestampOf(c, base, a.index), frames[a.index], a.now)
  }

  function Push(c: Config, b: Buffer, op: Op): PushResult
    requires c.Valid() && op.DoPush?
  {
    AfterPush(c, b, op.sequence, op.timestamp, op.samples, op.now)
  }

  function PushAll(c: Config, b: Buffer, base: u32, frames: seq<seq<i16>>, order: seq<Arrived>): Buffer
    requires c.Valid()
    requires forall a :: a in order ==> a.index < |frames|
  {
    if order == [] then b
    else
      var last := |order| - 1;
      Push(c, PushAll(c, b, base, frames, order[..last]), PushOf(c, base, frames, order[last])).buffer
  }

  datatype Played = Played(buffer: Buffer, decisions: seq<Decision>, frames: seq<seq<i16>>)

  function PopMany(c: Config, b: Buffer, n: nat): Played
    decreases n
  {
    if n == 0 then Played(b, [], [])
    else
      var first := AfterPop(c, b);
      var rest := PopMany(c, first.buffer, n - 1);
      Played(rest.buffer, [first.decision] + rest.decisions, [first.samples] + rest.frames)
  }

  /** Each of the first n frames arrives exactly once. */
  ghost predicate Permutes(order: seq<Arrived>, n: nat) {
    && |order| == n
    && Distinct(order, n)
    && (forall k :: 0 <= k < n ==> Arrives(order, k))
  }

  ghost predicate Distinct(order: seq<Arrived>, n: nat) {
    && (forall i :: 0 <= i < |order| ==> order[i].index < n)
    && (forall i, j :: 0 <= i < j < |order| ==> order[i].index != order[j].index)
  }

  ghost predicate Arrives(order: seq<Arrived>, k: nat) {
    exists i :: 0 <= i < |order| && order[i].index == k
  }

  ghost predicate Held(c: Config, b: Buffer, base: u32, frames: seq<seq<i16>>, k: nat)
    requires k < |frames|
  {
    TimestampOf(c, base, k) in b.packets && b.packets[TimestampOf(c, base, k)].samples == frames[k]
  }

  ghost predicate FromArrival(c: Config, base: u32, order: seq<Arrived>, t: u32) {
    exists i :: 0 <= i < |order| && TimestampOf(c, base, order[i].index) == t
  }

  /** The buffer holds exactly the frames that have arrived, each under its own timestamp. */
  ghost predicate HoldsArrived(c: Config, b: Buffer, base: u32, frames: seq<seq<i16>>, order: seq<Arrived>) {
    && Distinct(order, |frames|)
    && (forall i :: 0 <= i < |order| ==> Held(c, b, base, frames, order[i].index))
    && (forall t :: t in b.packets ==> FromArrival(c, base, order, t))
    && |b.packets| == |order|
  }

  /** State while the frames arrive: everything pushed so far is held and playout waits
      for the first frame. */
  ghost predicate Filling(c: Config, b: Buffer, base: u32, frames: seq<seq<i16>>, order: seq<Arrived>) {
    && HoldsArrived(c, b, base, frames, order)
    && b.nextPlayout == Some(base) && b.firstPacketTime.Some?
  }

  lemma PushStores(c: Config, b: Buffer, op: Op)
    requires c.Valid() && op.DoPush?
    requires op.timestamp !in b.packets
    requires b.firstPacketTime.None? || (b.nextPlayout.Some? && !TimestampBefore(op.timestamp, b.nextPlayout.value))
    ensures var p := Push(c, b, op);
            && p.accepted
            && p.buffer.packets == b.packets[op.timestamp := Packet(op.sequence, op.timestamp, op.samples, op.now)]
            && p.buffer.nextPlayout == (if b.firstPacketTime.Some? then b.nextPlayout else Some(op.timestamp))
            && p.buffer.firstPacketTime.Some?
            && (|p.buffer.packets| >= PacketsNeeded(c, p.buffer) ==> p.buffer.primed)
  {
  }

  lemma NotHeldYet(c: Config, b: Buffer, base: u32, frames: seq<seq<i16>>, order: seq<Arrived>, a: Arrived)
    requires c.Valid() && Offset(c, |frames|) <= TWO31
    requires HoldsArrived(c, b, base, frames, order) && Distinct(order + [a], |frames|)
    ensures TimestampOf(c, base, a.index) !in b.packets
  {
    if TimestampOf(c, base, a.index) in b.packets {
      assert FromArrival(c, base, order, TimestampOf(c, base, a.index));
      var i :| 0 <= i < |order| && TimestampOf(c, base, order[i].index) == TimestampOf(c, base, a.index);
      assert (order + [a])[i] == order[i] && (order + [a])[|order|] == a;
      TimestampsApart(c, base, |frames|, order[i].index, a.index);
    }
  }

  lemma HoldsGrows(c: Config, b: Buffer, after: Buffer, base: u32, frames: seq<seq<i16>>, order: seq<Arrived>,
                   a: Arrived)
    requires HoldsArrived(c, b, base, frames, order) && Distinct(order + [a], |frames|) && a.index < |frames|
    requires TimestampOf(c, base, a.index) !in b.packets
    requires after.packets == b.packets[TimestampOf(c, base, a.index) :=
                                          Packet(a.sequence, TimestampOf(c, base, a.index), frames[a.index], a.now)]
    ensures HoldsArrived(c, after, base, frames, order + [a])
  {
    var grown := order + [a];
    forall i | 0 <= i < |grown| ensures Held(c, after, base, frames, grown[i].index) {
      if i < |order| {
        assert Held(c, b, base, frames, order[i].index);
      }
    }
    forall t | t in after.packets ensures FromArrival(c, base, grown, t) {
      if t in b.packets {
        assert FromArrival(c, base, order, t);
        var i :| 0 <= i < |order| && TimestampOf(c, base, order[i].index) == t;
        assert grown[i] == order[i];
      } else {
        assert grown[|order|] == a;
      }
    }
  }

  lemma {:induction false} ArrivalsFill(c: Config, stats: Stats, base: u32, frames: seq<seq<i16>>, order: seq<Arrived>)
    requires c.Valid() && Offset(c, |frames|) <= TWO31
    requires order != [] && order[0].index == 0 && Distinct(order, |frames|)
    ensures Filling(c, PushAll(c, Fresh(c, stats), base, frames, order), base, frames, order)
    decreases |order|
  {
    var last := |order| - 1;
    var earlier, a := order[..last], order[last];
    assert order == earlier + [a];
    var b := PushAll(c, Fresh(c, stats), base, frames, earlier);
    if last > 0 {
      ArrivalsFill(c, stats, base, frames, earlier);
    }
    ArrivalFills(c, b, base, frames, earlier, a);
  }

  /** A frame yet to come is neither held nor late. */
  lemma NotLate(c: Config, b: Buffer, base: u32, frames: seq<seq<i16>>, order: seq<Arrived>, a: Arrived)
    requires c.Valid() && Offset(c, |frames|) <= TWO31
    requires HoldsArrived(c, b, base, frames, order) && Distinct(order + [a], |frames|) && a.index < |frames|
    ensures TimestampOf(c, base, a.index) !in b.packets
    ensures !TimestampBefore(TimestampOf(c, base, a.index), base)
  {
    TimestampsApart(c, base, |frames|, a.index, a.index);
    NotHeldYet(c, b, base, frames, order, a);
  }

  lemma ArrivalFills(c: Config, b: Buffer, base: u32, frames: seq<seq<i16>>, order: seq<Arrived>, a: Arrived)
    requires c.Valid() && Offset(c, |frames|) <= TWO31
    requires Distinct(order + [a], |frames|) && a.index < |frames|
    requires || Filling(c, b, base, frames, order)
             || (order == [] && a.index == 0 && b.packets == map[] && b.firstPacketTime.None?)
    ensures Filling(c, Push(c, b, PushOf(c, base, frames, a)).buffer, base, frames, order + [a])
    ensures var p := Push(c, b, PushOf(c, base, frames, a));
            p.accepted && (|p.buffer.packets| >= PacketsNeeded(c, p.buffer) ==> p.buffer.primed)
  {
    var op := PushOf(c, base, frames, a);
    var after := Push(c, b, op).buffer;
    assert HoldsArrived(c, b, base, frames, order);
    assert TimestampOf(c, base, 0) == base;
    NotLate(c, b, base, frames, order, a);
    PushStores(c, b, op);
    HoldsGrows(c, b, after, base, frames, order, a);
  }

  // ---- Playing them back ----

  /** Exactly the frames from k on are held and playout has reached frame k. */
  ghost predicate Draining(c: Config, b: Buffer, base: u32, frames: seq<seq<i16>>, k: nat) {
    && k <= |frames|
    && b.primed && b.nextPlayout == Some(TimestampOf(c, base, k))
    && (forall j :: k <= j < |frames| ==> Held(c, b, base, frames, j))
    && (forall t :: t in b.packets ==> FromFrame(c, base, t, k, |frames|))
  }

  ghost predicate FromFrame(c: Config, base: u32, t: u32, from: nat, to: nat) {
    exists j :: from <= j < to && TimestampOf(c, base, j) == t
  }

  lemma NextTimestamp(c: Config, base: u32, k: nat)
    ensures Wrap32(TimestampOf(c, base, k) as int + c.samplesPerPacket) == TimestampOf(c, base, k + 1)
  {
  }

  lemma PopPlays(c: Config, b: Buffer, t: u32)
    requires b.primed && b.nextPlayout == Some(t) && t in b.packets
    ensures var p := AfterPop(c, b);
            && p.decision == Play && p.samples == b.packets[t].samples && p.buffer.primed
            && p.buffer.packets == b.packets - {t}
            && p.buffer.nextPlayout == Some(Wrap32(t as int + c.samplesPerPacket))
  {
  }

  lemma DrainStep(c: Config, b: Buffer, after: Buffer, base: u32, frames: seq<seq<i16>>, k: nat)
    requires c.Valid() && Offset(c, |frames|) <= TWO31
    requires k < |frames| && Draining(c, b, base, frames, k)
    requires after.primed && after.nextPlayout == Some(TimestampOf(c, base, k + 1))
    requires after.packets == b.packets - {TimestampOf(c, base, k)}
    ensures Draining(c, after, base, frames, k + 1)
  {
    forall j | k + 1 <= j < |frames| ensures Held(c, after, base, frames, j) {
      assert Held(c, b, base, frames, j);
      TimestampsApart(c, base, |frames|, k, j);
    }
    forall t | t in after.packets ensures FromFrame(c, base, t, k + 1, |frames|) {
      assert FromFrame(c, base, t, k, |frames|);
    }
  }

  lemma PopDrains(c: Config, b: Buffer, base: u32, frames: seq<seq<i16>>, k: nat)
    requires c.Valid() && Offset(c, |frames|) <= TWO31
    requires k < |frames| && Draining(c, b, base, frames, k)
    ensures var p := AfterPop(c, b);
            p.decision == Play && p.samples == frames[k] && Draining(c, p.buffer, base, frames, k + 1)
  {
    NextTimestamp(c, base, k);
    assert Held(c, b, base, frames, k);
    PopPlays(c, b, TimestampOf(c, base, k));
    DrainStep(c, b, AfterPop(c, b).buffer, base, frames, k);
  }

  lemma AllPlay(n: nat)
    requires n > 0
    ensures seq(n, _ => Play) == [Play] + seq(n - 1, _ => Play)
  {
  }

  lemma Drained(c: Config, b: Buffer, base: u32, frames: seq<seq<i16>>)
    requires Draining(c, b, base, frames, |frames|)
    ensures b.packets == map[]
  {
  }

  lemma {:induction false} PopsDrain(c: Config, b: Buffer, base: u32, frames: seq<seq<i16>>, k: nat)
    requires c.Valid() && Offset(c, |frames|) <= TWO31
    requires Draining(c, b, base, frames, k)
    ensures var p := PopMany(c, b, |frames| - k);
            && p.frames == frames[k..]
            && p.decisions == seq(|frames| - k, _ => Play)
            && p.buffer.packets == map[]
    decreases |frames| - k
  {
    if k < |frames| {
      PopDrains(c, b, base, frames, k);
      PopsDrain(c, AfterPop(c, b).buffer, base, frames, k + 1);
      assert frames[k..] == [frames[k]] + frames[k + 1..];
      AllPlay(|frames| - k);
    } else {
      Drained(c, b, base, frames);
    }
  }

  lemma {:induction false} QuotientMonotone(a: nat, b: nat, d: nat)
    requires a <= b && d > 0
    ensures Quotient(a, d) <= Quotient(b, d)
  {
    if a >= d {
      QuotientMonotone(a - d, b - d, d);
    }
  }

  lemma {:induction false} DelayStaysBounded(c: Config, stats: Stats, base: u32, frames: seq<seq<i16>>,
                                             order: seq<Arrived>)
    requires c.Valid() && Distinct(order, |frames|)
    ensures DelayBounded(c, PushAll(c, Fresh(c, stats), base, frames, order))
    decreases |order|
  {
    if order != [] {
      var last := |order| - 1;
      DelayStaysBounded(c, stats, base, frames, order[..last]);
      PushKeepsDelayBounds(c, PushAll(c, Fresh(c, stats), base, frames, order[..last]),
                           PushOf(c, base, frames, order[last]));
    }
  }

  lemma EnoughPackets(c: Config, b: Buffer, n: nat)
    requires c.Valid() && DelayBounded(c, b) && n >= 1 && n >= Quotient(Highest(c), c.samplesPerPacket)
    ensures n >= PacketsNeeded(c, b)
  {
    QuotientMonotone(b.targetDelay, Highest(c), c.samplesPerPacket);
  }

  lemma {:induction false} FilledIsPrimed(c: Config, stats: Stats, base: u32, frames: seq<seq<i16>>,
                                          order: seq<Arrived>)
    requires c.Valid() && Offset(c, |frames|) <= TWO31
    requires order != [] && order[0].index == 0 && Permutes(order, |frames|)
    requires |frames| >= Quotient(Highest(c), c.samplesPerPacket)
    ensures PushAll(c, Fresh(c, stats), base, frames, order).primed
  {
    var last := |order| - 1;
    var earlier, a := order[..last], order[last];
    assert order == earlier + [a];
    if last > 0 {
      ArrivalsFill(c, stats, base, frames, earlier);
    }
    DelayStaysBounded(c, stats, base, frames, order);
    ArrivalFills(c, PushAll(c, Fresh(c, stats), base, frames, earlier), base, frames, earlier, a);
    EnoughPackets(c, PushAll(c, Fresh(c, stats), base, frames, order), |order|);
  }

  lemma FilledDrains(c: Config, b: Buffer, base: u32, frames: seq<seq<i16>>, order: seq<Arrived>)
    requires Filling(c, b, base, frames, order) && b.primed && Permutes(order, |frames|)
    ensures Draining(c, b, base, frames, 0)
  {
    assert TimestampOf(c, base, 0) == base;
    forall j | 0 <= j < |frames| ensures Held(c, b, base, frames, j) {
      assert Arrives(order, j);
      var i :| 0 <= i < |order| && order[i].index == j;
      assert Held(c, b, base, frames, order[i].index);
    }
    forall t | t in b.packets ensures FromFrame(c, base, t, 0, |frames|) {
      assert FromArrival(c, base, order, t);
    }
  }

  /** n consecutive frames, at least as many as the largest delay needs and within half the
      timestamp space, pushed into a fresh buffer in any order that starts with the first
      and at any times: the next n pops play exactly those frames in media order and leave
      the buffer empty. */
  lemma ReorderingIsUndone(c: Config, stats: Stats, base: u32, frames: seq<seq<i16>>, order: seq<Arrived>)
    requires c.Valid()
    requires Permutes(order, |frames|) && order != [] && order[0].index == 0
    requires |frames| >= Highest(c) / c.samplesPerPacket
    requires |frames| * c.samplesPerPacket <= TWO31
    ensures var p := PopMany(c, PushAll(c, Fresh(c, stats), base, frames, order), |frames|);
            && p.frames == frames
            && p.decisions == seq(|frames|, _ => Play)
            && p.buffer.packets == map[]
  {
    OffsetIsProduct(c, |frames|);
    QuotientIsDivision(Highest(c), c.samplesPerPacket);
    ArrivalsFill(c, stats, base, frames, order);
    FilledIsPrimed(c, stats, base, frames, order);
    var b := PushAll(c, Fresh(c, stats), base, frames, order);
    FilledDrains(c, b, base, frames, order);
    PopsDrain(c, b, base, frames, 0);
  }
}
