/** What is heard when a packet is missing: the fade of the frame heard just before. */
module JitterConceal {
  import opened Words
  import opened Jitter
  import opened JitterRuns

  /** Sample by sample, a fades from full level to half level, truncated towards zero. */
  ghost predicate FadesTo(a: seq<i16>, b: seq<i16>) {
    && |a| == |b|
    && forall i :: 0 <= i < |a| ==> IsFaded(a[i], i, |a|, b[i])
  }

  /** The sample times (2n - i) / 2n, truncated towards zero. */
  ghost predicate IsFaded(sample: i16, i: nat, n: nat, faded: i16) {
    var exact: int := sample * (2 * n - i);
    if sample >= 0 then faded * (2 * n) <= exact < (faded + 1) * (2 * n)
    else (faded - 1) * (2 * n) < exact <= faded * (2 * n)
  }

  /** Pop j in terms of the one before it: a concealed frame is the fade of the frame just
      heard, and a silent one is a packet of zeros. */
  ghost predicate Heard(c: Config, pops: seq<Record>, j: nat)
    requires j < |pops|
  {
    && (pops[j].decision == Conceal ==>
          j > 0 && pops[j - 1].decision != Silence && FadesTo(pops[j - 1].samples, pops[j].samples))
    && (pops[j].decision == Silence ==> pops[j].samples == seq(c.samplesPerPacket, _ => 0))
  }

  /** What the next concealment will fade: the latest frame heard. Before any is heard, the
      packet that will be played first is stored. */
  ghost predicate Remembers(c: Config, r: Run) {
    && (forall j :: 0 <= j < |r.pops| ==> Heard(c, r.pops, j))
    && (if |r.pops| > 0 && r.pops[|r.pops| - 1].decision != Silence
        then r.buffer.lastSamples == r.pops[|r.pops| - 1].samples
        else r.buffer.nextPlayout.Some? ==> r.buffer.nextPlayout.value in r.buffer.packets)
  }

  lemma SampleFades(sample: i16, i: nat, n: nat)
    requires i < n
    ensures IsFaded(sample, i, n, FadeSample(sample, i, n))
  {
    var k: int := 2 * n - i;
    var exact: int := sample * k;
    SignOfProduct(sample, k);
    TruncBounds(exact, 2 * n);
  }

  lemma SignOfProduct(a: int, k: int)
    requires k > 0
    ensures a >= 0 ==> a * k >= 0
    ensures a < 0 ==> a * k < 0
  {
  }

  lemma TruncBounds(a: int, d: int)
    requires d > 0
    ensures var q := TruncDiv(a, d);
            if a >= 0 then q * d <= a < (q + 1) * d else (q - 1) * d < a <= q * d
  {
    Divides(Abs(a), d);
    var q := Abs(a) / d;
    assert (q + 1) * d == q * d + d && (-q) * d == -(q * d) && (-q - 1) * d == -(q * d) - d;
  }

  lemma Divides(a: nat, d: int)
    requires d > 0
    ensures a / d * d <= a < a / d * d + d
  {
  }

  lemma FadedFades(samples: seq<i16>)
    ensures FadesTo(samples, Faded(samples))
  {
    forall i | 0 <= i < |samples| ensures IsFaded(samples[i], i, |samples|, Faded(samples)[i]) {
      SampleFades(samples[i], i, |samples|);
    }
  }

  /** What a pop leaves to be faded, and what it makes of that. */
  lemma PopRemembers(c: Config, b: Buffer)
    requires b.primed ==> b.nextPlayout.Some?
    ensures var p := AfterPop(c, b);
            && (p.decision == Silence ==> !b.primed && p.buffer == b && p.samples == SilentFrame(c))
            && (p.decision != Silence ==> p.buffer.lastSamples == p.samples)
            && (p.decision == Conceal ==> p.samples == Faded(b.lastSamples) && b.nextPlayout.value !in b.packets)
  {
  }

  lemma HeardEarlier(c: Config, pops: seq<Record>, rec: Record, j: nat)
    requires j < |pops| && Heard(c, pops, j)
    ensures Heard(c, pops + [rec], j)
  {
  }

  lemma PushRemembers(c: Config, r: Run, op: Op)
    requires c.Valid() && op.DoPush? && WellFormed(r.buffer) && Remembers(c, r)
    ensures Remembers(c, Step(c, r, op))
  {
  }

  lemma PopKeepsMemory(c: Config, r: Run)
    requires c.Valid() && WellFormed(r.buffer) && Forward(c, r) && Remembers(c, r)
    ensures Remembers(c, Step(c, r, DoPop))
  {
    var after := Step(c, r, DoPop);
    PopRemembers(c, r.buffer);
    FadedFades(r.buffer.lastSamples);
    forall j | 0 <= j < |after.pops| ensures Heard(c, after.pops, j) {
      if j < |r.pops| {
        HeardEarlier(c, r.pops, after.pops[|r.pops|], j);
      }
    }
  }

  lemma {:induction false} RunRemembers(c: Config, ops: seq<Op>)
    requires c.Valid()
    ensures Remembers(c, RunAll(c, ops))
  {
    if ops != [] {
      var front := ops[..|ops| - 1];
      RunRemembers(c, front);
      RunKeepsInv(c, front);
      match ops[|ops| - 1] {
        case DoPush(_, _, _, _) => PushRemembers(c, RunAll(c, front), ops[|ops| - 1]);
        case DoPop => PopKeepsMemory(c, RunAll(c, front));
        case DoReset =>
      }
    }
  }

  /** Over every run: a concealed frame follows an audible pop and is the fade of its frame, of
      the same length, sample i at (2n - i) / 2n of its level truncated towards zero; and a
      silent frame is one packet of zeros. */
  lemma ConcealedFramesFade(c: Config, ops: seq<Op>, j: nat)
    requires c.Valid() && j < |RunAll(c, ops).pops|
    ensures Heard(c, RunAll(c, ops).pops, j)
  {
    RunRemembers(c, ops);
  }
}
