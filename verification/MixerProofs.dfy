/** What holds of the mixer over every run and for every iteration order of its map. */
module MixerProofs {
  import opened Words
  import opened Mixer

  // ---- Runs ----

  datatype Op =
    | Add(ssrc: u32, samples: seq<i16>)
    | Silence(ssrc: u32)
    | Remove(ssrc: u32)
    | SetMax(max: nat)
    | Clear

  /** One operation; adding may resolve ties between victims either way. */
  ghost predicate Next(s: State, op: Op, t: State) {
    match op
    case Add(ssrc, samples) => Added(s, ssrc, samples, t)
    case Silence(ssrc) => t == s.(sources := Silenced(s.sources, ssrc))
    case Remove(ssrc) => t == s.(sources := s.sources - {ssrc})
    case SetMax(max) => t == s.(maxSources := Min(max, MAX_CSRC))
    case Clear => t == s.(sources := map[])
  }

  ghost predicate IsRun(states: seq<State>, ops: seq<Op>) {
    && |states| == |ops| + 1
    && states[0] == State(map[], MAX_CSRC)
    && forall i :: 0 <= i < |ops| ==> Next(states[i], ops[i], states[i + 1])
  }

  lemma NextKeepsValid(s: State, op: Op, t: State)
    requires Valid(s) && Next(s, op, t)
    ensures Valid(t)
  {
  }

  /** At most fifteen sources are ever held, so the source list never has to drop one. */
  lemma {:induction false} NeverMoreThanFifteen(states: seq<State>, ops: seq<Op>, n: nat)
    requires IsRun(states, ops) && n < |states|
    ensures Valid(states[n])
  {
    if n > 0 {
      NeverMoreThanFifteen(states, ops, n - 1);
      NextKeepsValid(states[n - 1], ops[n - 1], states[n]);
    }
  }

  /** How often a source is marked silent. */
  function Silences(ops: seq<Op>, ssrc: u32): nat {
    if ops == [] then 0
    else Silences(ops[..|ops| - 1], ssrc) + if ops[|ops| - 1] == Silence(ssrc) then 1 else 0
  }

  /** A source with these samples that has been marked silent this often. */
  predicate SilentFor(source: Source, samples: seq<i16>, count: nat) {
    source.samples == samples && (source.active <==> count == 0) && source.silentFrames == count % 0x1_0000_0000
  }

  /** A source keeps the samples it was last given; it is inactive once marked silent, and counts
      how often it has been since. */
  lemma {:induction false} SilenceIsCounted(states: seq<State>, ops: seq<Op>, m: nat, n: nat, ssrc: u32)
    requires m < n < |states| == |ops| + 1 && ops[m].Add? && ops[m].ssrc == ssrc
    requires Next(states[m], ops[m], states[m + 1]) && StaysHeld(states, ops, m + 1, n, ssrc)
    ensures SilentFor(states[n].sources[ssrc], ops[m].samples, Silences(ops[m + 1..n], ssrc))
    decreases n
  {
    var s, op, t := states[n - 1], ops[n - 1], states[n];
    if n > m + 1 {
      SilenceIsCounted(states, ops, m, n - 1, ssrc);
      SilencesSnoc(ops, m + 1, n, ssrc);
      SilenceStep(s, op, t, ssrc, ops[m].samples, Silences(ops[m + 1..n - 1], ssrc));
    } else {
      AddedIsHeard(s, ssrc, ops[m].samples, t);
      assert ops[m + 1..n] == [];
    }
  }

  /** Through the steps from state i to state j the source is held and not added again. */
  ghost predicate StaysHeld(states: seq<State>, ops: seq<Op>, i: nat, j: nat, ssrc: u32)
    requires i <= j < |states| == |ops| + 1
    decreases j
  {
    && ssrc in states[j].sources
    && (i < j ==> && Next(states[j - 1], ops[j - 1], states[j]) && !(ops[j - 1].Add? && ops[j - 1].ssrc == ssrc)
                  && StaysHeld(states, ops, i, j - 1, ssrc))
  }

  lemma AddedIsHeard(s: State, ssrc: u32, samples: seq<i16>, t: State)
    requires Added(s, ssrc, samples, t) && ssrc in t.sources
    ensures t.sources[ssrc] == Source(samples, true, 0)
  {
    ActiveSourcesSurvive(s, ssrc, samples, t);
  }

  lemma SilencesSnoc(ops: seq<Op>, i: nat, j: nat, ssrc: u32)
    requires i < j <= |ops|
    ensures Silences(ops[i..j], ssrc) == Silences(ops[i..j - 1], ssrc) + if ops[j - 1] == Silence(ssrc) then 1 else 0
  {
    assert ops[i..j][..j - i - 1] == ops[i..j - 1];
  }

  lemma SilenceStep(s: State, op: Op, t: State, ssrc: u32, samples: seq<i16>, count: nat)
    requires Next(s, op, t) && ssrc in s.sources && ssrc in t.sources && !(op.Add? && op.ssrc == ssrc)
    requires SilentFor(s.sources[ssrc], samples, count)
    ensures SilentFor(t.sources[ssrc], samples, count + if op == Silence(ssrc) then 1 else 0)
  {
    assert op != Silence(ssrc) ==> t.sources[ssrc] == s.sources[ssrc];
  }

  /** Removing a source forgets it and no other; clearing forgets all. */
  lemma RemovedIsForgotten(s: State, ssrc: u32, t: State)
    ensures Next(s, Remove(ssrc), t) ==>
              && ssrc !in t.sources && t.maxSources == s.maxSources
              && (forall k :: k != ssrc ==> (k in t.sources <==> k in s.sources))
              && (forall k :: k != ssrc && k in s.sources ==> t.sources[k] == s.sources[k])
    ensures Next(s, Clear, t) ==> t == State(map[], s.maxSources)
  {
  }

  /** A source in use is never evicted: adding touches only the new source and, when the
      mixer is full, one source that has been silent for longest. A new source is turned
      away exactly when the mixer is full of sources in use. */
  lemma ActiveSourcesSurvive(s: State, ssrc: u32, samples: seq<i16>, t: State)
    requires Added(s, ssrc, samples, t)
    ensures forall k :: k in s.sources && s.sources[k].active && k != ssrc ==>
              k in t.sources && t.sources[k] == s.sources[k]
    ensures ssrc !in t.sources <==>
              ssrc !in s.sources && |s.sources| >= s.maxSources && forall k :: k in s.sources ==> s.sources[k].active
    ensures ssrc !in t.sources ==> t == s
    ensures ssrc in t.sources ==> t.sources[ssrc] == Source(samples, true, 0)
    ensures |s.sources.Keys - t.sources.Keys| <= 1
  {
    if ssrc in s.sources || |s.sources| < s.maxSources {
      assert s.sources.Keys - t.sources.Keys == {};
    } else if exists k :: Inactive(s.sources, k) {
      var victim: u32 :| Stalest(s.sources, victim) &&
        t.sources == (s.sources - {victim})[ssrc := Source(samples, true, 0)];
      assert s.sources.Keys - t.sources.Keys <= {victim};
      assert s.sources.Keys - t.sources.Keys == {} || s.sources.Keys - t.sources.Keys == {victim};
    } else {
      assert forall k :: k in s.sources ==> !Inactive(s.sources, k);
      assert s.sources.Keys - t.sources.Keys == {};
    }
  }

  // ---- Who is heard ----

  /** The source list names exactly the active sources with samples, except the excluded one. */
  lemma ListedIff(sources: Sources, exclude: Option<u32>, order: seq<u32>, k: u32)
    requires IsOrder(order, sources)
    ensures k in Contributors(sources, exclude, order) <==>
              k in sources && sources[k].active && |sources[k].samples| > 0 && exclude != Some(k)
  {
    ContributorsExact(sources, exclude, order, |order|);
    assert order[..|order|] == order;
  }

  /** Two states of the sources that differ only in the excluded source and in inactive ones. */
  ghost predicate SoundAlike(a: Sources, b: Sources, exclude: Option<u32>) {
    && a.Keys == b.Keys
    && forall k :: k in a ==> exclude == Some(k) || (!a[k].active && !b[k].active) || a[k] == b[k]
  }

  /** Neither the excluded source nor an inactive one has any influence on the mix. */
  lemma UnheardDoNotMatter(a: Sources, b: Sources, exclude: Option<u32>, order: seq<u32>, i: nat)
    requires SoundAlike(a, b, exclude)
    ensures Mixed(a, exclude, order, i) == Mixed(b, exclude, order, i)
    ensures Contributors(a, exclude, order) == Contributors(b, exclude, order)
  {
    assert Shares(a, exclude, order, i) == Shares(b, exclude, order, i);
    SameContributors(a, b, exclude, order);
  }

  lemma {:induction false} SameContributors(a: Sources, b: Sources, exclude: Option<u32>, order: seq<u32>)
    requires SoundAlike(a, b, exclude)
    ensures Contributors(a, exclude, order) == Contributors(b, exclude, order)
  {
    if order != [] {
      SameContributors(a, b, exclude, order[..|order| - 1]);
    }
  }

  /** The exact sum of what is heard at an index: shorter frames count as silent there. */
  function TotalAt(sources: Sources, exclude: Option<u32>, order: seq<u32>, i: nat): int {
    if order == [] then 0
    else
      var k := order[|order| - 1];
      TotalAt(sources, exclude, order[..|order| - 1], i) +
      if k in sources && sources[k].active && exclude != Some(k) && i < |sources[k].samples|
      then sources[k].samples[i] else 0
  }

  lemma {:induction false} SharesTotal(sources: Sources, exclude: Option<u32>, order: seq<u32>, i: nat)
    ensures Sum(Shares(sources, exclude, order, i)) == TotalAt(sources, exclude, order, i)
  {
    if order != [] {
      var front := order[..|order| - 1];
      SharesTotal(sources, exclude, front, i);
      assert Shares(sources, exclude, order, i)[..|order| - 1] == Shares(sources, exclude, front, i);
    }
  }

  // ---- When clamping step by step equals clamping the exact sum ----

  function PositivePart(xs: seq<i16>): nat {
    if xs == [] then 0 else PositivePart(xs[..|xs| - 1]) + Max(xs[|xs| - 1], 0)
  }

  function NegativePart(xs: seq<i16>): nat {
    if xs == [] then 0 else NegativePart(xs[..|xs| - 1]) + Max(0 - xs[|xs| - 1] as int, 0)
  }

  function Sum(xs: seq<i16>): int {
    if xs == [] then 0 else Sum(xs[..|xs| - 1]) + xs[|xs| - 1]
  }

  lemma SumSplits(xs: seq<i16>)
    ensures Sum(xs) == PositivePart(xs) - NegativePart(xs)
  {
  }

  /** One sign only, or no partial sum can leave the 16-bit range. */
  predicate OrderFree(xs: seq<i16>) {
    || PositivePart(xs) == 0
    || NegativePart(xs) == 0
    || (PositivePart(xs) <= 0x7fff && NegativePart(xs) <= 0x8000)
  }

  lemma {:induction false} SaturateUp(acc: i16, xs: seq<i16>)
    requires NegativePart(xs) == 0
    ensures Saturate(acc, xs) == Min(0x7fff, acc + PositivePart(xs))
  {
    if xs != [] {
      SaturateUp(acc, xs[..|xs| - 1]);
    }
  }

  lemma {:induction false} SaturateDown(acc: i16, xs: seq<i16>)
    requires PositivePart(xs) == 0
    ensures Saturate(acc, xs) == Max(-0x8000, acc - NegativePart(xs))
  {
    if xs != [] {
      SaturateDown(acc, xs[..|xs| - 1]);
    }
  }

  lemma {:induction false} SaturateInRange(xs: seq<i16>)
    requires PositivePart(xs) <= 0x7fff && NegativePart(xs) <= 0x8000
    ensures Saturate(0, xs) == Sum(xs)
  {
    SumSplits(xs);
    if xs != [] {
      SaturateInRange(xs[..|xs| - 1]);
    }
  }

  lemma SaturateExact(xs: seq<i16>)
    requires OrderFree(xs)
    ensures Saturate(0, xs) == Clamp16(Sum(xs))
  {
    SumSplits(xs);
    if PositivePart(xs) == 0 {
      SaturateDown(0, xs);
    } else if NegativePart(xs) == 0 {
      SaturateUp(0, xs);
    } else {
      SaturateInRange(xs);
    }
  }

  lemma {:induction false} Concatenated(acc: i16, xs: seq<i16>, ys: seq<i16>)
    ensures Saturate(acc, xs + ys) == Saturate(Saturate(acc, xs), ys)
    ensures PositivePart(xs + ys) == PositivePart(xs) + PositivePart(ys)
    ensures NegativePart(xs + ys) == NegativePart(xs) + NegativePart(ys)
    decreases |ys|
  {
    if ys == [] {
      assert xs + ys == xs;
    } else {
      var last := |ys| - 1;
      Concatenated(acc, xs, ys[..last]);
      assert (xs + ys)[..|xs + ys| - 1] == xs + ys[..last];
      assert (xs + ys)[|xs + ys| - 1] == ys[last];
    }
  }

  // ---- Every iteration order ----

  ghost predicate Apart(order: seq<u32>) {
    forall i, j :: 0 <= i < j < |order| ==> order[i] != order[j]
  }

  ghost predicate SameKeys(a: seq<u32>, b: seq<u32>) {
    forall k :: k in a <==> k in b
  }

  lemma SharesConcat(sources: Sources, exclude: Option<u32>, a: seq<u32>, b: seq<u32>, i: nat)
    ensures Shares(sources, exclude, a + b, i) == Shares(sources, exclude, a, i) + Shares(sources, exclude, b, i)
  {
  }

  lemma Extracted(order: seq<u32>, j: nat)
    requires Apart(order) && j < |order|
    ensures Apart(order[..j] + order[j + 1..])
    ensures forall k :: k in order[..j] + order[j + 1..] <==> k in order && k != order[j]
  {
  }

  /** The totals of the two signs do not depend on the order. */
  lemma {:induction false} TotalsAgree(sources: Sources, exclude: Option<u32>, a: seq<u32>, b: seq<u32>, i: nat)
    requires Apart(a) && Apart(b) && SameKeys(a, b)
    ensures var xs, ys := Shares(sources, exclude, a, i), Shares(sources, exclude, b, i);
            PositivePart(xs) == PositivePart(ys) && NegativePart(xs) == NegativePart(ys)
    decreases |a|
  {
    if a == [] {
      OrderLength(b, {});
    } else {
      var last := |a| - 1;
      var k := a[last];
      assert k in b;
      var j :| 0 <= j < |b| && b[j] == k;
      var b' := b[..j] + b[j + 1..];
      Extracted(b, j);
      Extracted(a, last);
      assert a[..last] + a[last + 1..] == a[..last];
      forall x ensures x in a[..last] <==> x in b' {
        assert x in a[..last] + a[last + 1..] <==> x in a && x != k;
      }
      TotalsAgree(sources, exclude, a[..last], b', i);
      LiftOut(sources, exclude, a, last, i);
      LiftOut(sources, exclude, b, j, i);
    }
  }

  lemma LiftOut(sources: Sources, exclude: Option<u32>, order: seq<u32>, j: nat, i: nat)
    requires j < |order|
    ensures var xs, ys := Shares(sources, exclude, order, i), Shares(sources, exclude, order[..j] + order[j + 1..], i);
            var x := Share(sources, exclude, order[j], i);
            && PositivePart(xs) == PositivePart(ys) + Max(x, 0)
            && NegativePart(xs) == NegativePart(ys) + Max(0 - x as int, 0)
  {
    var before, after := order[..j], order[j + 1..];
    var x := Share(sources, exclude, order[j], i);
    assert order == before + ([order[j]] + after);
    SharesConcat(sources, exclude, before, [order[j]] + after, i);
    SharesConcat(sources, exclude, [order[j]], after, i);
    SharesConcat(sources, exclude, before, after, i);
    assert Shares(sources, exclude, [order[j]], i) == [x];
    Concatenated(0, Shares(sources, exclude, before, i), [x] + Shares(sources, exclude, after, i));
    Concatenated(0, [x], Shares(sources, exclude, after, i));
    Concatenated(0, Shares(sources, exclude, before, i), Shares(sources, exclude, after, i));
    assert [x][..0] == [];
    assert PositivePart([x]) == Max(x, 0) && NegativePart([x]) == Max(0 - x as int, 0);
  }

  /** The sources whose share lies in [low, high]. */
  function Pick(sources: Sources, exclude: Option<u32>, order: seq<u32>, i: nat, low: int, high: int): seq<u32> {
    if order == [] then []
    else
      var last := |order| - 1;
      Pick(sources, exclude, order[..last], i, low, high) +
      if low <= Share(sources, exclude, order[last], i) <= high then [order[last]] else []
  }

  lemma {:induction false} PickMembers(sources: Sources, exclude: Option<u32>, order: seq<u32>, i: nat, low: int,
                                       high: int)
    requires Apart(order)
    ensures var p := Pick(sources, exclude, order, i, low, high);
            && Apart(p)
            && (forall k :: k in p <==> k in order && low <= Share(sources, exclude, k, i) <= high)
  {
    if order != [] {
      var last := |order| - 1;
      PickMembers(sources, exclude, order[..last], i, low, high);
      assert order == order[..last] + [order[last]];
      assert order[last] !in order[..last];
    }
  }

  lemma {:induction false} PickSigns(sources: Sources, exclude: Option<u32>, order: seq<u32>, i: nat, low: int,
                                     high: int)
    ensures var xs := Shares(sources, exclude, Pick(sources, exclude, order, i, low, high), i);
            && (low >= 0 ==> NegativePart(xs) == 0)
            && (high <= 0 ==> PositivePart(xs) == 0)
  {
    if order != [] {
      var last := |order| - 1;
      PickSigns(sources, exclude, order[..last], i, low, high);
      var p := Pick(sources, exclude, order[..last], i, low, high);
      LiftOut(sources, exclude, p + [order[last]], |p|, i);
      assert (p + [order[last]])[..|p|] + (p + [order[last]])[|p| + 1..] == p;
    }
  }

  lemma Joined(a: seq<u32>, b: seq<u32>, sources: Sources)
    requires Apart(a) && Apart(b)
    requires forall k :: k in a ==> k !in b
    requires forall k :: k in sources <==> k in a || k in b
    ensures IsOrder(a + b, sources)
  {
    var q := a + b;
    forall i, j | 0 <= i < j < |q| ensures q[i] != q[j] {
      if i < |a| <= j {
        assert q[i] == a[i] && q[j] == b[j - |a|];
        assert q[i] in a && q[j] in b;
      }
    }
  }

  lemma PicksPartition(sources: Sources, exclude: Option<u32>, order: seq<u32>, i: nat)
    requires IsOrder(order, sources)
    ensures var a, b := Pick(sources, exclude, order, i, 1, 0x7fff), Pick(sources, exclude, order, i, -0x8000, 0);
            && IsOrder(a + b, sources) && IsOrder(b + a, sources)
            && NegativePart(Shares(sources, exclude, a, i)) == 0
            && PositivePart(Shares(sources, exclude, b, i)) == 0
  {
    PickMembers(sources, exclude, order, i, 1, 0x7fff);
    PickMembers(sources, exclude, order, i, -0x8000, 0);
    PickSigns(sources, exclude, order, i, 1, 0x7fff);
    PickSigns(sources, exclude, order, i, -0x8000, 0);
    var a, b := Pick(sources, exclude, order, i, 1, 0x7fff), Pick(sources, exclude, order, i, -0x8000, 0);
    Joined(a, b, sources);
    Joined(b, a, sources);
  }

  lemma MixedInTwoParts(sources: Sources, exclude: Option<u32>, order: seq<u32>, a: seq<u32>, b: seq<u32>, i: nat)
    requires IsOrder(order, sources) && IsOrder(a + b, sources)
    ensures var ws := Shares(sources, exclude, order, i);
            var xs, ys := Shares(sources, exclude, a, i), Shares(sources, exclude, b, i);
            && PositivePart(ws) == PositivePart(xs) + PositivePart(ys)
            && NegativePart(ws) == NegativePart(xs) + NegativePart(ys)
            && Mixed(sources, exclude, a + b, i) == Saturate(Saturate(0, xs), ys)
  {
    TotalsAgree(sources, exclude, a + b, order, i);
    SharesConcat(sources, exclude, a, b, i);
    Concatenated(0, Shares(sources, exclude, a, i), Shares(sources, exclude, b, i));
  }

  lemma SaturateUpDown(xs: seq<i16>, ys: seq<i16>)
    requires NegativePart(xs) == 0 && PositivePart(ys) == 0
    ensures Saturate(Saturate(0, xs), ys) == Max(-0x8000, Min(0x7fff, PositivePart(xs)) - NegativePart(ys))
    ensures Saturate(Saturate(0, ys), xs) == Min(0x7fff, Max(-0x8000, 0 - NegativePart(ys) as int) + PositivePart(xs))
  {
    SaturateUp(0, xs);
    SaturateDown(Saturate(0, xs), ys);
    SaturateDown(0, ys);
    SaturateUp(Saturate(0, ys), xs);
  }

  /** Taking the positive shares (`a`) first. */
  lemma UpThenDown(sources: Sources, exclude: Option<u32>, order: seq<u32>, a: seq<u32>, b: seq<u32>, i: nat)
    requires IsOrder(order, sources) && IsOrder(a + b, sources)
    requires NegativePart(Shares(sources, exclude, a, i)) == 0 && PositivePart(Shares(sources, exclude, b, i)) == 0
    ensures var xs := Shares(sources, exclude, order, i);
            Mixed(sources, exclude, a + b, i) == Max(-0x8000, Min(0x7fff, PositivePart(xs)) - NegativePart(xs))
  {
    MixedInTwoParts(sources, exclude, order, a, b, i);
    SaturateUpDown(Shares(sources, exclude, a, i), Shares(sources, exclude, b, i));
  }

  /** Taking the negative shares (`b`) first. */
  lemma DownThenUp(sources: Sources, exclude: Option<u32>, order: seq<u32>, a: seq<u32>, b: seq<u32>, i: nat)
    requires IsOrder(order, sources) && IsOrder(b + a, sources)
    requires NegativePart(Shares(sources, exclude, a, i)) == 0 && PositivePart(Shares(sources, exclude, b, i)) == 0
    ensures var xs := Shares(sources, exclude, order, i);
            Mixed(sources, exclude, b + a, i)
            == Min(0x7fff, Max(-0x8000, 0 - NegativePart(xs) as int) + PositivePart(xs))
  {
    MixedInTwoParts(sources, exclude, order, b, a, i);
    SaturateUpDown(Shares(sources, exclude, a, i), Shares(sources, exclude, b, i));
  }

  ghost predicate ExactInEveryOrder(sources: Sources, exclude: Option<u32>, order: seq<u32>, i: nat) {
    forall q :: IsOrder(q, sources) ==>
      Mixed(sources, exclude, q, i) == Clamp16(Sum(Shares(sources, exclude, order, i)))
  }

  /** The mix at a sample index is the clamped exact sum in every iteration order if and only
      if the shares there have one sign, or the positive shares total at most 32767 and the
      negative ones at most 32768 in magnitude. `order` only names the shares. */
  lemma MixIsExactIff(sources: Sources, exclude: Option<u32>, order: seq<u32>, i: nat)
    requires IsOrder(order, sources)
    ensures ExactInEveryOrder(sources, exclude, order, i) <==> OrderFree(Shares(sources, exclude, order, i))
    ensures Sum(Shares(sources, exclude, order, i)) == TotalAt(sources, exclude, order, i)
  {
    SharesTotal(sources, exclude, order, i);
    if OrderFree(Shares(sources, exclude, order, i)) {
      ExactWhenOrderFree(sources, exclude, order, i);
    } else {
      InexactOtherwise(sources, exclude, order, i);
    }
  }

  lemma ExactWhenOrderFree(sources: Sources, exclude: Option<u32>, order: seq<u32>, i: nat)
    requires IsOrder(order, sources) && OrderFree(Shares(sources, exclude, order, i))
    ensures ExactInEveryOrder(sources, exclude, order, i)
  {
    SumSplits(Shares(sources, exclude, order, i));
    forall q | IsOrder(q, sources)
      ensures Mixed(sources, exclude, q, i) == Clamp16(Sum(Shares(sources, exclude, order, i)))
    {
      var ys := Shares(sources, exclude, q, i);
      TotalsAgree(sources, exclude, q, order, i);
      SumSplits(ys);
      SaturateExact(ys);
    }
  }

  lemma InexactOtherwise(sources: Sources, exclude: Option<u32>, order: seq<u32>, i: nat)
    requires IsOrder(order, sources) && !OrderFree(Shares(sources, exclude, order, i))
    ensures !ExactInEveryOrder(sources, exclude, order, i)
  {
    var a, b := Pick(sources, exclude, order, i, 1, 0x7fff), Pick(sources, exclude, order, i, -0x8000, 0);
    PicksPartition(sources, exclude, order, i);
    Contrast(sources, exclude, order, a, b, i);
  }

  lemma Contrast(sources: Sources, exclude: Option<u32>, order: seq<u32>, a: seq<u32>, b: seq<u32>, i: nat)
    requires IsOrder(order, sources) && IsOrder(a + b, sources) && IsOrder(b + a, sources)
    requires NegativePart(Shares(sources, exclude, a, i)) == 0 && PositivePart(Shares(sources, exclude, b, i)) == 0
    requires !OrderFree(Shares(sources, exclude, order, i))
    ensures !ExactInEveryOrder(sources, exclude, order, i)
  {
    var xs := Shares(sources, exclude, order, i);
    UpThenDown(sources, exclude, order, a, b, i);
    DownThenUp(sources, exclude, order, a, b, i);
    SidesDiffer(PositivePart(xs), NegativePart(xs));
  }

  lemma SidesDiffer(up: nat, down: nat)
    requires up > 0 && down > 0 && (up > 0x7fff || down > 0x8000)
    ensures Max(-0x8000, Min(0x7fff, up) - down) != Min(0x7fff, Max(-0x8000, 0 - down as int) + up)
  {
  }

  /** Two orders of the same three sources mix differently, and one of them is not the
      clamped exact sum. */
  lemma OrderCanMatter()
    ensures var sources := map[1 := Source([30000], true, 0), 2 := Source([10000], true, 0),
                               3 := Source([-20000], true, 0)];
            && IsOrder([1, 2, 3], sources) && IsOrder([1, 3, 2], sources)
            && Mixed(sources, None, [1, 2, 3], 0) == 12767
            && Mixed(sources, None, [1, 3, 2], 0) == 20000
  {
    var sources := map[1 := Source([30000], true, 0), 2 := Source([10000], true, 0), 3 := Source([-20000], true, 0)];
    SaturateThree(30000, 10000, -20000);
    SaturateThree(30000, -20000, 10000);
    assert Shares(sources, None, [1, 2, 3], 0) == [30000, 10000, -20000];
    assert Shares(sources, None, [1, 3, 2], 0) == [30000, -20000, 10000];
  }

  lemma SaturateThree(a: i16, b: i16, c: i16)
    ensures Saturate(0, [a, b, c]) == AddClamped(AddClamped(a, b), c)
  {
    assert [a, b, c][..2] == [a, b];
    assert [a, b][..1] == [a];
    assert [a][..0] == [];
    assert Saturate(0, [a]) == AddClamped(Saturate(0, []), a) == a;
    assert Saturate(0, [a, b]) == AddClamped(a, b);
  }
}
