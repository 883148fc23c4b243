/** The conference mixer: saturating accumulation over an unordered map of sources, with an
    eviction policy and the limit of fifteen contributing sources.

    The map is iterated in no fixed order, so every operation that iterates takes the order
    as an input. */
module Mixer {
  import opened Words

  const MAX_CSRC: nat := 15

  datatype Source = Source(samples: seq<i16>, active: bool, silentFrames: u32)

  type Sources = map<u32, Source>

  /** An iteration order of the map: every key once. */
  ghost predicate IsOrder(order: seq<u32>, sources: Sources) {
    && (forall k :: k in order <==> k in sources)
    && (forall i, j :: 0 <= i < j < |order| ==> order[i] != order[j])
  }

  // ---- Which sources are kept ----

  predicate Inactive(sources: Sources, k: u32) {
    k in sources && !sources[k].active
  }

  /** k is inactive and no inactive source has been silent for longer. */
  ghost predicate Stalest(sources: Sources, k: u32) {
    && Inactive(sources, k)
    && forall j :: Inactive(sources, j) ==> sources[j].silentFrames <= sources[k].silentFrames
  }

  datatype State = State(sources: Sources, maxSources: nat)

  ghost predicate Valid(s: State) {
    |s.sources| <= MAX_CSRC && s.maxSources <= MAX_CSRC
  }

  /** What adding a source may do; the iteration order decides between equally stale victims. */
  ghost predicate Added(s: State, ssrc: u32, samples: seq<i16>, t: State) {
    var heard := Source(samples, true, 0);
    && t.maxSources == s.maxSources
    && if ssrc in s.sources || |s.sources| < s.maxSources then t.sources == s.sources[ssrc := heard]
       else if exists k :: Inactive(s.sources, k) then
         exists victim: u32 :: Stalest(s.sources, victim) && t.sources == (s.sources - {victim})[ssrc := heard]
       else t.sources == s.sources
  }

  function Silenced(sources: Sources, ssrc: u32): Sources {
    if ssrc in sources
    then sources[ssrc := sources[ssrc].(active := false, silentFrames := Wrap32(sources[ssrc].silentFrames as int + 1))]
    else sources
  }

  // ---- What is mixed ----

  function Clamp16(n: int): i16 {
    if n < -0x8000 then -0x8000 else if n > 0x7fff then 0x7fff else n
  }

  function AddClamped(a: i16, b: i16): i16 {
    Clamp16(a as int + b as int)
  }

  predicate Contributes(sources: Sources, exclude: Option<u32>, k: u32) {
    k in sources && exclude != Some(k) && sources[k].active && sources[k].samples != []
  }

  function Contributors(sources: Sources, exclude: Option<u32>, order: seq<u32>): seq<u32> {
    if order == [] then []
    else
      var last := |order| - 1;
      Contributors(sources, exclude, order[..last]) +
      if Contributes(sources, exclude, order[last]) then [order[last]] else []
  }

  /** What source k adds at sample index i. */
  function Share(sources: Sources, exclude: Option<u32>, k: u32, i: nat): i16 {
    if Contributes(sources, exclude, k) && i < |sources[k].samples| then sources[k].samples[i] else 0
  }

  function Shares(sources: Sources, exclude: Option<u32>, order: seq<u32>, i: nat): seq<i16> {
    seq(|order|, j requires 0 <= j < |order| => Share(sources, exclude, order[j], i))
  }

  /** Left-to-right accumulation with a clamp after every addition. */
  function Saturate(acc: i16, xs: seq<i16>): i16 {
    if xs == [] then acc
    else AddClamped(Saturate(acc, xs[..|xs| - 1]), xs[|xs| - 1])
  }

  function Mixed(sources: Sources, exclude: Option<u32>, order: seq<u32>, i: nat): i16 {
    Saturate(0, Shares(sources, exclude, order, i))
  }

  lemma SharesSnoc(sources: Sources, exclude: Option<u32>, order: seq<u32>, n: nat, i: nat)
    requires n < |order|
    ensures Shares(sources, exclude, order[..n + 1], i) ==
            Shares(sources, exclude, order[..n], i) + [Share(sources, exclude, order[n], i)]
    ensures Mixed(sources, exclude, order[..n + 1], i) ==
            AddClamped(Mixed(sources, exclude, order[..n], i), Share(sources, exclude, order[n], i))
  {
  }

  lemma ContributorsSnoc(sources: Sources, exclude: Option<u32>, order: seq<u32>, n: nat)
    requires n < |order|
    ensures Contributors(sources, exclude, order[..n + 1]) ==
            Contributors(sources, exclude, order[..n]) +
            if Contributes(sources, exclude, order[n]) then [order[n]] else []
  {
    assert order[..n + 1][..n] == order[..n];
  }

  lemma ContributorsFit(sources: Sources, exclude: Option<u32>, order: seq<u32>)
    ensures |Contributors(sources, exclude, order)| <= |order|
  {
  }

  /** The contributors are those sources of the order that contribute, each once. */
  lemma {:induction false} ContributorsExact(sources: Sources, exclude: Option<u32>, order: seq<u32>, n: nat)
    requires n <= |order| && IsOrder(order, sources)
    ensures forall k :: k in Contributors(sources, exclude, order[..n]) <==>
              k in order[..n] && Contributes(sources, exclude, k)
    ensures var c := Contributors(sources, exclude, order[..n]);
            |c| <= n && forall i, j :: 0 <= i < j < |c| ==> c[i] != c[j]
  {
    if n > 0 {
      ContributorsExact(sources, exclude, order, n - 1);
      ContributorsSnoc(sources, exclude, order, n - 1);
      assert order[..n] == order[..n - 1] + [order[n - 1]];
      assert order[n - 1] !in order[..n - 1];
    }
  }

  lemma {:induction false} OrderLength(order: seq<u32>, keys: set<u32>)
    requires forall k :: k in order <==> k in keys
    requires forall i, j :: 0 <= i < j < |order| ==> order[i] != order[j]
    ensures |order| == |keys|
  {
    if order != [] {
      var last := |order| - 1;
      var k := order[last];
      assert order == order[..last] + [k];
      assert k !in order[..last];
      OrderLength(order[..last], keys - {k});
    } else {
      assert keys == {};
    }
  }

  /** The mixer object. */
  class AudioMixer {
    var sources: Sources
    var maxSources: nat
    var outputBuffer: seq<i16>

    ghost function View(): State
      reads this
    {
      State(sources, maxSources)
    }

    constructor ()
      ensures View() == State(map[], MAX_CSRC)
    {
      sources := map[];
      maxSources := MAX_CSRC;
      outputBuffer := [];
    }

    method SetMaxSources(max: nat)
      modifies this`maxSources
      ensures maxSources == Min(max, MAX_CSRC)
    {
      maxSources := Min(max, MAX_CSRC);
    }

    /** The inactive source silent for longest, the last such in iteration order. */
    method OldestInactive(order: seq<u32>) returns (victim: Option<u32>)
      requires IsOrder(order, sources)
      ensures victim.None? ==> forall k :: !Inactive(sources, k)
      ensures victim.Some? ==> Stalest(sources, victim.value)
    {
      victim := None;
      for n := 0 to |order|
        invariant victim.None? ==> forall i :: 0 <= i < n ==> sources[order[i]].active
        invariant victim.Some? ==> Inactive(sources, victim.value)
        invariant victim.Some? ==> forall i :: 0 <= i < n && Inactive(sources, order[i]) ==>
                    sources[order[i]].silentFrames <= sources[victim.value].silentFrames
      {
        if !sources[order[n]].active {
          if victim.None? || sources[victim.value].silentFrames <= sources[order[n]].silentFrames {
            victim := Some(order[n]);
          }
        }
      }
      assert forall k :: Inactive(sources, k) ==> k in order;
    }

    method AddSource(ssrc: u32, samples: seq<i16>, order: seq<u32>)
      requires IsOrder(order, sources)
      modifies this`sources
      ensures Added(old(View()), ssrc, samples, View())
    {
      if |sources| >= maxSources && ssrc !in sources {
        var inactive := OldestInactive(order);
        if inactive.Some? {
          assert Stalest(sources, inactive.value);
          sources := sources - {inactive.value};
        } else {
          return;
        }
      }
      sources := sources[ssrc := Source(samples, true, 0)];
    }

    method MarkSilent(ssrc: u32)
      modifies this`sources
      ensures sources == Silenced(old(sources), ssrc)
    {
      if ssrc in sources {
        var source := sources[ssrc];
        sources := sources[ssrc := source.(active := false, silentFrames := Wrap32(source.silentFrames as int + 1))];
      }
    }

    method RemoveSource(ssrc: u32)
      modifies this`sources
      ensures sources == old(sources) - {ssrc}
    {
      sources := sources - {ssrc};
    }

    method Clear()
      modifies this`sources
      ensures sources == map[]
    {
      sources := map[];
    }

    /** Mixes every contributing source but one. The source list names each contributor. */
    method MixExcept(numSamples: nat, exclude: Option<u32>, order: seq<u32>)
      returns (mixed: seq<i16>, csrcs: seq<u32>)
      requires IsOrder(order, sources) && Valid(View())
      modifies this`outputBuffer
      ensures |mixed| == numSamples
      ensures forall i :: 0 <= i < numSamples ==> mixed[i] == Mixed(sources, exclude, order, i)
      ensures forall k :: k in csrcs <==> Contributes(sources, exclude, k)
      ensures forall i, j :: 0 <= i < j < |csrcs| ==> csrcs[i] != csrcs[j]
      ensures |csrcs| <= MAX_CSRC
    {
      outputBuffer := seq(numSamples, _ => 0);
      csrcs := [];
      OrderLength(order, sources.Keys);
      for n := 0 to |order|
        invariant csrcs == Contributors(sources, exclude, order[..n])
        invariant Accumulated(numSamples, exclude, order[..n])
      {
        csrcs := MixOne(numSamples, exclude, order, n, csrcs);
      }
      assert order[..|order|] == order;
      ContributorsExact(sources, exclude, order, |order|);
      mixed := outputBuffer;
    }

    /** The output buffer holds the mix of the sources in `order`. */
    ghost predicate Accumulated(numSamples: nat, exclude: Option<u32>, order: seq<u32>)
      reads this
    {
      && |outputBuffer| == numSamples
      && forall i :: 0 <= i < numSamples ==> outputBuffer[i] == Mixed(sources, exclude, order, i)
    }

    /** The next source of the iteration: skipped, or listed and accumulated in place. */
    method MixOne(numSamples: nat, exclude: Option<u32>, order: seq<u32>, n: nat, listed: seq<u32>)
      returns (csrcs: seq<u32>)
      requires n < |order| <= MAX_CSRC && order[n] in sources && Accumulated(numSamples, exclude, order[..n])
      requires listed == Contributors(sources, exclude, order[..n])
      modifies this`outputBuffer
      ensures Accumulated(numSamples, exclude, order[..n + 1])
      ensures csrcs == Contributors(sources, exclude, order[..n + 1])
    {
      ContributorsSnoc(sources, exclude, order, n);
      ContributorsFit(sources, exclude, order[..n]);
      csrcs := listed;
      forall i | 0 <= i < numSamples
        ensures Mixed(sources, exclude, order[..n + 1], i) ==
                AddClamped(Mixed(sources, exclude, order[..n], i), Share(sources, exclude, order[n], i))
      {
        SharesSnoc(sources, exclude, order, n, i);
      }
      var ssrc := order[n];
      if exclude == Some(ssrc) {
        return;
      }
      if !sources[ssrc].active || sources[ssrc].samples == [] {
        return;
      }
      if |csrcs| < 15 {
        csrcs := csrcs + [ssrc];
      }
      Accumulate(sources[ssrc].samples);
    }

    /** Adds one source to the output buffer in place, clamping each sample. */
    method Accumulate(samples: seq<i16>)
      modifies this`outputBuffer
      ensures |outputBuffer| == |old(outputBuffer)|
      ensures forall i :: 0 <= i < |outputBuffer| ==>
                outputBuffer[i]
                == if i < |samples| then AddClamped(old(outputBuffer)[i], samples[i]) else old(outputBuffer)[i]
    {
      var mixLen := Min(|outputBuffer|, |samples|);
      for i := 0 to mixLen
        invariant |outputBuffer| == |old(outputBuffer)|
        invariant forall j :: 0 <= j < i ==> outputBuffer[j] == AddClamped(old(outputBuffer)[j], samples[j])
        invariant forall j :: i <= j < |outputBuffer| ==> outputBuffer[j] == old(outputBuffer)[j]
      {
        outputBuffer := outputBuffer[i := AddClamped(outputBuffer[i], samples[i])];
      }
    }
  }
}
