/** Two agents with opposite roles that exchange their candidates, in any batches and order,
    build check lists that agree (section 6.1.2.3 of RFC 8445). */
module CheckListAgreement {
  import opened Words
  import opened Candidate
  import opened CheckList

  /** A pair without its progress: what both agents should agree on. */
  datatype Core = Core(local: Candidate, remote: Candidate, priority: u64) {
    function Mirrored(): Core {
      Core(remote, local, priority)
    }
  }

  function CoreOf(p: Pair): Core {
    Core(p.local, p.remote, p.priority)
  }

  function Cores(pairs: seq<Pair>): (cs: seq<Core>)
    ensures |cs| == |pairs| && forall i :: 0 <= i < |cs| ==> cs[i] == CoreOf(pairs[i])
  {
    seq(|pairs|, i requires 0 <= i < |pairs| => CoreOf(pairs[i]))
  }

  function Mirror(cores: seq<Core>): (cs: seq<Core>)
    ensures |cs| == |cores| && forall i :: 0 <= i < |cs| ==> cs[i] == cores[i].Mirrored()
  {
    seq(|cores|, i requires 0 <= i < |cores| => cores[i].Mirrored())
  }

  function Priorities(cores: seq<Core>): (ps: seq<u64>)
    ensures |ps| == |cores| && forall i :: 0 <= i < |ps| ==> ps[i] == cores[i].priority
  {
    seq(|cores|, i requires 0 <= i < |cores| => cores[i].priority)
  }

  // ---- Assumptions on the candidates ----

  ghost predicate DistinctAddresses(cs: seq<Candidate>) {
    forall i, j :: 0 <= i < j < |cs| ==> cs[i].address != cs[j].address
  }

  ghost predicate DistinctPriorities(cs: seq<Candidate>) {
    forall i, j :: 0 <= i < j < |cs| ==> cs[i].priority != cs[j].priority
  }

  ghost predicate SmallPriorities(cs: seq<Candidate>) {
    forall c :: c in cs ==> c.priority <= TWO31
  }

  ghost predicate SameElements<T(!new)>(a: seq<T>, b: seq<T>) {
    forall x :: x in a <==> x in b
  }

  // ---- Mirror images as sets ----

  /** The pairs held are exactly the compatible combinations, with their priority. */
  lemma PairsAreCombinations(role: Role, pairs: seq<Pair>, local: seq<Candidate>, remote: seq<Candidate>, c: Core)
    requires DistinctAddresses(local) && DistinctAddresses(remote)
    requires Sound(role, pairs, local, remote) && Covers(pairs, local, remote)
    ensures c in Cores(pairs) <==>
              && c.local in local && c.remote in remote && Compatible(c.local, c.remote)
              && c.priority == PairPriority(role, c.local, c.remote)
  {
  }

  lemma SameLists(role: Role, pairs: seq<Pair>, local: seq<Candidate>, a: seq<Candidate>, b: seq<Candidate>)
    requires SameElements(a, b)
    ensures Sound(role, pairs, local, a) ==> Sound(role, pairs, local, b)
    ensures Covers(pairs, local, a) ==> Covers(pairs, local, b)
  {
  }

  ghost predicate Exchanged(a: seq<Candidate>, toA: seq<seq<Candidate>>, b: seq<Candidate>, toB: seq<seq<Candidate>>) {
    SameElements(Flatten(toA), b) && SameElements(Flatten(toB), a)
  }

  /** The two check lists are mirror images of each other as sets. */
  lemma MirrorImages(a: seq<Candidate>, toA: seq<seq<Candidate>>, b: seq<Candidate>, toB: seq<seq<Candidate>>, c: Core)
    requires Exchanged(a, toA, b, toB)
    requires DistinctAddresses(a) && DistinctAddresses(b)
    ensures c in Cores(FormAll(Controlling, a, toA)) <==> c.Mirrored() in Cores(FormAll(Controlled, b, toB))
  {
    FormAllFacts(Controlling, a, toA);
    FormAllFacts(Controlled, b, toB);
    SameLists(Controlling, FormAll(Controlling, a, toA), a, Flatten(toA), b);
    SameLists(Controlled, FormAll(Controlled, b, toB), b, Flatten(toB), a);
    PairsAreCombinations(Controlling, FormAll(Controlling, a, toA), a, b, c);
    PairsAreCombinations(Controlled, FormAll(Controlled, b, toB), b, a, c.Mirrored());
    PairPriorityIsSymmetric(true, c.local.priority, c.remote.priority);
  }

  // ---- Identical priority sequences ----

  ghost predicate NoRepeats<T>(xs: seq<T>) {
    forall i, j :: 0 <= i < j < |xs| ==> xs[i] != xs[j]
  }

  ghost predicate Falling(xs: seq<u64>) {
    forall i, j :: 0 <= i < j < |xs| ==> xs[i] >= xs[j]
  }

  lemma PrioritiesConcat(a: seq<Core>, b: seq<Core>)
    ensures Priorities(a + b) == Priorities(a) + Priorities(b)
  {
  }

  lemma Without(xs: seq<Core>, j: nat)
    requires NoRepeats(xs) && j < |xs|
    ensures NoRepeats(xs[..j] + xs[j + 1..])
    ensures forall x :: x in xs[..j] + xs[j + 1..] <==> x in xs && x != xs[j]
    ensures multiset(Priorities(xs)) == multiset(Priorities(xs[..j] + xs[j + 1..])) + multiset{xs[j].priority}
  {
    var before, after := xs[..j], xs[j + 1..];
    assert xs == before + [xs[j]] + after;
    forall x | x in xs && x != xs[j] ensures x in before + after {
      var m :| 0 <= m < |xs| && xs[m] == x;
      assert (before + after)[if m < j then m else m - 1] == x;
    }
    PrioritiesConcat(before + [xs[j]], after);
    PrioritiesConcat(before, [xs[j]]);
    PrioritiesConcat(before, after);
    assert Priorities([xs[j]]) == [xs[j].priority];
  }

  lemma Memberless(b: seq<Core>)
    ensures (forall x :: x !in b) ==> b == []
  {
    if b != [] {
      assert b[0] in b;
    }
  }

  /** Lists without repeats that have the same elements have the same priorities, counted. */
  lemma {:induction false} SamePriorities(a: seq<Core>, b: seq<Core>)
    requires NoRepeats(a) && NoRepeats(b) && SameElements(a, b)
    ensures multiset(Priorities(a)) == multiset(Priorities(b))
    decreases |a|
  {
    if a == [] {
      Memberless(b);
    } else {
      var last := |a| - 1;
      assert a[last] in b;
      var j :| 0 <= j < |b| && b[j] == a[last];
      Without(a, last);
      Without(b, j);
      assert a[..last] + a[last + 1..] == a[..last];
      var b' := b[..j] + b[j + 1..];
      forall x ensures x in a[..last] <==> x in b' {
        assert x in a[..last] + a[last + 1..] <==> x in a && x != a[last];
      }
      SamePriorities(a[..last], b');
    }
  }

  /** A multiset has one falling arrangement. */
  lemma {:induction false} FallingIsUnique(xs: seq<u64>, ys: seq<u64>)
    requires Falling(xs) && Falling(ys) && multiset(xs) == multiset(ys)
    ensures xs == ys
    decreases |xs|
  {
    assert |xs| == |multiset(xs)| == |multiset(ys)| == |ys|;
    if xs != [] {
      FirstIsLargest(xs, ys);
      FirstIsLargest(ys, xs);
      assert xs == [xs[0]] + xs[1..] && ys == [ys[0]] + ys[1..];
      assert multiset(xs[1..]) == multiset(xs) - multiset{xs[0]};
      assert multiset(ys[1..]) == multiset(ys) - multiset{ys[0]};
      FallingIsUnique(xs[1..], ys[1..]);
    }
  }

  lemma FirstIsLargest(xs: seq<u64>, ys: seq<u64>)
    requires Falling(xs) && multiset(xs) == multiset(ys) && xs != [] && ys != []
    ensures xs[0] >= ys[0]
  {
    assert ys[0] in multiset(xs);
  }

  lemma CoresDistinct(pairs: seq<Pair>)
    requires UniqueAddresses(pairs)
    ensures NoRepeats(Cores(pairs)) && NoRepeats(Mirror(Cores(pairs)))
  {
  }

  /** Both lists have the same priority at every place. */
  lemma SamePrioritySequence(a: seq<Candidate>, toA: seq<seq<Candidate>>, b: seq<Candidate>, toB: seq<seq<Candidate>>)
    requires Exchanged(a, toA, b, toB)
    requires DistinctAddresses(a) && DistinctAddresses(b)
    ensures Priorities(Cores(FormAll(Controlling, a, toA))) == Priorities(Cores(FormAll(Controlled, b, toB)))
  {
    var pa, pb := FormAll(Controlling, a, toA), FormAll(Controlled, b, toB);
    var ca, cb := Cores(pa), Cores(pb);
    FormAllFacts(Controlling, a, toA);
    FormAllFacts(Controlled, b, toB);
    CoresDistinct(pa);
    CoresDistinct(pb);
    forall x ensures x in Mirror(ca) <==> x in cb {
      InMirror(ca, x);
      MirrorImages(a, toA, b, toB, x.Mirrored());
    }
    SamePriorities(Mirror(ca), cb);
    assert Priorities(Mirror(ca)) == Priorities(ca);
    FallingIsUnique(Priorities(ca), Priorities(cb));
  }

  lemma InMirror(cores: seq<Core>, x: Core)
    ensures x in Mirror(cores) <==> x.Mirrored() in cores
  {
  }

  // ---- The same order ----

  /** Two pairs of different priority stand in the same order in both lists. */
  lemma SameOrder(a: seq<Candidate>, toA: seq<seq<Candidate>>, b: seq<Candidate>, toB: seq<seq<Candidate>>,
                  i: nat, j: nat, m: nat, n: nat)
    requires var pa, pb := FormAll(Controlling, a, toA), FormAll(Controlled, b, toB);
             && i < |pa| && j < |pa| && m < |pb| && n < |pb|
             && CoreOf(pb[m]) == CoreOf(pa[i]).Mirrored() && CoreOf(pb[n]) == CoreOf(pa[j]).Mirrored()
             && pa[i].priority != pa[j].priority
    ensures i < j <==> m < n
  {
    FormAllFacts(Controlling, a, toA);
    FormAllFacts(Controlled, b, toB);
  }

  /** With distinct candidate priorities up to 2^31 the lists are mirror images place by place. */
  lemma MirrorPlaceByPlace(a: seq<Candidate>, toA: seq<seq<Candidate>>, b: seq<Candidate>, toB: seq<seq<Candidate>>)
    requires Exchanged(a, toA, b, toB)
    requires DistinctAddresses(a) && DistinctAddresses(b)
    requires DistinctPriorities(a) && DistinctPriorities(b) && SmallPriorities(a) && SmallPriorities(b)
    ensures Cores(FormAll(Controlled, b, toB)) == Mirror(Cores(FormAll(Controlling, a, toA)))
  {
    var pa, pb := FormAll(Controlling, a, toA), FormAll(Controlled, b, toB);
    var ca, cb := Cores(pa), Cores(pb);
    SamePrioritySequence(a, toA, b, toB);
    FormAllFacts(Controlling, a, toA);
    SameLists(Controlling, pa, a, Flatten(toA), b);
    assert |ca| == |Priorities(ca)| == |Priorities(cb)| == |cb|;
    forall k | 0 <= k < |cb| ensures cb[k] == ca[k].Mirrored() {
      assert cb[k] in cb && cb[k].Mirrored().Mirrored() == cb[k];
      MirrorImages(a, toA, b, toB, cb[k].Mirrored());
      MirrorImages(a, toA, b, toB, ca[k]);
      PairsAreCombinations(Controlling, pa, a, b, cb[k].Mirrored());
      PairsAreCombinations(Controlling, pa, a, b, ca[k]);
      assert ca[k] in ca;
      assert Priorities(ca)[k] == Priorities(cb)[k];
      var c, d := ca[k], cb[k].Mirrored();
      PairPriorityIsInjective(true, c.local.priority, c.remote.priority, d.local.priority, d.remote.priority);
      PriorityNames(a, c.local, d.local);
      PriorityNames(b, c.remote, d.remote);
    }
  }

  lemma PriorityNames(cs: seq<Candidate>, x: Candidate, y: Candidate)
    requires DistinctPriorities(cs) && x in cs && y in cs && x.priority == y.priority
    ensures x == y
  {
  }
}
