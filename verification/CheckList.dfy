/** The ICE check list: forming candidate pairs, ordering them and unfreezing the first pair
    of each foundation, as functions on lists. */
module CheckList {
  import opened Words
  import opened Candidate

  datatype Role = Controlling | Controlled

  datatype PairState = Waiting | InProgress | Succeeded | Failed | Frozen

  datatype Pair = Pair(local: Candidate, remote: Candidate, priority: u64, state: PairState, nominated: bool)

  predicate Compatible(l: Candidate, r: Candidate) {
    l.component == r.component && l.transport == r.transport
  }

  predicate SameAddresses(p: Pair, l: Candidate, r: Candidate) {
    p.local.address == l.address && p.remote.address == r.address
  }

  predicate Paired(pairs: seq<Pair>, l: Candidate, r: Candidate) {
    exists i :: 0 <= i < |pairs| && SameAddresses(pairs[i], l, r)
  }

  function PairPriority(role: Role, l: Candidate, r: Candidate): u64 {
    CalculatePairPriority(role == Controlling, l.priority, r.priority)
  }

  function NewPair(role: Role, l: Candidate, r: Candidate): Pair {
    Pair(l, r, PairPriority(role, l, r), Frozen, false)
  }

  // ---- Forming ----

  function AddPair(role: Role, pairs: seq<Pair>, l: Candidate, r: Candidate): seq<Pair> {
    if Compatible(l, r) && !Paired(pairs, l, r) then pairs + [NewPair(role, l, r)] else pairs
  }

  function AddForLocal(role: Role, pairs: seq<Pair>, l: Candidate, remote: seq<Candidate>): seq<Pair> {
    if remote == [] then pairs
    else AddPair(role, AddForLocal(role, pairs, l, remote[..|remote| - 1]), l, remote[|remote| - 1])
  }

  function AddAll(role: Role, pairs: seq<Pair>, local: seq<Candidate>, remote: seq<Candidate>): seq<Pair> {
    if local == [] then pairs
    else AddForLocal(role, AddAll(role, pairs, local[..|local| - 1], remote), local[|local| - 1], remote)
  }

  /** Places a pair behind every pair of at least its priority. */
  function Insert(sorted: seq<Pair>, p: Pair): seq<Pair> {
    if sorted == [] || sorted[|sorted| - 1].priority >= p.priority then sorted + [p]
    else Insert(sorted[..|sorted| - 1], p) + [sorted[|sorted| - 1]]
  }

  /** The stable sort by decreasing priority. */
  function SortPairs(pairs: seq<Pair>): seq<Pair> {
    if pairs == [] then [] else Insert(SortPairs(pairs[..|pairs| - 1]), pairs[|pairs| - 1])
  }

  function Key(p: Pair): (string, string) {
    (p.local.foundation, p.remote.foundation)
  }

  predicate FirstOfKey(pairs: seq<Pair>, i: nat)
    requires i < |pairs|
  {
    forall j :: 0 <= j < i ==> Key(pairs[j]) != Key(pairs[i])
  }

  function Unfrozen(pairs: seq<Pair>): seq<Pair> {
    seq(|pairs|, i requires 0 <= i < |pairs| =>
      if FirstOfKey(pairs, i) then pairs[i].(state := Waiting) else pairs[i])
  }

  function Form(role: Role, pairs: seq<Pair>, local: seq<Candidate>, remote: seq<Candidate>): seq<Pair> {
    Unfrozen(SortPairs(AddAll(role, pairs, local, remote)))
  }

  // ---- What a check list keeps ----

  ghost predicate Descending(pairs: seq<Pair>) {
    forall i, j :: 0 <= i < j < |pairs| ==> pairs[i].priority >= pairs[j].priority
  }

  ghost predicate UniqueAddresses(pairs: seq<Pair>) {
    forall i, j :: 0 <= i < j < |pairs| ==> !SameAddresses(pairs[i], pairs[j].local, pairs[j].remote)
  }

  ghost predicate Covers(pairs: seq<Pair>, local: seq<Candidate>, remote: seq<Candidate>) {
    forall l, r :: l in local && r in remote && Compatible(l, r) ==> Paired(pairs, l, r)
  }

  /** Every pair joins compatible candidates of the two lists and has their priority. */
  ghost predicate Sound(role: Role, pairs: seq<Pair>, local: seq<Candidate>, remote: seq<Candidate>) {
    forall i :: 0 <= i < |pairs| ==> SoundPair(role, pairs[i], local, remote)
  }

  ghost predicate SoundPair(role: Role, p: Pair, local: seq<Candidate>, remote: seq<Candidate>) {
    && p.local in local && p.remote in remote && Compatible(p.local, p.remote)
    && p.priority == PairPriority(role, p.local, p.remote)
  }

  ghost predicate FirstsWait(pairs: seq<Pair>) {
    forall i :: 0 <= i < |pairs| && FirstOfKey(pairs, i) ==> pairs[i].state == Waiting
  }

  // ---- Adding ----

  lemma AddPairKeeps(role: Role, pairs: seq<Pair>, l: Candidate, r: Candidate)
    ensures pairs <= AddPair(role, pairs, l, r)
    ensures UniqueAddresses(pairs) ==> UniqueAddresses(AddPair(role, pairs, l, r))
    ensures Compatible(l, r) ==> Paired(AddPair(role, pairs, l, r), l, r)
  {
    var after := AddPair(role, pairs, l, r);
    if Compatible(l, r) && !Paired(pairs, l, r) {
      assert SameAddresses(after[|pairs|], l, r);
      if UniqueAddresses(pairs) {
        forall i, j | 0 <= i < j < |after| ensures !SameAddresses(after[i], after[j].local, after[j].remote) {
          if j == |pairs| {
            assert !SameAddresses(pairs[i], l, r);
          }
        }
      }
    }
  }

  lemma StillPaired(pairs: seq<Pair>, after: seq<Pair>, l: Candidate, r: Candidate)
    requires pairs <= after && Paired(pairs, l, r)
    ensures Paired(after, l, r)
  {
  }

  lemma {:induction false} AddForLocalKeeps(role: Role, pairs: seq<Pair>, l: Candidate, remote: seq<Candidate>)
    ensures pairs <= AddForLocal(role, pairs, l, remote)
    ensures UniqueAddresses(pairs) ==> UniqueAddresses(AddForLocal(role, pairs, l, remote))
    ensures Covers(AddForLocal(role, pairs, l, remote), [l], remote)
    decreases |remote|
  {
    if remote != [] {
      var front, last := remote[..|remote| - 1], remote[|remote| - 1];
      var before := AddForLocal(role, pairs, l, front);
      var after := AddForLocal(role, pairs, l, remote);
      AddForLocalKeeps(role, pairs, l, front);
      AddPairKeeps(role, before, l, last);
      forall r | r in remote && Compatible(l, r) ensures Paired(after, l, r) {
        if r != last {
          assert r in front;
          StillPaired(before, after, l, r);
        }
      }
    }
  }

  lemma {:induction false} AddAllKeeps(role: Role, pairs: seq<Pair>, local: seq<Candidate>, remote: seq<Candidate>)
    ensures pairs <= AddAll(role, pairs, local, remote)
    ensures UniqueAddresses(pairs) ==> UniqueAddresses(AddAll(role, pairs, local, remote))
    ensures Covers(AddAll(role, pairs, local, remote), local, remote)
    decreases |local|
  {
    if local != [] {
      var front, last := local[..|local| - 1], local[|local| - 1];
      var before := AddAll(role, pairs, front, remote);
      var after := AddAll(role, pairs, local, remote);
      AddAllKeeps(role, pairs, front, remote);
      AddForLocalKeeps(role, before, last, remote);
      forall l, r | l in local && r in remote && Compatible(l, r) ensures Paired(after, l, r) {
        if l != last {
          assert l in front;
          StillPaired(before, after, l, r);
        } else {
          assert l in [last];
        }
      }
    }
  }

  lemma {:induction false} AddForLocalSound(role: Role, pairs: seq<Pair>, l: Candidate, part: seq<Candidate>,
                                            local: seq<Candidate>, remote: seq<Candidate>)
    requires Sound(role, pairs, local, remote) && l in local && forall r :: r in part ==> r in remote
    ensures Sound(role, AddForLocal(role, pairs, l, part), local, remote)
    decreases |part|
  {
    if part != [] {
      AddForLocalSound(role, pairs, l, part[..|part| - 1], local, remote);
      assert part[|part| - 1] in part;
    }
  }

  lemma {:induction false} AddAllSound(role: Role, pairs: seq<Pair>, part: seq<Candidate>,
                                       local: seq<Candidate>, remote: seq<Candidate>)
    requires Sound(role, pairs, local, remote) && forall l :: l in part ==> l in local
    ensures Sound(role, AddAll(role, pairs, part, remote), local, remote)
    decreases |part|
  {
    if part != [] {
      AddAllSound(role, pairs, part[..|part| - 1], local, remote);
      assert part[|part| - 1] in part;
      AddForLocalSound(role, AddAll(role, pairs, part[..|part| - 1], remote), part[|part| - 1], remote, local, remote);
    }
  }

  // ---- Sorting ----

  lemma {:induction false} InsertPermutes(sorted: seq<Pair>, p: Pair)
    ensures multiset(Insert(sorted, p)) == multiset(sorted) + multiset{p}
    decreases |sorted|
  {
    if sorted != [] && sorted[|sorted| - 1].priority < p.priority {
      var front, last := sorted[..|sorted| - 1], sorted[|sorted| - 1];
      assert sorted == front + [last];
      InsertPermutes(front, p);
    }
  }

  lemma {:induction false} InsertMembers(sorted: seq<Pair>, p: Pair, i: nat)
    requires i < |Insert(sorted, p)|
    ensures Insert(sorted, p)[i] == p || Insert(sorted, p)[i] in sorted
    decreases |sorted|
  {
    if sorted != [] && sorted[|sorted| - 1].priority < p.priority {
      var front := sorted[..|sorted| - 1];
      if i < |Insert(front, p)| {
        InsertMembers(front, p, i);
      }
    }
  }

  lemma {:induction false} InsertDescends(sorted: seq<Pair>, p: Pair)
    requires Descending(sorted)
    ensures Descending(Insert(sorted, p))
    decreases |sorted|
  {
    if sorted != [] && sorted[|sorted| - 1].priority < p.priority {
      var front, last := sorted[..|sorted| - 1], sorted[|sorted| - 1];
      var inner := Insert(front, p);
      InsertDescends(front, p);
      forall i | 0 <= i < |inner| ensures inner[i].priority >= last.priority {
        InsertMembers(front, p, i);
      }
    }
  }

  /** Sorting permutes the list into descending order. */
  lemma {:induction false} SortFacts(pairs: seq<Pair>)
    ensures Descending(SortPairs(pairs))
    ensures multiset(SortPairs(pairs)) == multiset(pairs)
    decreases |pairs|
  {
    if pairs != [] {
      var front := pairs[..|pairs| - 1];
      assert pairs == front + [pairs[|pairs| - 1]];
      SortFacts(front);
      InsertPermutes(SortPairs(front), pairs[|pairs| - 1]);
      InsertDescends(SortPairs(front), pairs[|pairs| - 1]);
    }
  }

  function OfPriority(pairs: seq<Pair>, priority: u64): seq<Pair> {
    if pairs == [] then []
    else
      var front, last := pairs[..|pairs| - 1], pairs[|pairs| - 1];
      OfPriority(front, priority) + if last.priority == priority then [last] else []
  }

  lemma {:induction false} InsertIsStable(sorted: seq<Pair>, p: Pair, priority: u64)
    requires Descending(sorted)
    ensures OfPriority(Insert(sorted, p), priority)
            == OfPriority(sorted, priority) + if p.priority == priority then [p] else []
    decreases |sorted|
  {
    if sorted == [] || sorted[|sorted| - 1].priority >= p.priority {
      assert (sorted + [p])[..|sorted|] == sorted;
    } else {
      var front, last := sorted[..|sorted| - 1], sorted[|sorted| - 1];
      InsertIsStable(front, p, priority);
      assert (Insert(front, p) + [last])[..|Insert(front, p)|] == Insert(front, p);
      if p.priority == priority {
        NoneBelow(sorted, priority);
      }
    }
  }

  lemma NoneBelow(sorted: seq<Pair>, priority: u64)
    requires Descending(sorted) && sorted != [] && sorted[|sorted| - 1].priority < priority
    ensures OfPriority(sorted, priority) == OfPriority(sorted[..|sorted| - 1], priority)
  {
  }

  /** Pairs of equal priority keep their order. */
  lemma {:induction false} SortIsStable(pairs: seq<Pair>, priority: u64)
    ensures OfPriority(SortPairs(pairs), priority) == OfPriority(pairs, priority)
    decreases |pairs|
  {
    if pairs != [] {
      var front := pairs[..|pairs| - 1];
      SortIsStable(front, priority);
      SortFacts(front);
      InsertIsStable(SortPairs(front), pairs[|pairs| - 1], priority);
    }
  }

  // ---- Forming as a whole ----

  /** A permuted list has the same address pairs, once each. */
  lemma PermutedKeeps(a: seq<Pair>, b: seq<Pair>)
    requires multiset(a) == multiset(b) && UniqueAddresses(a)
    ensures UniqueAddresses(b)
  {
    forall i, j | 0 <= i < j < |b| ensures !SameAddresses(b[i], b[j].local, b[j].remote) {
      assert b == b[..i] + [b[i]] + b[i + 1..j] + [b[j]] + b[j + 1..];
      BothPresent(a, b[i], b[j]);
    }
  }

  lemma BothPresent(a: seq<Pair>, p: Pair, q: Pair)
    requires multiset{p, q} <= multiset(a) && UniqueAddresses(a)
    ensures !SameAddresses(p, q.local, q.remote)
  {
    assert p in multiset(a);
    var i :| 0 <= i < |a| && a[i] == p;
    var j := OtherPlace(a, i, q);
    assert if i < j then !SameAddresses(a[i], a[j].local, a[j].remote)
           else !SameAddresses(a[j], a[i].local, a[i].remote);
  }

  lemma OtherPlace(a: seq<Pair>, i: nat, q: Pair) returns (j: nat)
    requires i < |a| && multiset{a[i], q} <= multiset(a)
    ensures j < |a| && j != i && a[j] == q
  {
    var rest := a[..i] + a[i + 1..];
    assert a == a[..i] + [a[i]] + a[i + 1..];
    assert multiset(a) == multiset(rest) + multiset{a[i]};
    assert q in multiset(rest);
    var k :| 0 <= k < |rest| && rest[k] == q;
    j := if k < i then k else k + 1;
  }

  /** Apart from their states, unfreezing leaves the pairs as they are. */
  predicate SamePairs(a: seq<Pair>, b: seq<Pair>) {
    |a| == |b| && forall i :: 0 <= i < |a| ==> b[i] == a[i].(state := b[i].state, nominated := b[i].nominated)
  }

  lemma SamePairsKeep(role: Role, a: seq<Pair>, b: seq<Pair>, local: seq<Candidate>, remote: seq<Candidate>)
    requires SamePairs(a, b)
    ensures Descending(a) ==> Descending(b)
    ensures UniqueAddresses(a) ==> UniqueAddresses(b)
    ensures Covers(a, local, remote) ==> Covers(b, local, remote)
    ensures Sound(role, a, local, remote) ==> Sound(role, b, local, remote)
  {
  }

  lemma UnfrozenFacts(pairs: seq<Pair>)
    ensures SamePairs(pairs, Unfrozen(pairs))
    ensures FirstsWait(Unfrozen(pairs))
    ensures forall i :: 0 <= i < |pairs| && !FirstOfKey(pairs, i) ==> Unfrozen(pairs)[i] == pairs[i]
  {
  }

  lemma SortedCovers(a: seq<Pair>, local: seq<Candidate>, remote: seq<Candidate>)
    requires Covers(a, local, remote)
    ensures Covers(SortPairs(a), local, remote)
  {
    var b := SortPairs(a);
    SortFacts(a);
    forall l, r | l in local && r in remote && Compatible(l, r) ensures Paired(b, l, r) {
      var i :| 0 <= i < |a| && SameAddresses(a[i], l, r);
      assert a[i] in multiset(b);
      var j :| 0 <= j < |b| && b[j] == a[i];
      assert SameAddresses(b[j], l, r);
    }
  }

  lemma SortedSound(role: Role, a: seq<Pair>, local: seq<Candidate>, remote: seq<Candidate>)
    requires Sound(role, a, local, remote)
    ensures Sound(role, SortPairs(a), local, remote)
  {
    SortFacts(a);
    forall i | 0 <= i < |SortPairs(a)| ensures SoundPair(role, SortPairs(a)[i], local, remote) {
      assert SortPairs(a)[i] in multiset(a);
    }
  }

  /** Forming the list leaves it in descending order, without a repeated address pair,
      covering every compatible combination by address, and with the highest-placed pair of
      each foundation key waiting; existing pairs stay. */
  lemma FormFacts(role: Role, pairs: seq<Pair>, local: seq<Candidate>, remote: seq<Candidate>)
    requires UniqueAddresses(pairs)
    ensures Descending(Form(role, pairs, local, remote)) && UniqueAddresses(Form(role, pairs, local, remote))
    ensures Covers(Form(role, pairs, local, remote), local, remote)
    ensures FirstsWait(Form(role, pairs, local, remote))
    ensures Sound(role, pairs, local, remote) ==> Sound(role, Form(role, pairs, local, remote), local, remote)
    ensures |Form(role, pairs, local, remote)| >= |pairs|
  {
    var all := AddAll(role, pairs, local, remote);
    var sorted := SortPairs(all);
    AddAllKeeps(role, pairs, local, remote);
    SortFacts(all);
    PermutedKeeps(all, sorted);
    SortedCovers(all, local, remote);
    assert |sorted| == |multiset(sorted)| == |multiset(all)| == |all|;
    if Sound(role, pairs, local, remote) {
      AddAllSound(role, pairs, local, local, remote);
      SortedSound(role, all, local, remote);
    }
    UnfrozenFacts(sorted);
    SamePairsKeep(role, sorted, Unfrozen(sorted), local, remote);
  }

  // ---- Any sequence of additions ----

  function Flatten(batches: seq<seq<Candidate>>): seq<Candidate> {
    if batches == [] then [] else Flatten(batches[..|batches| - 1]) + batches[|batches| - 1]
  }

  /** The check list after remote candidates have arrived batch by batch. */
  function FormAll(role: Role, local: seq<Candidate>, batches: seq<seq<Candidate>>): seq<Pair> {
    if batches == [] then []
    else Form(role, FormAll(role, local, batches[..|batches| - 1]), local, Flatten(batches))
  }

  lemma SoundGrows(role: Role, pairs: seq<Pair>, local: seq<Candidate>, a: seq<Candidate>, b: seq<Candidate>)
    requires Sound(role, pairs, local, a) && forall r :: r in a ==> r in b
    ensures Sound(role, pairs, local, b)
  {
  }

  /** After any sequence of additions the list is sorted, free of repeated address pairs,
      complete and sound for the candidates seen so far, and the first pair of each key waits. */
  lemma {:induction false} FormAllFacts(role: Role, local: seq<Candidate>, batches: seq<seq<Candidate>>)
    ensures var pairs := FormAll(role, local, batches);
            && Descending(pairs) && UniqueAddresses(pairs) && FirstsWait(pairs)
            && Sound(role, pairs, local, Flatten(batches))
            && Covers(pairs, local, Flatten(batches))
    decreases |batches|
  {
    if batches != [] {
      var front := batches[..|batches| - 1];
      FormAllFacts(role, local, front);
      SoundGrows(role, FormAll(role, local, front), local, Flatten(front), Flatten(batches));
      FormFacts(role, FormAll(role, local, front), local, Flatten(batches));
    }
  }

  // ---- The states of the pairs ----

  /** A pair formed anew: frozen, not nominated, between compatible candidates of the lists. */
  ghost predicate IsNew(role: Role, p: Pair, local: seq<Candidate>, remote: seq<Candidate>) {
    p.state == Frozen && !p.nominated && SoundPair(role, p, local, remote)
  }

  /** Pairs beyond the first n are new. */
  ghost predicate NewFrom(role: Role, pairs: seq<Pair>, n: nat, local: seq<Candidate>, remote: seq<Candidate>) {
    forall j :: n <= j < |pairs| ==> IsNew(role, pairs[j], local, remote)
  }

  lemma {:induction false} AddForLocalNew(role: Role, pairs: seq<Pair>, l: Candidate, part: seq<Candidate>, n: nat,
                                          local: seq<Candidate>, remote: seq<Candidate>)
    requires NewFrom(role, pairs, n, local, remote) && l in local && forall r :: r in part ==> r in remote
    ensures NewFrom(role, AddForLocal(role, pairs, l, part), n, local, remote)
    decreases |part|
  {
    if part != [] {
      AddForLocalNew(role, pairs, l, part[..|part| - 1], n, local, remote);
      assert part[|part| - 1] in part;
    }
  }

  lemma {:induction false} AddAllNew(role: Role, pairs: seq<Pair>, part: seq<Candidate>, n: nat,
                                     local: seq<Candidate>, remote: seq<Candidate>)
    requires NewFrom(role, pairs, n, local, remote) && forall l :: l in part ==> l in local
    ensures NewFrom(role, AddAll(role, pairs, part, remote), n, local, remote)
    decreases |part|
  {
    if part != [] {
      AddAllNew(role, pairs, part[..|part| - 1], n, local, remote);
      assert part[|part| - 1] in part;
      AddForLocalNew(role, AddAll(role, pairs, part[..|part| - 1], remote), part[|part| - 1], remote, n, local, remote);
    }
  }

  /** Where a pair of the formed list comes from, before the first of each key are unfrozen. */
  ghost predicate ComesFrom(role: Role, pairs: seq<Pair>, p: Pair, local: seq<Candidate>, remote: seq<Candidate>) {
    p in pairs || (IsNew(role, p, local, remote) && !Paired(pairs, p.local, p.remote))
  }

  lemma SortedComesFrom(role: Role, pairs: seq<Pair>, local: seq<Candidate>, remote: seq<Candidate>, k: nat)
    requires UniqueAddresses(pairs) && k < |SortPairs(AddAll(role, pairs, local, remote))|
    ensures ComesFrom(role, pairs, SortPairs(AddAll(role, pairs, local, remote))[k], local, remote)
  {
    var all := AddAll(role, pairs, local, remote);
    var p := SortPairs(all)[k];
    SortFacts(all);
    AddAllKeeps(role, pairs, local, remote);
    AddAllNew(role, pairs, local, |pairs|, local, remote);
    assert p in multiset(all);
    var j :| 0 <= j < |all| && all[j] == p;
    if j < |pairs| {
      assert all[j] == pairs[j];
    } else {
      forall i | 0 <= i < |pairs| ensures !SameAddresses(pairs[i], p.local, p.remote) {
        assert pairs[i] == all[i];
      }
    }
  }

  lemma SameFirsts(a: seq<Pair>, k: nat)
    requires k < |a|
    ensures FirstOfKey(Unfrozen(a), k) <==> FirstOfKey(a, k)
  {
    assert forall j :: 0 <= j < |a| ==> Key(Unfrozen(a)[j]) == Key(a[j]);
  }

  /** What each pair of the formed list is: the old pair with its addresses if there was one,
      otherwise new, frozen and not nominated; and the first of its key is Waiting. */
  lemma FormStates(role: Role, pairs: seq<Pair>, local: seq<Candidate>, remote: seq<Candidate>, k: nat)
    requires UniqueAddresses(pairs) && k < |Form(role, pairs, local, remote)|
    ensures var formed := Form(role, pairs, local, remote);
            var p := formed[k];
            && (forall i :: 0 <= i < |pairs| && SameAddresses(pairs[i], p.local, p.remote) ==>
                  p == if FirstOfKey(formed, k) then pairs[i].(state := Waiting) else pairs[i])
            && (!Paired(pairs, p.local, p.remote) ==>
                  && p.state == (if FirstOfKey(formed, k) then Waiting else Frozen) && !p.nominated
                  && SoundPair(role, p, local, remote))
  {
    var sorted := SortPairs(AddAll(role, pairs, local, remote));
    var p := sorted[k];
    SortedComesFrom(role, pairs, local, remote, k);
    SameFirsts(sorted, k);
    forall i | 0 <= i < |pairs| && SameAddresses(pairs[i], p.local, p.remote) ensures pairs[i] == p {
      OnlyOne(pairs, p, i);
    }
  }

  lemma OnlyOne(pairs: seq<Pair>, p: Pair, i: nat)
    requires UniqueAddresses(pairs) && i < |pairs| && SameAddresses(pairs[i], p.local, p.remote)
    requires p in pairs || !Paired(pairs, p.local, p.remote)
    ensures pairs[i] == p
  {
    var j :| 0 <= j < |pairs| && pairs[j] == p;
  }

  /** No old pair is lost. */
  lemma OldPairsStay(role: Role, pairs: seq<Pair>, local: seq<Candidate>, remote: seq<Candidate>, i: nat)
    returns (k: nat)
    requires UniqueAddresses(pairs) && i < |pairs|
    ensures var formed := Form(role, pairs, local, remote);
            k < |formed| && SameAddresses(formed[k], pairs[i].local, pairs[i].remote)
  {
    var all := AddAll(role, pairs, local, remote);
    SortFacts(all);
    AddAllKeeps(role, pairs, local, remote);
    assert all[i] in multiset(SortPairs(all));
    k :| 0 <= k < |SortPairs(all)| && SortPairs(all)[k] == all[i];
  }

  /** After the first batch a pair waits exactly if it is the first of its key, and is frozen
      otherwise. */
  lemma FirstBatchStates(role: Role, local: seq<Candidate>, batch: seq<Candidate>, k: nat)
    requires k < |FormAll(role, local, [batch])|
    ensures var pairs := FormAll(role, local, [batch]);
            pairs[k].state == (if FirstOfKey(pairs, k) then Waiting else Frozen) && !pairs[k].nominated
  {
    assert [batch][..0] == [];
    FormStates(role, [], local, Flatten([batch]), k);
  }

  /** However the candidates arrive, no pair is nominated, succeeds or fails before checks. */
  lemma {:induction false} NoneCheckedYet(role: Role, local: seq<Candidate>, batches: seq<seq<Candidate>>, k: nat)
    requires k < |FormAll(role, local, batches)|
    ensures FormAll(role, local, batches)[k].state in {Waiting, Frozen} && !FormAll(role, local, batches)[k].nominated
    decreases |batches|
  {
    var front := batches[..|batches| - 1];
    var before, p := FormAll(role, local, front), FormAll(role, local, batches)[k];
    FormAllFacts(role, local, front);
    FormStates(role, before, local, Flatten(batches), k);
    if i :| 0 <= i < |before| && SameAddresses(before[i], p.local, p.remote) {
      NoneCheckedYet(role, local, front, i);
    }
  }
}
