/** The ICE agent: the check list as mutable state, and the run of connectivity checks over it.
    The result of checking each pair is an input; a pair without a socket fails its check. */
module IceAgent {
  import opened Words
  import opened Candidate
  import opened CheckList

  datatype IceState = New | Gathering | Checking | Connected | Completed | IceFailed | Closed

  // ---- Running the checks, as functions ----

  /** The socket a pair's check would use is bound to this address. */
  function BaseAddress(c: Candidate): SocketAddr {
    match c.relatedAddress
    case Some(base) => base
    case None => c.address
  }

  /** Pair i would be checked and would pass. */
  predicate Passes(pairs: seq<Pair>, sockets: set<SocketAddr>, results: seq<bool>, i: nat)
    requires i < |pairs| == |results|
  {
    pairs[i].state == Waiting && BaseAddress(pairs[i].local) in sockets && results[i]
  }

  /** The first waiting pair at or after i that passes. */
  function Winner(pairs: seq<Pair>, sockets: set<SocketAddr>, results: seq<bool>, i: nat): Option<nat>
    requires i <= |pairs| == |results|
    decreases |pairs| - i
  {
    if i == |pairs| then None
    else if Passes(pairs, sockets, results, i) then Some(i)
    else Winner(pairs, sockets, results, i + 1)
  }

  function FailWaiting(p: Pair): Pair {
    if p.state == Waiting then p.(state := Failed) else p
  }

  function Win(role: Role, p: Pair): Pair {
    p.(state := Succeeded, nominated := p.nominated || role == Controlling)
  }

  function Thaw(p: Pair, foundation: string): Pair {
    if p.state == Frozen && p.local.foundation == foundation then p.(state := Waiting) else p
  }

  /** Pair i after all checks have run. */
  function CheckedPair(role: Role, pairs: seq<Pair>, winner: Option<nat>, i: nat): Pair
    requires i < |pairs| && (winner.Some? ==> winner.value < |pairs|)
  {
    if winner.None? then FailWaiting(pairs[i])
    else
      var w := winner.value;
      if i == w then Win(role, pairs[w])
      else Thaw(if i < w then FailWaiting(pairs[i]) else pairs[i], pairs[w].local.foundation)
  }

  lemma {:induction false} WinnerFacts(pairs: seq<Pair>, sockets: set<SocketAddr>, results: seq<bool>, i: nat)
    requires i <= |pairs| == |results|
    ensures var w := Winner(pairs, sockets, results, i);
            && (w.Some? ==> i <= w.value < |pairs| && Passes(pairs, sockets, results, w.value))
            && (forall j :: i <= j < |pairs| && (w.Some? ==> j < w.value) ==> !Passes(pairs, sockets, results, j))
    decreases |pairs| - i
  {
    if i < |pairs| && !Passes(pairs, sockets, results, i) {
      WinnerFacts(pairs, sockets, results, i + 1);
    }
  }

  function Checked(role: Role, pairs: seq<Pair>, sockets: set<SocketAddr>, results: seq<bool>): seq<Pair>
    requires |pairs| == |results|
  {
    WinnerFacts(pairs, sockets, results, 0);
    var w := Winner(pairs, sockets, results, 0);
    seq(|pairs|, i requires 0 <= i < |pairs| => CheckedPair(role, pairs, w, i))
  }

  predicate HostToHost(p: Pair) {
    p.local.candidateType == Host && p.remote.candidateType == Host
  }

  /** The pair chosen without checks: the first between hosts, else the first of all. */
  function FirstHostToHost(pairs: seq<Pair>, i: nat): Option<Pair>
    requires i <= |pairs|
    decreases |pairs| - i
  {
    if i == |pairs| then None
    else if HostToHost(pairs[i]) then Some(pairs[i])
    else FirstHostToHost(pairs, i + 1)
  }

  function Fallback(pairs: seq<Pair>): Option<Pair> {
    match FirstHostToHost(pairs, 0)
    case Some(p) => Some(p)
    case None => if pairs == [] then None else Some(pairs[0])
  }

  /** The pair selected when checks can be made. */
  function Selected(role: Role, pairs: seq<Pair>, sockets: set<SocketAddr>, results: seq<bool>): Option<Pair>
    requires |pairs| == |results|
  {
    WinnerFacts(pairs, sockets, results, 0);
    match Winner(pairs, sockets, results, 0)
    case Some(w) => Some(Win(role, pairs[w]))
    case None => Fallback(Checked(role, pairs, sockets, results))
  }

  // ---- The agent ----

  ghost predicate NoneInProgress(pairs: seq<Pair>) {
    forall i :: 0 <= i < |pairs| ==> pairs[i].state != InProgress
  }

  class IceAgent {
    const role: Role
    var state: IceState
    var localCandidates: seq<Candidate>
    var remoteCandidates: seq<Candidate>
    var pairs: seq<Pair>
    var selected: Option<Pair>
    var sockets: set<SocketAddr>
    var remoteCredentials: Option<(string, string)>

    ghost predicate Valid()
      reads this
    {
      Descending(pairs) && UniqueAddresses(pairs) && NoneInProgress(pairs)
    }

    constructor (role: Role)
      ensures Valid() && this.role == role && state == New
      ensures localCandidates == [] && remoteCandidates == [] && pairs == [] && selected == None
    {
      this.role := role;
      state := New;
      localCandidates, remoteCandidates, pairs := [], [], [];
      selected, remoteCredentials := None, None;
      sockets := {};
    }

    /** Gathering, finished or cut short by its timeout: the candidates found so far and the
        sockets bound for them. */
    method StoreGathered(candidates: seq<Candidate>, bound: set<SocketAddr>)
      requires Valid()
      modifies this`state, this`localCandidates, this`sockets
      ensures Valid() && state == Gathering && localCandidates == candidates && sockets == old(sockets) + bound
    {
      state := Gathering;
      localCandidates := candidates;
      sockets := sockets + bound;
    }

    method SetRemoteCredentials(ufrag: string, pwd: string)
      requires Valid()
      modifies this`remoteCredentials
      ensures Valid() && remoteCredentials == Some((ufrag, pwd))
    {
      remoteCredentials := Some((ufrag, pwd));
    }

    method AddRemoteCandidates(candidates: seq<Candidate>)
      requires Valid()
      modifies this`remoteCandidates, this`pairs
      ensures Valid()
      ensures remoteCandidates == old(remoteCandidates) + candidates
      ensures pairs == Form(role, old(pairs), localCandidates, remoteCandidates)
      ensures Covers(pairs, localCandidates, remoteCandidates) && FirstsWait(pairs)
    {
      remoteCandidates := remoteCandidates + candidates;
      FormCandidatePairs();
    }

    method FormCandidatePairs()
      requires Valid()
      modifies this`pairs
      ensures Valid()
      ensures pairs == Form(role, old(pairs), localCandidates, remoteCandidates)
      ensures Covers(pairs, localCandidates, remoteCandidates) && FirstsWait(pairs)
    {
      for i := 0 to |localCandidates|
        invariant pairs == AddAll(role, old(pairs), localCandidates[..i], remoteCandidates)
      {
        PairLocal(localCandidates[i]);
        assert localCandidates[..i + 1][..i] == localCandidates[..i];
      }
      assert localCandidates[..|localCandidates|] == localCandidates;
      pairs := SortPairs(pairs);
      UnfreezeFirsts();
      FormFacts(role, old(pairs), localCandidates, remoteCandidates);
      FormIdle(role, old(pairs), localCandidates, remoteCandidates);
    }

    /** The inner loop: one local candidate against every remote one. */
    method PairLocal(l: Candidate)
      modifies this`pairs
      ensures pairs == AddForLocal(role, old(pairs), l, remoteCandidates)
    {
      for j := 0 to |remoteCandidates|
        invariant pairs == AddForLocal(role, old(pairs), l, remoteCandidates[..j])
      {
        var r := remoteCandidates[j];
        assert remoteCandidates[..j + 1][..j] == remoteCandidates[..j];
        if l.component != r.component { continue; }
        if l.transport != r.transport { continue; }
        if !Paired(pairs, l, r) {
          pairs := pairs + [NewPair(role, l, r)];
        }
      }
      assert remoteCandidates[..|remoteCandidates|] == remoteCandidates;
    }

    method UnfreezeFirsts()
      modifies this`pairs
      ensures pairs == Unfrozen(old(pairs))
    {
      var seen := {};
      for i := 0 to |pairs|
        invariant |pairs| == |old(pairs)|
        invariant forall j :: 0 <= j < i ==> pairs[j] == Unfrozen(old(pairs))[j]
        invariant forall j :: i <= j < |pairs| ==> pairs[j] == old(pairs)[j]
        invariant forall k :: k in seen <==> exists j :: 0 <= j < i && Key(old(pairs)[j]) == k
      {
        var key := Key(pairs[i]);
        if key !in seen {
          pairs := pairs[i := pairs[i].(state := Waiting)];
          seen := seen + {key};
        }
      }
    }

    /** Checks the waiting pairs in order until one passes; falls back to a pair chosen
        without checks when none does or when the peer's credentials are unknown. */
    method StartChecks(results: seq<bool>) returns (ok: bool)
      requires Valid() && |results| == |pairs|
      modifies this`state, this`pairs, this`selected
      ensures Valid()
      ensures ok <==> old(pairs) != []
      ensures pairs == if remoteCredentials.None? then old(pairs) else Checked(role, old(pairs), sockets, results)
      ensures ok ==> state == Connected
      ensures ok ==>
                selected == if remoteCredentials.None? then Fallback(old(pairs))
                            else Selected(role, old(pairs), sockets, results)
      ensures !ok ==> state == IceFailed && selected == old(selected)
    {
      state := Checking;
      if remoteCredentials.None? {
        ok := FallbackSelection();
        return;
      }
      var done := CheckWaiting(results);
      CheckedKeeps(role, old(pairs), sockets, results);
      if done {
        return true;
      }
      ok := FallbackSelection();
    }

    method CheckWaiting(results: seq<bool>) returns (succeeded: bool)
      requires |results| == |pairs|
      modifies this`state, this`pairs, this`selected
      ensures pairs == Checked(role, old(pairs), sockets, results)
      ensures succeeded <==> Winner(old(pairs), sockets, results, 0).Some?
      ensures succeeded ==> state == Connected && selected == Selected(role, old(pairs), sockets, results)
      ensures !succeeded ==> state == old(state) && selected == old(selected)
    {
      var toCheck := pairs;
      WinnerFacts(toCheck, sockets, results, 0);
      for idx := 0 to |toCheck|
        invariant |pairs| == |toCheck| && state == old(state) && selected == old(selected)
        invariant Winner(toCheck, sockets, results, idx) == Winner(toCheck, sockets, results, 0)
        invariant forall j :: 0 <= j < idx ==> pairs[j] == FailWaiting(toCheck[j])
        invariant forall j :: idx <= j < |pairs| ==> pairs[j] == toCheck[j]
      {
        if toCheck[idx].state == Waiting {
          pairs := pairs[idx := pairs[idx].(state := InProgress)];
          var checkResult := BaseAddress(toCheck[idx].local) in sockets && results[idx];
          if checkResult {
            pairs := pairs[idx := Win(role, pairs[idx])];
            selected := Some(pairs[idx]);
            state := Connected;
            UnfreezeRelatedPairs(idx, toCheck[idx].local.foundation);
            return true;
          }
          pairs := pairs[idx := pairs[idx].(state := Failed)];
        }
      }
      return false;
    }

    method UnfreezeRelatedPairs(succeeded: nat, foundation: string)
      modifies this`pairs
      ensures |pairs| == |old(pairs)|
      ensures forall i :: 0 <= i < |pairs| ==>
                pairs[i] == if i == succeeded then old(pairs)[i] else Thaw(old(pairs)[i], foundation)
    {
      for i := 0 to |pairs|
        invariant |pairs| == |old(pairs)|
        invariant forall j :: 0 <= j < i ==>
                    pairs[j] == if j == succeeded then old(pairs)[j] else Thaw(old(pairs)[j], foundation)
        invariant forall j :: i <= j < |pairs| ==> pairs[j] == old(pairs)[j]
      {
        if i != succeeded && pairs[i].state == Frozen && pairs[i].local.foundation == foundation {
          pairs := pairs[i := pairs[i].(state := Waiting)];
        }
      }
    }

    method FallbackSelection() returns (ok: bool)
      modifies this`state, this`selected
      ensures ok <==> pairs != []
      ensures ok ==> state == Connected && selected == Fallback(pairs)
      ensures !ok ==> state == IceFailed && selected == old(selected)
    {
      for i := 0 to |pairs|
        invariant FirstHostToHost(pairs, i) == FirstHostToHost(pairs, 0)
        invariant state == old(state) && selected == old(selected)
      {
        if HostToHost(pairs[i]) {
          selected := Some(pairs[i]);
          state := Connected;
          return true;
        }
      }
      if pairs != [] {
        selected := Some(pairs[0]);
        state := Connected;
        return true;
      }
      state := IceFailed;
      return false;
    }
  }

  /** Forming a list starts no check. */
  lemma FormIdle(role: Role, pairs: seq<Pair>, local: seq<Candidate>, remote: seq<Candidate>)
    requires NoneInProgress(pairs)
    ensures NoneInProgress(Form(role, pairs, local, remote))
  {
    var all := AddAll(role, pairs, local, remote);
    AddAllIdle(role, pairs, local, remote);
    SortFacts(all);
    forall i | 0 <= i < |SortPairs(all)| ensures SortPairs(all)[i].state != InProgress {
      assert SortPairs(all)[i] in multiset(all);
    }
  }

  lemma {:induction false} AddForLocalIdle(role: Role, pairs: seq<Pair>, l: Candidate, remote: seq<Candidate>)
    requires NoneInProgress(pairs)
    ensures NoneInProgress(AddForLocal(role, pairs, l, remote))
    decreases |remote|
  {
    if remote != [] {
      AddForLocalIdle(role, pairs, l, remote[..|remote| - 1]);
    }
  }

  lemma {:induction false} AddAllIdle(role: Role, pairs: seq<Pair>, local: seq<Candidate>, remote: seq<Candidate>)
    requires NoneInProgress(pairs)
    ensures NoneInProgress(AddAll(role, pairs, local, remote))
    decreases |local|
  {
    if local != [] {
      AddAllIdle(role, pairs, local[..|local| - 1], remote);
      AddForLocalIdle(role, AddAll(role, pairs, local[..|local| - 1], remote), local[|local| - 1], remote);
    }
  }

  lemma CheckedSame(role: Role, pairs: seq<Pair>, sockets: set<SocketAddr>, results: seq<bool>)
    requires |pairs| == |results|
    ensures SamePairs(pairs, Checked(role, pairs, sockets, results))
    ensures NoneInProgress(pairs) ==> NoneInProgress(Checked(role, pairs, sockets, results))
  {
  }

  lemma CheckedKeeps(role: Role, pairs: seq<Pair>, sockets: set<SocketAddr>, results: seq<bool>)
    requires |pairs| == |results|
    ensures var after := Checked(role, pairs, sockets, results);
            && (Descending(pairs) ==> Descending(after))
            && (UniqueAddresses(pairs) ==> UniqueAddresses(after))
            && (NoneInProgress(pairs) ==> NoneInProgress(after))
  {
    CheckedSame(role, pairs, sockets, results);
    SamePairsKeep(role, pairs, Checked(role, pairs, sockets, results), [], []);
  }

  /** Whatever the checks answer: if some waiting pair passes, the selected pair is one of the
      highest priority among those, and it alone succeeds and may be nominated; every waiting
      pair before it failed, those after it were not tried, and exactly the frozen pairs that
      share its local foundation are now waiting. */
  lemma ChecksSelectBest(role: Role, pairs: seq<Pair>, sockets: set<SocketAddr>, results: seq<bool>, k: nat)
    returns (w: nat)
    requires |pairs| == |results| && Descending(pairs)
    requires k < |pairs| && Passes(pairs, sockets, results, k)
    ensures var after := Checked(role, pairs, sockets, results);
            && w < |pairs| && Passes(pairs, sockets, results, w)
            && pairs[w].priority >= pairs[k].priority
            && Selected(role, pairs, sockets, results) == Some(after[w])
            && after[w] == pairs[w].(state := Succeeded, nominated := pairs[w].nominated || role == Controlling)
            && (forall i :: 0 <= i < |pairs| && i != w ==> after[i].nominated == pairs[i].nominated)
            && (forall i :: 0 <= i < w && pairs[i].state == Waiting ==> after[i].state == Failed)
            && (forall i :: w < i < |pairs| && pairs[i].state == Waiting ==> after[i].state == Waiting)
            && (forall i :: 0 <= i < |pairs| && pairs[i].state == Frozen ==>
                  after[i].state == if pairs[i].local.foundation == pairs[w].local.foundation then Waiting else Frozen)
            && (forall i :: 0 <= i < |pairs| && pairs[i].state in {Succeeded, Failed} ==>
                  after[i].state == pairs[i].state)
  {
    WinnerFacts(pairs, sockets, results, 0);
    w := Winner(pairs, sockets, results, 0).value;
  }

  /** If no waiting pair passes, all of them failed, nothing else changed, and the selected
      pair is the first between hosts or else the first: possibly one that failed. */
  lemma NoPassFallsBack(role: Role, pairs: seq<Pair>, sockets: set<SocketAddr>, results: seq<bool>)
    requires |pairs| == |results|
    requires forall i :: 0 <= i < |pairs| ==> !Passes(pairs, sockets, results, i)
    ensures var after := Checked(role, pairs, sockets, results);
            && (forall i :: 0 <= i < |pairs| ==>
                  after[i] == pairs[i].(state := if pairs[i].state == Waiting then Failed else pairs[i].state))
            && Selected(role, pairs, sockets, results) == Fallback(after)
  {
    WinnerFacts(pairs, sockets, results, 0);
  }

  /** The fallback is a pair of the list, the earliest between hosts when there is one, and
      exists unless the list is empty. */
  lemma FallbackIsFirst(pairs: seq<Pair>) returns (i: nat)
    ensures Fallback(pairs).None? <==> pairs == []
    ensures pairs != [] ==> i < |pairs| && Fallback(pairs) == Some(pairs[i])
    ensures pairs != [] ==>
              forall j :: 0 <= j < i ==> pairs[j].local.candidateType != Host || pairs[j].remote.candidateType != Host
    ensures pairs != [] && (pairs[i].local.candidateType != Host || pairs[i].remote.candidateType != Host) ==>
              && i == 0
              && forall j :: 0 <= j < |pairs| ==>
                   pairs[j].local.candidateType != Host || pairs[j].remote.candidateType != Host
  {
    i := FirstHostPlace(pairs, 0);
    if i == |pairs| {
      i := 0;
    }
  }

  lemma {:induction false} FirstHostPlace(pairs: seq<Pair>, from: nat) returns (i: nat)
    requires from <= |pairs|
    ensures from <= i <= |pairs|
    ensures forall j :: from <= j < i ==> !HostToHost(pairs[j])
    ensures i < |pairs| ==> HostToHost(pairs[i]) && FirstHostToHost(pairs, from) == Some(pairs[i])
    ensures i == |pairs| ==> FirstHostToHost(pairs, from) == None
    decreases |pairs| - from
  {
    if from == |pairs| || HostToHost(pairs[from]) {
      i := from;
    } else {
      i := FirstHostPlace(pairs, from + 1);
    }
  }

  /** A check needs a socket: a pair succeeds only with a good result, and through the socket
      bound to its related address, or to its own address if it has none. */
  lemma SuccessNeedsSocket(role: Role, pairs: seq<Pair>, sockets: set<SocketAddr>, results: seq<bool>, k: nat)
    requires k < |pairs| == |results|
    requires pairs[k].state != Succeeded && Checked(role, pairs, sockets, results)[k].state == Succeeded
    ensures results[k] && pairs[k].state == Waiting
    ensures match pairs[k].local.relatedAddress
            case Some(base) => base in sockets
            case None => pairs[k].local.address in sockets
  {
    WinnerFacts(pairs, sockets, results, 0);
  }

  /** With such a socket and a good result, some pair that waits succeeds. */
  lemma SocketSuffices(role: Role, pairs: seq<Pair>, sockets: set<SocketAddr>, results: seq<bool>, k: nat)
    returns (w: nat)
    requires k < |pairs| == |results| && pairs[k].state == Waiting && results[k]
    requires match pairs[k].local.relatedAddress
             case Some(base) => base in sockets
             case None => pairs[k].local.address in sockets
    ensures w <= k && pairs[w].state == Waiting && Checked(role, pairs, sockets, results)[w].state == Succeeded
  {
    WinnerFacts(pairs, sockets, results, 0);
    assert Passes(pairs, sockets, results, k);
    w := Winner(pairs, sockets, results, 0).value;
  }
}
