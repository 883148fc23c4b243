/** ICE candidates and the priority arithmetic of sections 5.1.2.1 and 6.1.2.3 of RFC 8445. */
module Candidate {
  import opened Words

  datatype CandidateType = Host | ServerReflexive | PeerReflexive | Relay {
    function Preference(): u32 {
      match this
      case Host => 126
      case PeerReflexive => 110
      case ServerReflexive => 100
      case Relay => 0
    }
  }

  datatype Transport = Udp | Tcp

  datatype Ip = V4(a: Octets4) | V6(b: Octets16)

  datatype SocketAddr =
    | Addr4(ip4: Octets4, port4: u16)
    | Addr6(ip6: Octets16, port6: u16, flowInfo: u32, scopeId: u32)
  {
    function IpOf(): Ip {
      match this
      case Addr4(ip, _) => V4(ip)
      case Addr6(ip, _, _, _) => V6(ip)
    }

    function Port(): u16 {
      match this
      case Addr4(_, port) => port
      case Addr6(_, port, _, _) => port
    }

    /** Nothing beyond IP address and port. */
    predicate Plain() {
      Addr6? ==> flowInfo == 0 && scopeId == 0
    }
  }

  function NewAddr(ip: Ip, port: u16): (a: SocketAddr)
    ensures a.IpOf() == ip && a.Port() == port && a.Plain()
  {
    match ip
    case V4(a) => Addr4(a, port)
    case V6(b) => Addr6(b, port, 0, 0)
  }

  datatype Candidate = Candidate(foundation: string, component: u8, transport: Transport, priority: u32,
                                 address: SocketAddr, candidateType: CandidateType,
                                 relatedAddress: Option<SocketAddr>)

  /** Shifts drop the bits that leave the word; sums wrap. */
  function CalculatePriority(t: CandidateType, localPreference: u32, component: u8): u32 {
    Wrap32(Wrap32(t.Preference() * 0x100_0000) + Wrap32(localPreference * 0x100) + (256 - component))
  }

  function CalculatePairPriority(controlling: bool, local: u32, remote: u32): u64 {
    var (g: int, d: int) := if controlling then (local as int, remote as int) else (remote as int, local as int);
    (0x1_0000_0000 * Min(g, d) + 2 * Max(g, d) + (if g > d then 1 else 0)) % 0x1_0000_0000_0000_0000
  }

  /** A priority is below 2^31 and its parts never run into each other. */
  lemma PriorityFits(t: CandidateType, localPreference: u16, component: u8)
    requires component >= 1
    ensures CalculatePriority(t, localPreference, component)
            == t.Preference() * 0x100_0000 + localPreference * 0x100 + (256 - component) < TWO31
  {
  }

  /** Candidates are ordered by type, then local preference, then lower component. */
  lemma PriorityIsLexicographic(t1: CandidateType, p1: u16, c1: u8, t2: CandidateType, p2: u16, c2: u8)
    requires c1 >= 1 && c2 >= 1
    ensures CalculatePriority(t1, p1, c1) > CalculatePriority(t2, p2, c2) <==>
              || t1.Preference() > t2.Preference()
              || (t1 == t2 && p1 > p2)
              || (t1 == t2 && p1 == p2 && c1 < c2)
  {
    PriorityFits(t1, p1, c1);
    PriorityFits(t2, p2, c2);
  }

  /** The order of pairs: by smaller priority, then larger, then the controlling side's being
      the larger. */
  predicate Precedes(g1: u32, d1: u32, g2: u32, d2: u32) {
    || Min(g1, d1) > Min(g2, d2)
    || (Min(g1, d1) == Min(g2, d2) && Max(g1, d1) > Max(g2, d2))
    || (Min(g1, d1) == Min(g2, d2) && Max(g1, d1) == Max(g2, d2) && g1 > d1 && !(g2 > d2))
  }

  /** The 64-bit result is exact unless both candidates have the largest 32-bit priority. */
  lemma PairPriorityFitsIff(controlling: bool, local: u32, remote: u32)
    ensures var g: int := if controlling then local else remote;
            var d: int := if controlling then remote else local;
            CalculatePairPriority(controlling, local, remote)
            == 0x1_0000_0000 * Min(g, d) + 2 * Max(g, d) + (if g > d then 1 else 0)
            <==> !(local == remote == 0xffff_ffff)
  {
  }

  /** Both agents compute the same priority for the pair they share. */
  lemma PairPriorityIsSymmetric(controlling: bool, local: u32, remote: u32)
    ensures CalculatePairPriority(controlling, local, remote) == CalculatePairPriority(!controlling, remote, local)
  {
  }

  /** Up to 2^31, pairs are ordered by smaller priority, then larger, then by which side has
      the larger. */
  lemma PairPriorityIsLexicographic(g1: u32, d1: u32, g2: u32, d2: u32)
    requires g1 <= TWO31 && d1 <= TWO31 && g2 <= TWO31 && d2 <= TWO31
    ensures CalculatePairPriority(true, g1, d1) > CalculatePairPriority(true, g2, d2) <==> Precedes(g1, d1, g2, d2)
  {
    PairPriorityFitsIff(true, g1, d1);
    PairPriorityFitsIff(true, g2, d2);
  }

  /** Up to 2^31, a pair priority determines both candidate priorities. */
  lemma PairPriorityIsInjective(controlling: bool, l1: u32, r1: u32, l2: u32, r2: u32)
    requires l1 <= TWO31 && r1 <= TWO31 && l2 <= TWO31 && r2 <= TWO31
    requires CalculatePairPriority(controlling, l1, r1) == CalculatePairPriority(controlling, l2, r2)
    ensures l1 == l2 && r1 == r2
  {
    if controlling {
      PairPriorityIsLexicographic(l1, r1, l2, r2);
      PairPriorityIsLexicographic(l2, r2, l1, r1);
    } else {
      PairPriorityIsSymmetric(false, l1, r1);
      PairPriorityIsSymmetric(false, l2, r2);
      PairPriorityIsLexicographic(r1, l1, r2, l2);
      PairPriorityIsLexicographic(r2, l2, r1, l1);
    }
  }

  /** Above 2^31 two different pairs share a priority. */
  lemma PairPriorityCollides()
    ensures CalculatePairPriority(true, 0, 0x8000_0001) == CalculatePairPriority(true, 1, 1)
    ensures Precedes(1, 1, 0, 0x8000_0001)
  {
  }

  /** No two pairs of candidates with priorities up to the bound share a pair priority. */
  ghost predicate InjectiveUpTo(bound: u32) {
    forall controlling: bool, l1: u32, r1: u32, l2: u32, r2: u32 ::
      l1 <= bound && r1 <= bound && l2 <= bound && r2 <= bound ==>
        CalculatePairPriority(controlling, l1, r1) == CalculatePairPriority(controlling, l2, r2) ==>
          l1 == l2 && r1 == r2
  }

  /** Pair priorities order the pairs of candidates with priorities up to the bound. */
  ghost predicate LexicographicUpTo(bound: u32) {
    forall g1: u32, d1: u32, g2: u32, d2: u32 ::
      g1 <= bound && d1 <= bound && g2 <= bound && d2 <= bound ==>
        (CalculatePairPriority(true, g1, d1) > CalculatePairPriority(true, g2, d2) <==> Precedes(g1, d1, g2, d2))
  }

  /** A pair priority determines both candidate priorities, and orders the pairs, for
      candidates up to a bound if and only if the bound is at most 2^31. */
  lemma PairPriorityIsFaithfulIff(bound: u32)
    ensures InjectiveUpTo(bound) <==> bound <= TWO31
    ensures LexicographicUpTo(bound) <==> bound <= TWO31
  {
    if bound <= TWO31 {
      forall controlling: bool, l1: u32, r1: u32, l2: u32, r2: u32 |
        l1 <= bound && r1 <= bound && l2 <= bound && r2 <= bound
        && CalculatePairPriority(controlling, l1, r1) == CalculatePairPriority(controlling, l2, r2)
        ensures l1 == l2 && r1 == r2
      {
        PairPriorityIsInjective(controlling, l1, r1, l2, r2);
      }
      forall g1: u32, d1: u32, g2: u32, d2: u32 | g1 <= bound && d1 <= bound && g2 <= bound && d2 <= bound
        ensures CalculatePairPriority(true, g1, d1) > CalculatePairPriority(true, g2, d2) <==> Precedes(g1, d1, g2, d2)
      {
        PairPriorityIsLexicographic(g1, d1, g2, d2);
      }
    } else {
      PairPriorityCollides();
    }
  }
}
