/** The textual form of a candidate in a session description: printing and parsing. */
module CandidateText {
  import opened Words
  import opened Candidate

  // ---- Words of a line ----

  /** White space as Unicode defines it. */
  predicate IsSpace(c: char) {
    var n := c as int;
    || 9 <= n <= 13 || n == 0x20 || n == 0x85 || n == 0xa0 || n == 0x1680 || 0x2000 <= n <= 0x200a
    || n == 0x2028 || n == 0x2029 || n == 0x202f || n == 0x205f || n == 0x3000
  }

  ghost predicate IsWord(s: string) {
    s != "" && forall i :: 0 <= i < |s| ==> !IsSpace(s[i])
  }

  /** Length of the run of non-space characters at the front. */
  function WordLength(s: string): (n: nat)
    ensures n <= |s|
    ensures forall i :: 0 <= i < n ==> !IsSpace(s[i])
    ensures n < |s| ==> IsSpace(s[n])
  {
    if s == "" || IsSpace(s[0]) then 0 else 1 + WordLength(s[1..])
  }

  function SplitWhitespace(s: string): seq<string>
    decreases |s|
  {
    if s == "" then []
    else if IsSpace(s[0]) then SplitWhitespace(s[1..])
    else
      var n := WordLength(s);
      [s[..n]] + SplitWhitespace(s[n..])
  }

  lemma {:induction false} SplitGivesWords(s: string)
    ensures forall i :: 0 <= i < |SplitWhitespace(s)| ==> IsWord(SplitWhitespace(s)[i])
    decreases |s|
  {
    if s != "" {
      if IsSpace(s[0]) {
        SplitGivesWords(s[1..]);
      } else {
        SplitGivesWords(s[WordLength(s)..]);
      }
    }
  }

  /** Words separated by single spaces. */
  function Join(words: seq<string>): string {
    if words == [] then ""
    else if |words| == 1 then words[0]
    else words[0] + " " + Join(words[1..])
  }

  lemma {:induction false} JoinSnoc(words: seq<string>, w: string)
    requires words != []
    ensures Join(words + [w]) == Join(words) + " " + w
  {
    if |words| > 1 {
      JoinSnoc(words[1..], w);
      assert (words + [w])[1..] == words[1..] + [w];
    } else {
      assert (words + [w])[1..] == [w];
    }
  }

  lemma SplitFirst(w: string, rest: string)
    requires IsWord(w)
    ensures SplitWhitespace(w) == [w]
    ensures SplitWhitespace(w + " " + rest) == [w] + SplitWhitespace(rest)
  {
    assert w[..|w|] == w && w[|w|..] == "";
    var s := w + " " + rest;
    assert s[..|w|] == w && s[|w|] == ' ' && s[|w|..][1..] == rest;
    assert forall i :: 0 <= i < |w| ==> s[i] == w[i];
    var n := WordLength(s);
    assert n == |w|;
    assert WordLength(w) == |w|;
  }

  /** Splitting undoes joining. */
  lemma {:induction false} SplitOfJoin(words: seq<string>)
    requires forall i :: 0 <= i < |words| ==> IsWord(words[i])
    ensures SplitWhitespace(Join(words)) == words
  {
    if words != [] {
      if |words| == 1 {
        SplitFirst(words[0], "");
      } else {
        SplitOfJoin(words[1..]);
        SplitFirst(words[0], Join(words[1..]));
      }
    }
  }

  // ---- Numbers ----

  function Digit(d: nat): (c: char)
    requires d < 10
    ensures '0' <= c <= '9' && c as int == 48 + d
  {
    (48 + d) as char
  }

  function Decimal(n: nat): (s: string)
    ensures s != "" && forall i :: 0 <= i < |s| ==> '0' <= s[i] <= '9'
  {
    if n < 10 then [Digit(n)] else Decimal(n / 10) + [Digit(n % 10)]
  }

  function DigitsValue(s: string): Option<nat> {
    if s == "" then Some(0)
    else
      var last := s[|s| - 1];
      var front := DigitsValue(s[..|s| - 1]);
      if '0' <= last <= '9' && front.Some? then Some(10 * front.value + (last as int - 48)) else None
  }

  /** Parsing of an unsigned integer: an optional plus sign, then digits, within the bound. */
  function ParseUnsigned(s: string, max: nat): (r: Option<nat>)
    ensures r.Some? ==> r.value <= max
  {
    var digits := if s != "" && s[0] == '+' then s[1..] else s;
    if digits == "" then None
    else
      var v := DigitsValue(digits);
      if v.Some? && v.value <= max then v else None
  }

  lemma {:induction false} DecimalValue(n: nat)
    ensures DigitsValue(Decimal(n)) == Some(n)
    decreases n
  {
    if n >= 10 {
      DecimalValue(n / 10);
      assert Decimal(n)[..|Decimal(n)| - 1] == Decimal(n / 10);
    } else {
      assert Decimal(n)[..0] == "";
    }
  }

  lemma DecimalRoundTrip(n: nat, max: nat)
    requires n <= max
    ensures ParseUnsigned(Decimal(n), max) == Some(n)
  {
    DecimalValue(n);
    assert Decimal(n)[0] != '+';
  }

  // ---- Tokens ----

  function TypeText(t: CandidateType): string {
    match t
    case Host => "host"
    case ServerReflexive => "srflx"
    case PeerReflexive => "prflx"
    case Relay => "relay"
  }

  function ParseType(s: string): Option<CandidateType> {
    if s == "host" then Some(Host)
    else if s == "srflx" then Some(ServerReflexive)
    else if s == "prflx" then Some(PeerReflexive)
    else if s == "relay" then Some(Relay)
    else None
  }

  function TransportText(t: Transport): string {
    match t
    case Udp => "UDP"
    case Tcp => "TCP"
  }

  function Upper(c: char): char {
    if 'a' <= c <= 'z' then (c as int - 32) as char else c
  }

  /** Case is ignored; only ASCII letters matter for these two tokens. */
  function ParseTransport(s: string): Option<Transport> {
    var upper := seq(|s|, i requires 0 <= i < |s| => Upper(s[i]));
    if upper == "UDP" then Some(Udp) else if upper == "TCP" then Some(Tcp) else None
  }

  lemma TransportRoundTrip(p: Transport)
    ensures ParseTransport(TransportText(p)) == Some(p)
  {
    var s := TransportText(p);
    assert seq(|s|, i requires 0 <= i < |s| => Upper(s[i])) == s;
  }

  /** How the platform prints and parses IP addresses. */
  datatype IpText = IpText(show: Ip -> string, parse: string -> Option<Ip>)

  ghost predicate Faithful(t: IpText) {
    forall ip :: IsWord(t.show(ip)) && t.parse(t.show(ip)) == Some(ip)
  }

  // ---- Printing ----

  function MainFields(t: IpText, c: Candidate): seq<string> {
    [c.foundation, Decimal(c.component), TransportText(c.transport), Decimal(c.priority),
     t.show(c.address.IpOf()), Decimal(c.address.Port()), "typ", TypeText(c.candidateType)]
  }

  function RelatedFields(t: IpText, related: Option<SocketAddr>): seq<string> {
    match related
    case None => []
    case Some(r) => ["raddr", t.show(r.IpOf()), "rport", Decimal(r.Port())]
  }

  function Fields(t: IpText, c: Candidate): seq<string> {
    MainFields(t, c) + RelatedFields(t, c.relatedAddress)
  }

  method ToSdp(t: IpText, c: Candidate) returns (s: string)
    ensures s == Join(Fields(t, c))
  {
    var words := Fields(t, c);
    s := c.foundation;
    for k := 1 to 8
      invariant s == Join(words[..k])
    {
      JoinSnoc(words[..k], words[k]);
      assert words[..k + 1] == words[..k] + [words[k]];
      s := s + " " + words[k];
    }
    if c.relatedAddress.Some? {
      for k := 8 to 12
        invariant s == Join(words[..k])
      {
        JoinSnoc(words[..k], words[k]);
        assert words[..k + 1] == words[..k] + [words[k]];
        s := s + " " + words[k];
      }
    }
    assert words == words[..|words|];
  }

  // ---- Parsing ----

  /** Scans for `raddr <ip> rport <port>` from word i on; the outer None is a parse failure. */
  function ScanRelated(t: IpText, parts: seq<string>, i: nat, found: Option<SocketAddr>): Option<Option<SocketAddr>>
    decreases |parts| - i
  {
    if i + 1 >= |parts| then Some(found)
    else if parts[i] == "raddr" && i + 3 < |parts| && parts[i + 2] == "rport" then
      var ip, port := t.parse(parts[i + 1]), ParseUnsigned(parts[i + 3], 0xffff);
      if ip.None? || port.None? then None
      else ScanRelated(t, parts, i + 4, Some(NewAddr(ip.value, port.value)))
    else ScanRelated(t, parts, i + 1, found)
  }

  function ParseParts(t: IpText, parts: seq<string>): Option<Candidate> {
    if |parts| < 8 then None
    else
      var component, transport := ParseUnsigned(parts[1], 0xff), ParseTransport(parts[2]);
      var priority := ParseUnsigned(parts[3], 0xffff_ffff);
      var ip, port, kind := t.parse(parts[4]), ParseUnsigned(parts[5], 0xffff), ParseType(parts[7]);
      var related := ScanRelated(t, parts, 8, None);
      if component.Some? && transport.Some? && priority.Some? && ip.Some? && port.Some? && parts[6] == "typ"
         && kind.Some? && related.Some?
      then Some(Candidate(parts[0], component.value, transport.value, priority.value,
                          NewAddr(ip.value, port.value), kind.value, related.value))
      else None
  }

  method ParseRelated(t: IpText, parts: seq<string>) returns (related: Option<Option<SocketAddr>>)
    ensures related == ScanRelated(t, parts, 8, None)
  {
    var found: Option<SocketAddr> := None;
    var i := 8;
    while i + 1 < |parts|
      invariant ScanRelated(t, parts, i, found) == ScanRelated(t, parts, 8, None)
      decreases |parts| - i
    {
      if parts[i] == "raddr" {
        if i + 3 < |parts| && parts[i + 2] == "rport" {
          var ip := t.parse(parts[i + 1]);
          if ip.None? { return None; }
          var port := ParseUnsigned(parts[i + 3], 0xffff);
          if port.None? { return None; }
          found := Some(NewAddr(ip.value, port.value));
          i := i + 4;
        } else {
          i := i + 1;
        }
      } else {
        i := i + 1;
      }
    }
    return Some(found);
  }

  method FromSdp(t: IpText, s: string) returns (c: Option<Candidate>)
    ensures c == ParseParts(t, SplitWhitespace(s))
  {
    var parts := SplitWhitespace(s);
    if |parts| < 8 { return None; }
    var component := ParseUnsigned(parts[1], 0xff);
    if component.None? { return None; }
    var transport := ParseTransport(parts[2]);
    if transport.None? { return None; }
    var priority := ParseUnsigned(parts[3], 0xffff_ffff);
    if priority.None? { return None; }
    var ip := t.parse(parts[4]);
    if ip.None? { return None; }
    var port := ParseUnsigned(parts[5], 0xffff);
    if port.None? || parts[6] != "typ" { return None; }
    var kind := ParseType(parts[7]);
    if kind.None? { return None; }
    var related := ParseRelated(t, parts);
    if related.None? { return None; }
    return Some(Candidate(parts[0], component.value, transport.value, priority.value,
                          NewAddr(ip.value, port.value), kind.value, related.value));
  }

  // ---- Round trip ----

  ghost predicate Printable(c: Candidate) {
    IsWord(c.foundation) && c.address.Plain() && (c.relatedAddress.Some? ==> c.relatedAddress.value.Plain())
  }

  lemma PlainAddr(a: SocketAddr)
    requires a.Plain()
    ensures NewAddr(a.IpOf(), a.Port()) == a
  {
  }

  ghost predicate AllWords(words: seq<string>) {
    forall i :: 0 <= i < |words| ==> IsWord(words[i])
  }

  lemma MainFieldsAreWords(t: IpText, c: Candidate)
    requires Faithful(t) && IsWord(c.foundation)
    ensures AllWords(MainFields(t, c))
  {
  }

  lemma RelatedFieldsAreWords(t: IpText, related: Option<SocketAddr>)
    requires Faithful(t)
    ensures AllWords(RelatedFields(t, related))
  {
  }

  lemma PartsParse(t: IpText, parts: seq<string>, c: Candidate)
    requires |parts| >= 8 && parts[0] == c.foundation && parts[6] == "typ"
    requires ParseUnsigned(parts[1], 0xff) == Some(c.component) && ParseTransport(parts[2]) == Some(c.transport)
    requires ParseUnsigned(parts[3], 0xffff_ffff) == Some(c.priority) && ParseType(parts[7]) == Some(c.candidateType)
    requires t.parse(parts[4]) == Some(c.address.IpOf()) && ParseUnsigned(parts[5], 0xffff) == Some(c.address.Port())
    requires c.address.Plain() && ScanRelated(t, parts, 8, None) == Some(c.relatedAddress)
    ensures ParseParts(t, parts) == Some(c)
  {
  }

  lemma FieldsParse(t: IpText, c: Candidate)
    requires Faithful(t) && Printable(c)
    ensures ParseParts(t, Fields(t, c)) == Some(c)
  {
    var parts := Fields(t, c);
    TransportRoundTrip(c.transport);
    DecimalRoundTrip(c.component, 0xff);
    DecimalRoundTrip(c.priority, 0xffff_ffff);
    DecimalRoundTrip(c.address.Port(), 0xffff);
    RelatedParses(t, c);
    TypeRoundTrip(c.candidateType);
    PartsParse(t, parts, c);
  }

  lemma TypeRoundTrip(k: CandidateType)
    ensures ParseType(TypeText(k)) == Some(k)
  {
  }

  lemma RelatedParses(t: IpText, c: Candidate)
    requires Faithful(t) && Printable(c)
    ensures ScanRelated(t, Fields(t, c), 8, None) == Some(c.relatedAddress)
  {
    var parts := Fields(t, c);
    match c.relatedAddress {
      case None =>
      case Some(r) =>
        DecimalRoundTrip(r.Port(), 0xffff);
        PlainAddr(r);
        assert ScanRelated(t, parts, 8, None) == ScanRelated(t, parts, 12, Some(r));
    }
  }

  /** Parsing the printed form gives the candidate back exactly when its foundation is a
      single word and its addresses carry nothing but IP address and port. */
  lemma RoundTripIff(t: IpText, c: Candidate)
    requires Faithful(t)
    ensures ParseParts(t, SplitWhitespace(Join(Fields(t, c)))) == Some(c) <==> Printable(c)
  {
    var parts := SplitWhitespace(Join(Fields(t, c)));
    if Printable(c) {
      MainFieldsAreWords(t, c);
      RelatedFieldsAreWords(t, c.relatedAddress);
      SplitOfJoin(Fields(t, c));
      FieldsParse(t, c);
    } else if ParseParts(t, parts) == Some(c) {
      SplitGivesWords(Join(Fields(t, c)));
      RelatedIsPlain(t, parts, 8, None);
    }
  }

  lemma {:induction false} RelatedIsPlain(t: IpText, parts: seq<string>, i: nat, found: Option<SocketAddr>)
    requires found.Some? ==> found.value.Plain()
    ensures var r := ScanRelated(t, parts, i, found);
            r.Some? && r.value.Some? ==> r.value.value.Plain()
    decreases |parts| - i
  {
    if i + 1 < |parts| {
      if parts[i] == "raddr" && i + 3 < |parts| && parts[i + 2] == "rport" {
        var ip, port := t.parse(parts[i + 1]), ParseUnsigned(parts[i + 3], 0xffff);
        if ip.Some? && port.Some? {
          RelatedIsPlain(t, parts, i + 4, Some(NewAddr(ip.value, port.value)));
        }
      } else {
        RelatedIsPlain(t, parts, i + 1, found);
      }
    }
  }
}
