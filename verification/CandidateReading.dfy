/** Which texts are read as a candidate, word by word: spacing, numerals, tokens and extension
    attributes. */
module CandidateReading {
  import opened Words
  import opened Candidate
  import opened CandidateText

  // ---- Spacing ----

  /** The code points with the White_Space property. */
  const WHITE: set<int> :=
    {9, 10, 11, 12, 13, 0x20, 0x85, 0xa0, 0x1680, 0x2000, 0x2001, 0x2002, 0x2003, 0x2004, 0x2005, 0x2006, 0x2007,
     0x2008, 0x2009, 0x200a, 0x2028, 0x2029, 0x202f, 0x205f, 0x3000}

  predicate AllWhite(s: string) {
    forall i :: 0 <= i < |s| ==> s[i] as int in WHITE
  }

  predicate NoWhite(s: string) {
    s != "" && forall i :: 0 <= i < |s| ==> s[i] as int !in WHITE
  }

  lemma SpaceIsWhite(c: char)
    ensures IsSpace(c) <==> c as int in WHITE
  {
  }

  /** Words with white space before, between and after them. */
  function Spaced(words: seq<string>, gaps: seq<string>): string
    requires |gaps| == |words| + 1
  {
    if words == [] then gaps[0] else gaps[0] + words[0] + Spaced(words[1..], gaps[1..])
  }

  lemma {:induction false} SplitWhite(gap: string, rest: string)
    requires AllWhite(gap)
    ensures SplitWhitespace(gap + rest) == SplitWhitespace(rest)
  {
    if gap == "" {
      assert gap + rest == rest;
    } else {
      SpaceIsWhite(gap[0]);
      SplitWhite(gap[1..], rest);
      assert (gap + rest)[1..] == gap[1..] + rest;
    }
  }

  lemma SplitWord(w: string, rest: string)
    requires NoWhite(w) && (rest == "" || rest[0] as int in WHITE)
    ensures SplitWhitespace(w + rest) == [w] + SplitWhitespace(rest)
  {
    var s := w + rest;
    forall i | 0 <= i < |w| ensures !IsSpace(s[i]) {
      SpaceIsWhite(w[i]);
    }
    if rest != "" {
      SpaceIsWhite(rest[0]);
      assert s[|w|] == rest[0];
    }
    assert WordLength(s) == |w|;
    assert s[..|w|] == w && s[|w|..] == rest;
  }

  /** A line is split into its words whatever white space stands before, between and after. */
  lemma {:induction false} SplitOfSpaced(words: seq<string>, gaps: seq<string>)
    requires |gaps| == |words| + 1
    requires forall i :: 0 <= i < |words| ==> NoWhite(words[i])
    requires forall i :: 0 <= i < |gaps| ==> AllWhite(gaps[i])
    requires forall i :: 0 < i < |words| ==> gaps[i] != ""
    ensures SplitWhitespace(Spaced(words, gaps)) == words
    decreases |words|
  {
    if words == [] {
      SplitWhite(gaps[0], "");
      assert gaps[0] + "" == gaps[0];
    } else {
      var rest := Spaced(words[1..], gaps[1..]);
      SplitOfSpaced(words[1..], gaps[1..]);
      assert Spaced(words, gaps) == gaps[0] + (words[0] + rest);
      SplitWhite(gaps[0], words[0] + rest);
      SpacedStart(words[1..], gaps[1..]);
      SplitWord(words[0], rest);
    }
  }

  lemma SpacedStart(words: seq<string>, gaps: seq<string>)
    requires |gaps| == |words| + 1 && AllWhite(gaps[0]) && (words != [] ==> gaps[0] != "")
    ensures var s := Spaced(words, gaps); s == "" || s[0] as int in WHITE
  {
  }

  // ---- Numerals ----

  function Repeat0(k: nat): string {
    seq(k, _ => '0')
  }

  /** The decimal digits of n, after an optional plus sign and any leading zeros. */
  ghost predicate Spells(s: string, n: nat) {
    exists plus: bool, zeros: nat :: SpellsAs(s, n, plus, zeros)
  }

  predicate SpellsAs(s: string, n: nat, plus: bool, zeros: nat) {
    var digits := Repeat0(zeros) + Decimal(n);
    s == if plus then "+" + digits else digits
  }

  lemma {:induction false} ZerosDoNotCount(k: nat, n: nat)
    ensures DigitsValue(Repeat0(k) + Decimal(n)) == Some(n)
    decreases n
  {
    var s := Repeat0(k) + Decimal(n);
    if n >= 10 {
      ZerosDoNotCount(k, n / 10);
      assert s[..|s| - 1] == Repeat0(k) + Decimal(n / 10);
    } else {
      ZeroValue(k);
      assert s[..|s| - 1] == Repeat0(k);
    }
  }

  lemma {:induction false} ZeroValue(k: nat)
    ensures DigitsValue(Repeat0(k)) == Some(0)
  {
    if k > 0 {
      ZeroValue(k - 1);
      assert Repeat0(k)[..k - 1] == Repeat0(k - 1);
    }
  }

  lemma {:induction false} DigitsAreSpelled(s: string, n: nat) returns (k: nat)
    requires s != "" && DigitsValue(s) == Some(n)
    ensures s == Repeat0(k) + Decimal(n)
    decreases |s|
  {
    var front, c := s[..|s| - 1], s[|s| - 1];
    if front == "" {
      k := 0;
      assert s == [c] && Repeat0(0) == "";
    } else {
      var v := DigitsValue(front).value;
      k := DigitsAreSpelled(front, v);
      assert s == front + [c];
      OneMoreDigit(k, v, c as int - 48);
      k := if v == 0 then k + 1 else k;
    }
  }

  lemma OneMoreDigit(k: nat, v: nat, d: nat)
    requires d < 10
    ensures Repeat0(k) + Decimal(v) + [Digit(d)]
            == if v == 0 then Repeat0(k + 1) + Decimal(d) else Repeat0(k) + Decimal(10 * v + d)
  {
    if v > 0 {
      assert (10 * v + d) / 10 == v && (10 * v + d) % 10 == d;
    } else {
      assert Decimal(0) == "0";
    }
  }

  /** A word is read as the number it spells, within the bound, and no other word is. */
  lemma NumeralIff(s: string, max: nat, n: nat)
    ensures ParseUnsigned(s, max) == Some(n) <==> n <= max && Spells(s, n)
  {
    if ParseUnsigned(s, max) == Some(n) {
      ParsedIsSpelled(s, max, n);
    }
    if plus: bool, k: nat :| SpellsAs(s, n, plus, k) {
      SpelledIsParsed(s, max, n, plus, k);
    }
  }

  lemma ParsedIsSpelled(s: string, max: nat, n: nat)
    requires ParseUnsigned(s, max) == Some(n)
    ensures n <= max && Spells(s, n)
  {
    if s[0] == '+' {
      var k := DigitsAreSpelled(s[1..], n);
      assert s == "+" + s[1..];
      assert SpellsAs(s, n, true, k);
    } else {
      var k := DigitsAreSpelled(s, n);
      assert SpellsAs(s, n, false, k);
    }
  }

  lemma SpelledIsParsed(s: string, max: nat, n: nat, plus: bool, k: nat)
    requires SpellsAs(s, n, plus, k)
    ensures ParseUnsigned(s, max) == if n <= max then Some(n) else None
  {
    var digits := Repeat0(k) + Decimal(n);
    ZerosDoNotCount(k, n);
    assert digits != "" && digits[0] != '+';
    assert plus ==> s[1..] == digits;
  }

  // ---- Tokens ----

  /** The transport in any case of its letters; a type only as written. */
  lemma TokensIff(s: string)
    ensures ParseTransport(s) == Some(Udp) <==> |s| == 3 && s[0] in "uU" && s[1] in "dD" && s[2] in "pP"
    ensures ParseTransport(s) == Some(Tcp) <==> |s| == 3 && s[0] in "tT" && s[1] in "cC" && s[2] in "pP"
    ensures ParseType(s) == Some(Host) <==> s == "host"
    ensures ParseType(s) == Some(ServerReflexive) <==> s == "srflx"
    ensures ParseType(s) == Some(PeerReflexive) <==> s == "prflx"
    ensures ParseType(s) == Some(Relay) <==> s == "relay"
  {
    var upper := seq(|s|, i requires 0 <= i < |s| => Upper(s[i]));
    if |s| == 3 {
      assert upper == [Upper(s[0]), Upper(s[1]), Upper(s[2])];
    }
  }

  // ---- The eight fields ----

  /** Eight words of which each reads as the field of the candidate, the seventh being "typ". */
  ghost predicate FieldsRead(t: IpText, parts: seq<string>, c: Candidate) {
    && |parts| >= 8 && parts[0] == c.foundation
    && Spells(parts[1], c.component) && ParseTransport(parts[2]) == Some(c.transport) && Spells(parts[3], c.priority)
    && t.parse(parts[4]) == Some(c.address.IpOf()) && Spells(parts[5], c.address.Port()) && c.address.Plain()
    && parts[6] == "typ" && ParseType(parts[7]) == Some(c.candidateType)
  }

  /** Words are read as a candidate if and only if the first eight read as its fields and the
      rest as its related address. */
  lemma ReadIff(t: IpText, parts: seq<string>, c: Candidate)
    ensures ParseParts(t, parts) == Some(c) <==>
              FieldsRead(t, parts, c) && ScanRelated(t, parts, 8, None) == Some(c.relatedAddress)
  {
    if |parts| >= 8 {
      NumeralIff(parts[1], 0xff, c.component);
      NumeralIff(parts[3], 0xffff_ffff, c.priority);
      NumeralIff(parts[5], 0xffff, c.address.Port());
      PlainIs(c.address);
    }
  }

  lemma PlainIs(a: SocketAddr)
    ensures a.Plain() <==> a == NewAddr(a.IpOf(), a.Port())
  {
  }

  // ---- Extension attributes ----

  /** Words that do not start a related address. */
  predicate NoRelated(words: seq<string>) {
    "raddr" !in words
  }

  lemma {:induction false} SkipsWords(t: IpText, parts: seq<string>, i: nat, j: nat, found: Option<SocketAddr>)
    requires i <= j <= |parts| && NoRelated(parts[i..j])
    ensures ScanRelated(t, parts, i, found) == ScanRelated(t, parts, j, found)
    decreases j - i
  {
    if i < j {
      assert parts[i] == parts[i..j][0];
      assert parts[i + 1..j] == parts[i..j][1..];
      SkipsWords(t, parts, i + 1, j, found);
    }
  }

  /** A complete group sets the address, or spoils the whole line if it does not parse. */
  lemma ReadsGroup(t: IpText, parts: seq<string>, i: nat, ip: string, port: string, found: Option<SocketAddr>)
    requires i + 4 <= |parts| && parts[i..i + 4] == ["raddr", ip, "rport", port]
    ensures ScanRelated(t, parts, i, found) ==
            match (t.parse(ip), ParseUnsigned(port, 0xffff))
            case (Some(a), Some(p)) => ScanRelated(t, parts, i + 4, Some(NewAddr(a, p)))
            case _ => None
  {
    var g := parts[i..i + 4];
    assert parts[i] == g[0] && parts[i + 1] == g[1] && parts[i + 2] == g[2] && parts[i + 3] == g[3];
  }

  /** A group without its "rport" is passed over word by word. */
  lemma PassesOver(t: IpText, parts: seq<string>, i: nat, found: Option<SocketAddr>)
    requires i < |parts| && (i + 3 >= |parts| || parts[i + 2] != "rport")
    ensures ScanRelated(t, parts, i, found) == ScanRelated(t, parts, i + 1, found)
  {
  }

  /** Words of a line with extension attributes around a related address. */
  function Line(main: seq<string>, before: seq<string>, ip: string, port: string, after: seq<string>): seq<string> {
    main + before + ["raddr", ip, "rport", port] + after
  }

  /** Extension attributes are ignored, wherever they stand after the type; a related address that
      does not parse makes the whole line unreadable. */
  lemma ExtensionsAreIgnored(t: IpText, main: seq<string>, before: seq<string>, ip: string, port: string,
                             after: seq<string>)
    requires |main| == 8 && NoRelated(before) && NoRelated(after)
    ensures ScanRelated(t, main + before, 8, None) == Some(None)
    ensures ScanRelated(t, Line(main, before, ip, port, after), 8, None) ==
            match (t.parse(ip), ParseUnsigned(port, 0xffff))
            case (Some(a), Some(p)) => Some(Some(NewAddr(a, p)))
            case _ => None
  {
    var parts := Line(main, before, ip, port, after);
    var i := 8 + |before|;
    assert (main + before)[8..] == before;
    SkipsWords(t, main + before, 8, i, None);
    assert parts[8..i] == before;
    SkipsWords(t, parts, 8, i, None);
    assert parts[i..i + 4] == ["raddr", ip, "rport", port];
    ReadsGroup(t, parts, i, ip, port, None);
    assert parts[i + 4..] == after;
    if t.parse(ip).Some? && ParseUnsigned(port, 0xffff).Some? {
      SkipsWords(t, parts, i + 4, |parts|, Some(NewAddr(t.parse(ip).value, ParseUnsigned(port, 0xffff).value)));
    }
  }

  /** Of two related addresses the last one counts. */
  lemma LastRelatedCounts(t: IpText, parts: seq<string>, i: nat, ip: string, port: string, found: Option<SocketAddr>)
    requires i + 4 <= |parts| && parts[i..i + 4] == ["raddr", ip, "rport", port] && NoRelated(parts[i + 4..])
    requires t.parse(ip).Some? && ParseUnsigned(port, 0xffff).Some?
    ensures ScanRelated(t, parts, i, found)
            == Some(Some(NewAddr(t.parse(ip).value, ParseUnsigned(port, 0xffff).value)))
  {
    ReadsGroup(t, parts, i, ip, port, found);
    assert parts[i + 4..|parts|] == parts[i + 4..];
    SkipsWords(t, parts, i + 4, |parts|, Some(NewAddr(t.parse(ip).value, ParseUnsigned(port, 0xffff).value)));
  }
}
