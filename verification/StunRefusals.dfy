/** Exactly which requests are answered and which responses are refused, in terms of the bytes
    of the message. */
module StunRefusals {
  import opened Words
  import opened Candidate
  import opened CheckList
  import opened StunBytes
  import opened StunParse
  import opened StunBinding
  import opened StunExchange

  // ---- Which requests are answered ----

  /** The attributes up to the first MESSAGE-INTEGRITY, and the hash found in it. */
  datatype Reading = Reading(attrs: seq<Attr>, hash: Bytes, rest: Bytes) {
    /** The bytes these attributes take up, MESSAGE-INTEGRITY (type 8, length 20) included. */
    function Body(): Bytes {
      Encode(attrs) + [0, 8, 0, 20] + hash + rest
    }

    /** The offset of MESSAGE-INTEGRITY in the message. */
    function Offset(): nat {
      20 + |Encode(attrs)|
    }

    ghost predicate Valid() {
      && AllValid(attrs) && |hash| == 20
      && forall i :: 0 <= i < |attrs| ==> attrs[i].kind != 8
    }
  }

  /** The declared attributes of the request read like this. */
  ghost predicate ReadsAs(request: Bytes, x: Reading) {
    && x.Valid() && |request| >= 20
    && 20 + Word(request, 2) <= |request| && request[20..20 + Word(request, 2)] == x.Body()
  }

  /** Attribute i is the last USERNAME (type 6). */
  ghost predicate LastName(attrs: seq<Attr>, i: nat) {
    && i < |attrs| && attrs[i].kind == 6
    && forall j :: i < j < |attrs| ==> attrs[j].kind != 6
  }

  /** The part before the first colon, or all of it, is the name. */
  ghost predicate Names(username: Bytes, ufrag: Bytes) {
    && ufrag <= username && ColonFree(ufrag)
    && (|ufrag| < |username| ==> username[|ufrag|] == 0x3a)
  }

  /** The hash in the request is that of everything before it, with the length ending there. */
  ghost predicate HashMatches(mac: Mac, request: Bytes, m: nat, hash: Bytes, pwd: Bytes)
    requires 20 <= m <= |request|
  {
    hash == mac(pwd, request[..2] + Put16(m + 4) + request[4..m])
  }

  /** The request is signed with the password and names its receiver. */
  ghost predicate Proper(mac: Mac, request: Bytes, x: Reading, i: nat, ufrag: Bytes, pwd: Bytes) {
    && ReadsAs(request, x) && HashMatches(mac, request, x.Offset(), x.hash, pwd)
    && LastName(x.attrs, i) && Utf8(x.attrs[i].value) && Names(x.attrs[i].value, ufrag)
  }

  lemma PrefixIsName(username: Bytes, ufrag: Bytes)
    ensures Prefix(username) == ufrag <==> Names(username, ufrag)
  {
    var p := Prefix(username);
    assert Names(username, ufrag) ==> |ufrag| <= |p| && |p| <= |ufrag|;
  }

  lemma {:induction false} NoName(attrs: seq<Attr>, username: Option<Bytes>)
    requires forall i :: 0 <= i < |attrs| ==> attrs[i].kind != 6
    ensures LastUsername(attrs, username) == username
    decreases |attrs|
  {
    if attrs != [] {
      NoName(attrs[1..], username);
    }
  }

  lemma {:induction false} LastNameIs(attrs: seq<Attr>, i: nat, username: Option<Bytes>)
    requires LastName(attrs, i)
    ensures LastUsername(attrs, username) == Some(attrs[i].value)
    decreases |attrs|
  {
    if i == 0 {
      NoName(attrs[1..], Some(attrs[0].value));
    } else {
      LastNameIs(attrs[1..], i - 1, if attrs[0].kind == 6 then Some(attrs[0].value) else username);
    }
  }

  lemma {:induction false} SomeName(attrs: seq<Attr>) returns (i: nat)
    requires LastUsername(attrs, None).Some?
    ensures LastName(attrs, i) && LastUsername(attrs, None) == Some(attrs[i].value)
  {
    i := |attrs|;
    while i > 0 && attrs[i - 1].kind != 6
      invariant i <= |attrs| && forall j :: i <= j < |attrs| ==> attrs[j].kind != 6
    {
      i := i - 1;
    }
    if i == 0 {
      NoName(attrs, None);
    }
    i := i - 1;
    LastNameIs(attrs, i, None);
  }

  /** A word is its two bytes. */
  lemma GetPut(high: u8, low: u8)
    ensures Put16(Get16(high, low)) == [high, low]
  {
  }

  /** The attribute at an offset. */
  function AttrAt(data: Bytes, off: nat): Attr
    requires off + 4 <= |data| && off + 4 + Pad4(Word(data, off + 2)) <= |data|
  {
    var n := Word(data, off + 2);
    Attr(Word(data, off), data[off + 4..off + 4 + n], data[off + 4 + n..off + 4 + Pad4(n)])
  }

  lemma AttrAtEncodes(data: Bytes, off: nat)
    requires off + 4 <= |data| && off + 4 + Pad4(Word(data, off + 2)) <= |data|
    ensures AttrAt(data, off).Valid()
    ensures EncodeAttr(AttrAt(data, off)) == data[off..off + 4 + Pad4(Word(data, off + 2))]
  {
    var n := Word(data, off + 2);
    GetPut(data[off], data[off + 1]);
    GetPut(data[off + 2], data[off + 3]);
    assert data[off..off + 4 + Pad4(n)] ==
           [data[off], data[off + 1]] + [data[off + 2], data[off + 3]] + data[off + 4..off + 4 + n]
           + data[off + 4 + n..off + 4 + Pad4(n)];
  }

  /** These attributes, none of them MESSAGE-INTEGRITY, take up the bytes from i to j. */
  ghost predicate Spans(data: Bytes, i: nat, j: nat, attrs: seq<Attr>) {
    && i <= j <= |data| && data[i..j] == Encode(attrs)
    && AllValid(attrs) && forall k :: 0 <= k < |attrs| ==> attrs[k].kind != 8
  }

  lemma SpansOneMore(data: Bytes, off: nat, j: nat, rest: seq<Attr>)
    requires off + 4 <= |data| && off + 4 + Pad4(Word(data, off + 2)) <= |data| && Word(data, off) != 8
    requires Spans(data, off + 4 + Pad4(Word(data, off + 2)), j, rest)
    ensures Spans(data, off, j, [AttrAt(data, off)] + rest)
  {
    AttrAtEncodes(data, off);
    EncodeCons(data, off, off + 4 + Pad4(Word(data, off + 2)), j, AttrAt(data, off), rest);
  }

  /** The attributes a walk has passed. */
  lemma {:induction false} WalkPasses(request: Bytes, off: nat, end: nat, username: Option<Bytes>, w: Walked)
    returns (attrs: seq<Attr>)
    requires end <= |request| && w == Walk(request, off, end, username) && w.AtIntegrity?
    ensures Spans(request, off, w.offset, attrs) && w.username == LastUsername(attrs, username)
    ensures Word(request, w.offset) == 8 && Word(request, w.offset + 2) == 20
    decreases end - off
  {
    var kind, n := Word(request, off), Word(request, off + 2);
    if kind == MESSAGE_INTEGRITY {
      attrs := [];
    } else {
      WalkStep(request, off, end, username);
      var noted := if kind == USERNAME then Some(request[off + 4..off + 4 + n]) else username;
      var rest := WalkPasses(request, off + 4 + Pad4(n), end, noted, w);
      SpansOneMore(request, off, w.offset, rest);
      attrs := [AttrAt(request, off)] + rest;
      LastUsernameCons(AttrAt(request, off), rest, username);
    }
  }

  lemma LastUsernameCons(a: Attr, rest: seq<Attr>, username: Option<Bytes>)
    ensures LastUsername([a] + rest, username)
            == LastUsername(rest, if a.kind == USERNAME then Some(a.value) else username)
  {
    assert ([a] + rest)[1..] == rest;
  }

  lemma IntegrityHead(data: Bytes, off: nat)
    requires off + 4 <= |data|
    ensures Word(data, off) == 8 && Word(data, off + 2) == 20 <==> data[off..off + 4] == [0, 8, 0, 20]
  {
    assert data[off..off + 4] == [data[off], data[off + 1], data[off + 2], data[off + 3]];
  }

  lemma EncodeCons(data: Bytes, i: nat, j: nat, k: nat, a: Attr, rest: seq<Attr>)
    requires i <= j <= k <= |data| && data[i..j] == EncodeAttr(a) && data[j..k] == Encode(rest)
    ensures data[i..k] == Encode([a] + rest)
  {
    assert ([a] + rest)[1..] == rest;
    assert data[i..k] == data[i..j] + data[j..k];
  }

  /** A request whose hash is located reads accordingly. */
  lemma LocatedReads(request: Bytes) returns (x: Reading)
    requires LocateIntegrity(request).AtIntegrity?
    ensures var w := LocateIntegrity(request);
            && ReadsAs(request, x) && x.Offset() == w.offset && x.hash == request[w.offset + 4..w.offset + 24]
            && w.username == LastUsername(x.attrs, None)
  {
    var end := HEADER + Word(request, 2);
    var m := LocateIntegrity(request).offset;
    var attrs := WalkPasses(request, HEADER, end, None, LocateIntegrity(request));
    IntegrityHead(request, m);
    x := Reading(attrs, request[m + 4..m + 24], request[m + 24..end]);
    InFour(request, 20, m, end);
    LengthOfSlice(request, 20, m);
  }

  lemma LengthOfSlice(data: Bytes, i: nat, j: nat)
    requires i <= j <= |data|
    ensures |data[i..j]| == j - i
  {
  }

  lemma InFour(data: Bytes, i: nat, m: nat, end: nat)
    requires i <= m && m + 24 <= end <= |data|
    ensures data[i..end] == data[i..m] + data[m..m + 4] + data[m + 4..m + 24] + data[m + 24..end]
  {
  }

  lemma ReadsIsLocated(request: Bytes, x: Reading)
    requires ReadsAs(request, x)
    ensures LocateIntegrity(request) == AtIntegrity(LastUsername(x.attrs, None), x.Offset())
    ensures request[x.Offset() + 4..x.Offset() + 24] == x.hash
  {
    var end := HEADER + Word(request, 2);
    BodyReads(request, x, end);
    WalkEncoded(request, HEADER, x.attrs, end, None);
    WalkStops(request, x.Offset(), end, LastUsername(x.attrs, None));
  }

  lemma BodyReads(request: Bytes, x: Reading, end: nat)
    requires x.Valid() && 20 <= end <= |request| && request[20..end] == x.Body()
    ensures var m := x.Offset();
            && Reads(request, HEADER, x.attrs) && EndOf(HEADER, x.attrs) == m
            && m + 24 <= end && Word(request, m) == 8 && Word(request, m + 2) == 20 && request[m + 4..m + 24] == x.hash
  {
    var tail := [0, 8, 0, 20] + x.hash + x.rest;
    IntegrityAfter(request, 20, end, Encode(x.attrs), x.hash, x.rest);
    Around(request, 20, end, Encode(x.attrs), tail);
    EncodedReads(request, request[..20], x.attrs, tail + request[end..]);
  }

  lemma WalkStops(request: Bytes, m: nat, end: nat, username: Option<Bytes>)
    requires m + 24 <= end <= |request| && Word(request, m) == 8 && Word(request, m + 2) == 20
    ensures Walk(request, m, end, username) == AtIntegrity(username, m)
  {
  }

  lemma Around(data: Bytes, i: nat, j: nat, a: Bytes, b: Bytes)
    requires i <= j <= |data| && data[i..j] == a + b
    ensures data == data[..i] + a + (b + data[j..])
  {
    assert data == data[..i] + data[i..j] + data[j..];
  }

  lemma SliceOfSlice(data: Bytes, i: nat, j: nat, k: nat, l: nat)
    requires i <= j <= |data| && k <= l <= j - i
    ensures data[i..j][k..l] == data[i + k..i + l]
  {
    assert forall x :: 0 <= x < l - k ==> data[i..j][k..l][x] == data[i + k..i + l][x];
  }

  lemma IntegrityAfter(data: Bytes, i: nat, j: nat, a: Bytes, hash: Bytes, rest: Bytes)
    requires i <= j <= |data| && data[i..j] == a + [0, 8, 0, 20] + hash + rest && |hash| == 20
    ensures var m := i + |a|;
            && m + 24 <= j && Word(data, m) == 8 && Word(data, m + 2) == 20 && data[m + 4..m + 24] == hash
            && data[i..j] == a + ([0, 8, 0, 20] + hash + rest)
  {
    assert a + [0, 8, 0, 20] + hash + rest == a + ([0, 8, 0, 20] + hash + rest);
    var m := i + |a|;
    var s := data[i..j];
    assert s[|a|..|a| + 4] == [0, 8, 0, 20] && s[|a| + 4..|a| + 24] == hash;
    SliceOfSlice(data, i, j, |a|, |a| + 4);
    SliceOfSlice(data, i, j, |a| + 4, |a| + 24);
    IntegrityHead(data, m);
  }

  /** A request is answered if and only if its declared attributes hold a MESSAGE-INTEGRITY, the
      hash in the first one is that of the bytes before it under the password, and the last
      USERNAME before it is UTF-8 and starts with the receiver's name up to its first colon. */
  lemma AnsweredIff(mac: Mac, request: Bytes, txn: TxnId, from: SocketAddr, ufrag: Bytes, pwd: Bytes)
    ensures BindingResponse(mac, request, txn, from, ufrag, pwd)
            == if exists x, i: nat :: Proper(mac, request, x, i, ufrag, pwd)
               then Some(Answer(mac, txn, from, pwd)) else None
  {
    if x, i: nat :| Proper(mac, request, x, i, ufrag, pwd) {
      ProperIsAuthentic(mac, request, x, i, ufrag, pwd);
    }
    if Authentic(mac, request, LocateIntegrity(request), ufrag, pwd) {
      var x, i := AuthenticIsProper(mac, request, ufrag, pwd);
    }
  }

  lemma ProperIsAuthentic(mac: Mac, request: Bytes, x: Reading, i: nat, ufrag: Bytes, pwd: Bytes)
    requires Proper(mac, request, x, i, ufrag, pwd)
    ensures Authentic(mac, request, LocateIntegrity(request), ufrag, pwd)
  {
    ReadsIsLocated(request, x);
    LastNameIs(x.attrs, i, None);
    PrefixIsName(x.attrs[i].value, ufrag);
  }

  lemma AuthenticIsProper(mac: Mac, request: Bytes, ufrag: Bytes, pwd: Bytes) returns (x: Reading, i: nat)
    requires Authentic(mac, request, LocateIntegrity(request), ufrag, pwd)
    ensures Proper(mac, request, x, i, ufrag, pwd)
  {
    x := LocatedReads(request);
    i := SomeName(x.attrs);
    PrefixIsName(x.attrs[i].value, ufrag);
  }

  // ---- Forged requests ----

  /** A request like the one built, but with any twenty bytes in place of the hash. */
  function Forged(role: Role, receiver: Bytes, sender: Bytes, priority: u32, tieBreaker: Bytes, txn: TxnId,
                  hash: Digest): Bytes {
    Unsigned(BINDING_REQUEST, txn, RequestAttrs(role, UsernameFor(receiver, sender), priority, tieBreaker))
    + Put16(MESSAGE_INTEGRITY) + Put16(20) + hash
  }

  /** The genuine hash of such a request under a password. */
  function Genuine(mac: Mac, role: Role, receiver: Bytes, sender: Bytes, priority: u32, tieBreaker: Bytes, txn: TxnId,
                   pwd: Bytes): Digest {
    mac(pwd, Unsigned(BINDING_REQUEST, txn, RequestAttrs(role, UsernameFor(receiver, sender), priority, tieBreaker)))
  }

  lemma WrongHashIsRefused(mac: Mac, attrs: seq<Attr>, hash: Digest, txn: TxnId, from: SocketAddr, ufrag: Bytes,
                           pwd: Bytes)
    requires |Encode(attrs)| + 24 < 0x1_0000 && AllValid(attrs)
    requires forall i :: 0 <= i < |attrs| ==> attrs[i].kind != MESSAGE_INTEGRITY
    requires hash != mac(pwd, Unsigned(BINDING_REQUEST, txn, attrs))
    ensures BindingResponse(mac, Signed((_, _) => hash, pwd, BINDING_REQUEST, txn, attrs), txn, from, ufrag, pwd)
            == None
  {
    var forger: Mac := (_, _) => hash;
    SignedLayout(forger, pwd, BINDING_REQUEST, txn, attrs);
    SignedIsLocated(forger, pwd, BINDING_REQUEST, txn, attrs);
  }

  /** A request with any other hash than the genuine one, so in particular one signed under a
      password that hashes differently, is not answered, and the dispatcher drops it, whatever
      its size. */
  lemma ForgedIsDropped(mac: Mac, pending: set<Bytes>, role: Role, receiver: Bytes, pwd: Bytes, sender: Bytes,
                        priority: u32, tieBreaker: Bytes, txn: TxnId, from: SocketAddr, hash: Digest)
    requires |tieBreaker| == 8 && txn !in pending
    requires hash != Genuine(mac, role, receiver, sender, priority, tieBreaker, txn, pwd)
    ensures var forged := Forged(role, receiver, sender, priority, tieBreaker, txn, hash);
            && Dispatch(mac, pending, forged, from, receiver, pwd) == Drop
            && (|receiver| + |sender| < 65484 ==> BindingResponse(mac, forged, txn, from, receiver, pwd) == None)
  {
    var username := UsernameFor(receiver, sender);
    var attrs := RequestAttrs(role, username, priority, tieBreaker);
    var forger: Mac := (_, _) => hash;
    var forged := Forged(role, receiver, sender, priority, tieBreaker, txn, hash);
    assert forged == Signed(forger, pwd, BINDING_REQUEST, txn, attrs);
    RequestShape(role, username, priority, tieBreaker);
    SignedLength(forger, pwd, BINDING_REQUEST, txn, attrs);
    if |username| <= 65484 {
      WrongHashIsRefused(mac, attrs, hash, txn, from, receiver, pwd);
    }
    PadAround(|username|);
    if |username| <= 1428 {
      SignedLayout(forger, pwd, BINDING_REQUEST, txn, attrs);
      RequestReachesHandler(mac, pending, forged, txn, from, receiver, pwd);
    } else {
      OversizeIsDropped(mac, pending, forged, from, receiver, pwd);
    }
  }

  // ---- What a request carries ----

  /** Type, length and value of an attribute at an offset. */
  ghost predicate HasAttr(data: Bytes, off: nat, kind: u16, value: Bytes) {
    && off + 4 + |value| <= |data| && Word(data, off) == kind && Word(data, off + 2) == |value|
    && data[off + 4..off + 4 + |value|] == value
  }

  /** Four bytes, high byte first. */
  ghost predicate IsLong(value: Bytes, n: u32) {
    |value| == 4 && value[0] as int * 0x100_0000 + value[1] as int * 0x1_0000 + value[2] as int * 0x100 + value[3] == n
  }

  /** A request has type 1 and its transaction, then USERNAME with both names, PRIORITY, the
      attribute of the role with the tie-breaker, and MESSAGE-INTEGRITY with the hash of all
      bytes before it. */
  lemma RequestCarries(mac: Mac, role: Role, receiver: Bytes, pwd: Bytes, sender: Bytes, priority: u32,
                       tieBreaker: Bytes, txn: TxnId)
    requires |tieBreaker| == 8 && |receiver| + |sender| < 65484
    ensures var request := Request(mac, role, receiver, pwd, sender, priority, tieBreaker, txn);
            var p := 24 + Pad4(|receiver| + 1 + |sender|);
            && IsSigned(mac, pwd, request, p + 20, txn)
            && HasAttr(request, 20, 0x0006, receiver + [0x3a] + sender)
            && (exists value :: IsLong(value, priority) && HasAttr(request, p, 0x0024, value))
            && HasAttr(request, p + 8, if role == Controlling then 0x802a else 0x8029, tieBreaker)
  {
    var username := UsernameFor(receiver, sender);
    var attrs := RequestAttrs(role, username, priority, tieBreaker);
    RequestShape(role, username, priority, tieBreaker);
    PadBelow(|username|);
    assert attrs == [attrs[0], attrs[1], attrs[2]];
    SignedCarries(mac, pwd, txn, attrs[0], attrs[1], attrs[2]);
    LongIs(priority);
    assert IsLong(attrs[1].value, priority);
  }

  lemma PadBelow(n: nat)
    requires n <= 65484
    ensures Pad4(n) <= 65484
  {
  }

  lemma SignedCarries(mac: Mac, key: Bytes, txn: TxnId, a: Attr, b: Attr, c: Attr)
    requires AllValid([a, b, c]) && |b.value| == 4 && |c.value| == 8
    requires |Encode([a, b, c])| == 24 + Pad4(|a.value|) && Pad4(|a.value|) + 48 < 0x1_0000
    ensures var msg := Signed(mac, key, BINDING_REQUEST, txn, [a, b, c]);
            var p := 24 + Pad4(|a.value|);
            && IsSigned(mac, key, msg, p + 20, txn)
            && HasAttr(msg, 20, a.kind, a.value) && HasAttr(msg, p, b.kind, b.value)
            && HasAttr(msg, p + 8, c.kind, c.value)
  {
    var msg := Signed(mac, key, BINDING_REQUEST, txn, [a, b, c]);
    SignedFrame(mac, key, txn, [a, b, c]);
    SignedReads(mac, key, BINDING_REQUEST, txn, [a, b, c]);
    ReadsThree(msg, 20, a, b, c);
  }

  /** A request of type 1 that ends, at offset m, with the hash of all bytes before that. */
  ghost predicate IsSigned(mac: Mac, key: Bytes, msg: Bytes, m: nat, txn: TxnId) {
    && m >= 20 && |msg| == m + 24 && msg[..2] == [0, 1] && msg[8..20] == txn
    && HasAttr(msg, m, 0x0008, mac(key, msg[..m]))
  }

  lemma SignedFrame(mac: Mac, key: Bytes, txn: TxnId, attrs: seq<Attr>)
    requires |Encode(attrs)| + 24 < 0x1_0000
    ensures IsSigned(mac, key, Signed(mac, key, BINDING_REQUEST, txn, attrs), 20 + |Encode(attrs)|, txn)
  {
    SignedLayout(mac, key, BINDING_REQUEST, txn, attrs);
    SignedPrefix(mac, key, BINDING_REQUEST, txn, attrs);
    TypeBytes(Signed(mac, key, BINDING_REQUEST, txn, attrs), BINDING_REQUEST);
  }

  lemma TypeBytes(data: Bytes, kind: u16)
    requires |data| >= 2
    ensures Word(data, 0) == kind <==> data[..2] == Put16(kind)
  {
    assert data[..2] == [data[0], data[1]];
    GetPut(data[0], data[1]);
    PutGet(kind);
  }

  /** The hash covers everything before MESSAGE-INTEGRITY as it stands in the message. */
  lemma SignedPrefix(mac: Mac, key: Bytes, kind: u16, txn: TxnId, attrs: seq<Attr>)
    ensures var msg, m := Signed(mac, key, kind, txn, attrs), HEADER + |Encode(attrs)|;
            |msg| == m + 24 && msg[..m] == Unsigned(kind, txn, attrs) && msg[m + 4..] == mac(key, msg[..m])
  {
    var body := Unsigned(kind, txn, attrs);
    Assembled(body, Put16(MESSAGE_INTEGRITY), Put16(20), mac(key, body));
  }

  lemma SignedReads(mac: Mac, key: Bytes, kind: u16, txn: TxnId, attrs: seq<Attr>)
    requires AllValid(attrs)
    ensures Reads(Signed(mac, key, kind, txn, attrs), HEADER, attrs)
  {
    var head, digest := Header(kind, |Encode(attrs)| + 24, txn), mac(key, Unsigned(kind, txn, attrs));
    var tail := Put16(MESSAGE_INTEGRITY) + Put16(20) + digest;
    Assembled(head + Encode(attrs), Put16(MESSAGE_INTEGRITY), Put16(20), digest);
    EncodedReads(head + Encode(attrs) + tail, head, attrs, tail);
  }

  lemma ReadsThree(data: Bytes, off: nat, a: Attr, b: Attr, c: Attr)
    requires Reads(data, off, [a, b, c]) && |b.value| == 4 && |c.value| == 8
    ensures var p := off + 4 + Pad4(|a.value|);
            && HasAttr(data, off, a.kind, a.value) && HasAttr(data, p, b.kind, b.value)
            && HasAttr(data, p + 8, c.kind, c.value)
  {
    assert [a, b, c][1..] == [b, c] && [b, c][1..] == [c];
    assert Reads(data, off + 4 + Pad4(|a.value|), [b, c]);
    assert Reads(data, off + 4 + Pad4(|a.value|) + 8, [c]);
  }

  lemma LongIs(n: u32)
    ensures IsLong(Put32(n), n)
  {
    var high := n / 0x1_0000;
    assert Put16(high) == [high / 256, high % 256];
    assert n / 256 == 256 * high + n % 0x1_0000 / 256;
  }

  // ---- Which responses are refused ----

  /** What the sender of a check asks of an answer: twenty bytes, type 0x0101 and the cookie.
      Neither the hash nor any attribute is looked at. */
  lemma AcceptsIff(response: Bytes)
    ensures Accepts(response) <==>
              |response| >= 20 && response[..2] == [1, 1] && response[4..8] == [0x21, 0x12, 0xa4, 0x42]
  {
    if |response| >= 2 {
      TypeBytes(response, BINDING_RESPONSE);
    }
  }

  /** A response of type 0x0101 to the right transaction, with its declared length in place. */
  predicate WellFormed(data: Bytes, expected: TxnId) {
    && |data| >= 20 && data[..2] == [1, 1] && 20 + data[2] as int * 256 + data[3] <= |data|
    && data[4..8] == [0x21, 0x12, 0xa4, 0x42] && data[8..20] == expected
  }

  /** A response is searched for addresses if and only if it is well formed. Otherwise the error
      is that of the first thing wrong: length, type, declared length, cookie, transaction. */
  lemma SearchedIff(data: Bytes, expected: TxnId)
    ensures var r := Response(data, expected);
            && (WellFormed(data, expected) <==> r.Ok? || r == Err(NoMappedAddress))
            && (r == Err(TooShort) <==> |data| < 20)
            && (|data| >= 20 && data[..2] != [1, 1] && data[..2] != [1, 0x11] ==>
                  r == Err(UnexpectedType(data[0] as int * 256 + data[1])))
            && (|data| >= 20 && data[..2] == [1, 1] ==>
                  var fits := 20 + data[2] as int * 256 + data[3] <= |data|;
                  && (r == Err(Truncated) <==> !fits)
                  && (r == Err(BadCookie) <==> fits && data[4..8] != [0x21, 0x12, 0xa4, 0x42])
                  && (r == Err(WrongTransaction) <==>
                        fits && data[4..8] == [0x21, 0x12, 0xa4, 0x42] && data[8..20] != expected))
  {
    if |data| >= 20 {
      TypeBytes(data, BINDING_RESPONSE);
      TypeBytes(data, BINDING_ERROR);
      ErrorKinds(data[HEADER..]);
    }
  }

  lemma {:induction false} ErrorKinds(attrs: Bytes)
    ensures ScanError(attrs).ErrorResponse? || ScanError(attrs) == UnknownError
    decreases |attrs|
  {
    if |attrs| >= 4 && |attrs[4..]| >= Pad4(Word(attrs, 2)) {
      ErrorKinds(attrs[4..][Pad4(Word(attrs, 2))..]);
    }
  }

  // ---- Addresses in arbitrary bytes ----

  /** Whole attributes and what follows them: too short for one more with its padding. */
  ghost predicate Splits(body: Bytes, attrs: seq<Attr>, tail: Bytes) {
    && body == Encode(attrs) + tail && AllValid(attrs)
    && (|tail| >= 4 ==> |tail| < 4 + Pad4(Word(tail, 2)))
  }

  /** A last attribute whose value is complete, though its padding is not. */
  function Unpadded(tail: Bytes): seq<Attr> {
    if |tail| >= 4 && 4 + Word(tail, 2) <= |tail|
    then [Attr(Word(tail, 0), tail[4..4 + Word(tail, 2)], tail[4 + Word(tail, 2)..])] else []
  }

  /** Any bytes split in this way. */
  lemma {:induction false} SplitExists(body: Bytes) returns (attrs: seq<Attr>, tail: Bytes)
    ensures Splits(body, attrs, tail)
    decreases |body|
  {
    if |body| < 4 || |body| < 4 + Pad4(Word(body, 2)) {
      attrs, tail := [], body;
    } else {
      var next := 4 + Pad4(Word(body, 2));
      var rest, end := SplitExists(body[next..]);
      AttrAtEncodes(body, 0);
      attrs, tail := [AttrAt(body, 0)] + rest, end;
      assert attrs[1..] == rest;
      assert body == body[0..next] + body[next..];
    }
  }

  /** On arbitrary bytes: a well-formed response yields the last XOR-MAPPED-ADDRESS of its
      attributes if that decodes, else the last MAPPED-ADDRESS if that decodes; an incomplete
      attribute at the end is ignored. */
  lemma AnyResponseYieldsLast(data: Bytes, expected: TxnId, attrs: seq<Attr>, tail: Bytes)
    requires WellFormed(data, expected)
    requires Splits(data[20..20 + data[2] as int * 256 + data[3]], attrs, tail)
    ensures var all := attrs + Unpadded(tail);
            var xored, mapped := LastOf(all, XOR_MAPPED_ADDRESS, true), LastOf(all, MAPPED_ADDRESS, false);
            Response(data, expected) ==
              if xored.Some? then Ok(xored.value) else if mapped.Some? then Ok(mapped.value) else Err(NoMappedAddress)
  {
    TypeBytes(data, BINDING_RESPONSE);
    ScanSplit(attrs, tail, Found(None, None));
    NotingIsLast(attrs + Unpadded(tail));
  }

  lemma {:induction false} ScanSplit(attrs: seq<Attr>, tail: Bytes, found: Found)
    requires AllValid(attrs) && (|tail| >= 4 ==> |tail| < 4 + Pad4(Word(tail, 2)))
    ensures ScanMapped(Encode(attrs) + tail, found) == NotingAll(found, attrs + Unpadded(tail))
    decreases |attrs|
  {
    if attrs == [] {
      ScanTail(tail, found);
      assert [] + tail == tail && [] + Unpadded(tail) == Unpadded(tail);
    } else {
      var a := attrs[0];
      FirstOff(attrs, tail, Unpadded(tail));
      ScanOne(a, Encode(attrs[1..]) + tail, found);
      ScanSplit(attrs[1..], tail, found.Noting(a.kind, a.value));
    }
  }

  lemma FirstOff(attrs: seq<Attr>, tail: Bytes, more: seq<Attr>)
    requires attrs != []
    ensures Encode(attrs) + tail == EncodeAttr(attrs[0]) + (Encode(attrs[1..]) + tail)
    ensures (attrs + more)[0] == attrs[0] && (attrs + more)[1..] == attrs[1..] + more
  {
    Regroup([], EncodeAttr(attrs[0]), Encode(attrs[1..]), tail);
    TailOfConcat(attrs, more);
  }

  lemma TailOfConcat<T>(a: seq<T>, b: seq<T>)
    requires a != []
    ensures (a + b)[0] == a[0] && (a + b)[1..] == a[1..] + b
  {
  }

  lemma ScanTail(tail: Bytes, found: Found)
    requires |tail| >= 4 ==> |tail| < 4 + Pad4(Word(tail, 2))
    ensures ScanMapped(tail, found) == NotingAll(found, Unpadded(tail))
  {
    if Unpadded(tail) != [] {
      var n := Word(tail, 2);
      assert tail[4..][..n] == tail[4..4 + n];
      assert Unpadded(tail)[1..] == [];
    }
  }

  /** A message of type 0x0111 yields the error of its first ERROR-CODE with a code, whatever its
      length field, cookie and transaction are, and whatever bytes follow the attributes. */
  lemma ErrorMessageYieldsFirst(data: Bytes, expected: TxnId, attrs: seq<Attr>, tail: Bytes)
    requires |data| >= 20 && data[..2] == [1, 0x11] && Splits(data[20..], attrs, tail)
    ensures Response(data, expected) == Err(FirstError(attrs + Unpadded(tail)))
  {
    TypeBytes(data, BINDING_ERROR);
    ErrorSplit(attrs, tail);
  }

  lemma {:induction false} ErrorSplit(attrs: seq<Attr>, tail: Bytes)
    requires AllValid(attrs) && (|tail| >= 4 ==> |tail| < 4 + Pad4(Word(tail, 2)))
    ensures ScanError(Encode(attrs) + tail) == FirstError(attrs + Unpadded(tail))
    decreases |attrs|
  {
    if attrs == [] {
      assert [] + tail == tail && [] + Unpadded(tail) == Unpadded(tail);
      ErrorTail(tail);
    } else {
      FirstOff(attrs, tail, Unpadded(tail));
      ErrorSplit(attrs[1..], tail);
      ErrorOne(attrs[0], Encode(attrs[1..]) + tail);
    }
  }

  lemma ErrorOne(a: Attr, rest: Bytes)
    requires a.Valid()
    ensures ScanError(EncodeAttr(a) + rest) ==
            if a.kind == ERROR_CODE && |a.value| >= 4
            then ErrorResponse(a.value[2] as int * 100 + a.value[3], a.value[4..]) else ScanError(rest)
  {
    var data := EncodeAttr(a) + rest;
    EncodedFront(a, rest);
    assert data[4..][..|a.value|] == a.value;
    assert data[4..][Pad4(|a.value|)..] == rest;
    if |a.value| >= 4 {
      assert data[4..][4..|a.value|] == a.value[4..];
    }
  }

  lemma ErrorTail(tail: Bytes)
    requires |tail| >= 4 ==> |tail| < 4 + Pad4(Word(tail, 2))
    ensures ScanError(tail) == FirstError(Unpadded(tail))
  {
    if Unpadded(tail) != [] {
      OneError(Unpadded(tail)[0]);
      LastError(tail, Unpadded(tail)[0].value);
    } else {
      IncompleteIsNoError(tail);
    }
  }

  lemma IncompleteIsNoError(tail: Bytes)
    requires |tail| < 4 || |tail| < 4 + Word(tail, 2)
    ensures ScanError(tail) == UnknownError
  {
  }

  lemma LastError(tail: Bytes, value: Bytes)
    requires 4 + |value| <= |tail| < 4 + Pad4(|value|) && Word(tail, 2) == |value| && tail[4..4 + |value|] == value
    ensures ScanError(tail) == if Word(tail, 0) == ERROR_CODE && |value| >= 4
                               then ErrorResponse(value[2] as int * 100 + value[3], value[4..]) else UnknownError
  {
    if |value| >= 4 {
      assert tail[4..][4..|value|] == value[4..];
      assert tail[4..][2] == value[2] && tail[4..][3] == value[3];
    }
  }

  lemma OneError(a: Attr)
    ensures FirstError([a]) == if a.kind == ERROR_CODE && |a.value| >= 4
                               then ErrorResponse(a.value[2] as int * 100 + a.value[3], a.value[4..]) else UnknownError
  {
    assert [a][1..] == [];
  }

  // ---- The gathering decoder ----

  /** An attribute the gathering decoder looks into. */
  predicate Telling(a: Attr) {
    a.kind == 0x0020 && |a.value| >= 8
  }

  lemma {:induction false} ScanIsResponse(attrs: Bytes)
    ensures ScanXorMapped(attrs) != NotResponse
    decreases |attrs|
  {
    if |attrs| >= 4 {
      var n := Word(attrs, 2);
      if |attrs| - 4 >= Pad4(n) {
        ScanIsResponse(attrs[4..][Pad4(n)..]);
      }
      if |attrs| - 8 >= Pad4(n) {
        ScanIsResponse(attrs[4..][4 + Pad4(n)..]);
      }
    }
  }

  /** It refuses exactly what the sender of a check refuses. */
  lemma GatheringRefusesIff(data: Bytes)
    ensures GatherDecode(data) == NotResponse <==> !Accepts(data)
  {
    if Accepts(data) {
      ScanIsResponse(data[HEADER..HEADER + Min(Word(data, 2), |data| - HEADER)]);
    }
  }

  lemma SkipOne(a: Attr, rest: Bytes)
    requires a.Valid() && !Telling(a)
    ensures ScanXorMapped(EncodeAttr(a) + rest) == ScanXorMapped(rest)
  {
    EncodedFront(a, rest);
    assert (EncodeAttr(a) + rest)[4..][Pad4(|a.value|)..] == rest;
  }

  lemma {:induction false} SkipAll(attrs: seq<Attr>, rest: Bytes)
    requires AllValid(attrs) && forall i :: 0 <= i < |attrs| ==> !Telling(attrs[i])
    ensures ScanXorMapped(Encode(attrs) + rest) == ScanXorMapped(rest)
    decreases |attrs|
  {
    if attrs == [] {
      assert [] + rest == rest;
    } else {
      assert Encode(attrs) + rest == EncodeAttr(attrs[0]) + (Encode(attrs[1..]) + rest);
      SkipOne(attrs[0], Encode(attrs[1..]) + rest);
      SkipAll(attrs[1..], rest);
    }
  }

  /** The address in an IPv4 XOR-MAPPED-ADDRESS value. */
  function Unmasked(value: Bytes): SocketAddr
    requires |value| >= 8
  {
    Addr4(XorBytes(value[4..8], COOKIE), Xor16(Word(value, 2), COOKIE_HIGH))
  }

  lemma GatherScans(data: Bytes)
    requires Accepts(data) && 20 + Word(data, 2) <= |data|
    ensures GatherDecode(data) == ScanXorMapped(data[20..20 + Word(data, 2)])
  {
  }

  /** The decoder stops at the first XOR-MAPPED-ADDRESS of eight bytes or more. If its family is
      IPv4 the address is un-masked; otherwise the search goes on four bytes too far. */
  lemma GatheringYieldsFirst(data: Bytes, attrs: seq<Attr>, x: Attr, rest: Bytes)
    requires Accepts(data) && 20 + Word(data, 2) <= |data|
    requires data[20..20 + Word(data, 2)] == Encode(attrs) + (EncodeAttr(x) + rest)
    requires AllValid(attrs) && (forall i :: 0 <= i < |attrs| ==> !Telling(attrs[i])) && x.Valid() && Telling(x)
    ensures x.value[1] == 1 ==> GatherDecode(data) == At(Unmasked(x.value))
    ensures x.value[1] != 1 ==> GatherDecode(data) == if |rest| >= 4 then ScanXorMapped(rest[4..]) else Nowhere
  {
    GatherScans(data);
    SkipAll(attrs, EncodeAttr(x) + rest);
    EncodedFront(x, rest);
    TellingOne(EncodeAttr(x) + rest, x.value, rest);
  }

  lemma TellingOne(data: Bytes, value: Bytes, rest: Bytes)
    requires |data| == 4 + Pad4(|value|) + |rest| && 8 <= |value| < 0x1_0000
    requires Word(data, 0) == XOR_MAPPED_ADDRESS && Word(data, 2) == |value|
    requires data[4..4 + |value|] == value && data[4 + Pad4(|value|)..] == rest
    ensures value[1] == 1 ==> ScanXorMapped(data) == At(Unmasked(value))
    ensures value[1] != 1 ==> ScanXorMapped(data) == if |rest| >= 4 then ScanXorMapped(rest[4..]) else Nowhere
  {
    ValueInside(data, value);
    if value[1] == 1 {
      ScanXorReads(data);
    } else {
      OtherFamily(data, rest);
    }
  }

  lemma ValueInside(data: Bytes, value: Bytes)
    requires 8 <= |value| && 4 + |value| <= |data| && data[4..4 + |value|] == value
    ensures data[5] == value[1] && Word(data, 6) == Word(value, 2) && data[8..12] == value[4..8]
  {
    var v := data[4..4 + |value|];
    assert v[1] == data[5] && v[2] == data[6] && v[3] == data[7];
    SliceOfSlice(data, 4, 4 + |value|, 4, 8);
  }

  lemma OtherFamily(data: Bytes, rest: Bytes)
    requires |data| >= 12 && Word(data, 0) == XOR_MAPPED_ADDRESS && Word(data, 2) >= 8 && data[5] != 1
    requires |data| == 4 + Pad4(Word(data, 2)) + |rest| && data[4 + Pad4(Word(data, 2))..] == rest
    ensures ScanXorMapped(data) == if |rest| >= 4 then ScanXorMapped(rest[4..]) else Nowhere
  {
    if |rest| >= 4 {
      assert data[4..][4 + Pad4(Word(data, 2))..] == rest[4..];
    }
  }

  /** Without such an attribute there is no address, and one cut short aborts the program. */
  lemma GatheringWithoutAddress(data: Bytes, attrs: seq<Attr>, tail: Bytes)
    requires Accepts(data) && 20 + Word(data, 2) <= |data| && data[20..20 + Word(data, 2)] == Encode(attrs) + tail
    requires AllValid(attrs) && forall i :: 0 <= i < |attrs| ==> !Telling(attrs[i])
    ensures |tail| < 4 ==> GatherDecode(data) == Nowhere
    ensures 4 <= |tail| < 8 && Word(tail, 0) == 0x0020 && Word(tail, 2) >= 8 ==> GatherDecode(data) == Panicked
  {
    GatherScans(data);
    SkipAll(attrs, tail);
    CutShort(tail);
  }

  lemma CutShort(tail: Bytes)
    ensures |tail| < 4 ==> ScanXorMapped(tail) == Nowhere
    ensures 4 <= |tail| < 8 && Word(tail, 0) == 0x0020 && Word(tail, 2) >= 8 ==> ScanXorMapped(tail) == Panicked
  {
  }

  // ---- The dispatcher ----

  /** What the dispatcher does with any datagram: it drops those of fewer than 20 or at least
      1500 bytes, delivers one that carries a pending number, replies to a proper request of type
      1 with the cookie, and drops all else. */
  lemma DispatchIff(mac: Mac, pending: set<Bytes>, d: Bytes, from: SocketAddr, ufrag: Bytes, pwd: Bytes)
    ensures Dispatch(mac, pending, d, from, ufrag, pwd) ==
            if |d| < 20 || |d| >= 1500 then Drop
            else if d[8..20] in pending then Deliver(d[8..20], d)
            else if d[..2] == [0, 1] && d[4..8] == [0x21, 0x12, 0xa4, 0x42]
                    && exists x, i: nat :: Proper(mac, d, x, i, ufrag, pwd)
            then Reply(Answer(mac, d[8..20], from, pwd))
            else Drop
  {
    if |d| >= 1500 {
      OversizeIsDropped(mac, pending, d, from, ufrag, pwd);
    } else if 20 <= |d| && d[8..20] !in pending {
      TypeBytes(d, BINDING_REQUEST);
      if d[..2] == [0, 1] && d[4..8] == COOKIE {
        RequestReachesHandler(mac, pending, d, d[8..20], from, ufrag, pwd);
        AnsweredIff(mac, d, d[8..20], from, ufrag, pwd);
      } else {
        OthersAreDropped(mac, pending, d, from, ufrag, pwd);
      }
    }
  }

  lemma OthersAreDropped(mac: Mac, pending: set<Bytes>, d: Bytes, from: SocketAddr, ufrag: Bytes, pwd: Bytes)
    requires 20 <= |d| < 1500 && d[8..20] !in pending && (Word(d, 0) != BINDING_REQUEST || d[4..8] != COOKIE)
    ensures Dispatch(mac, pending, d, from, ufrag, pwd) == Drop
  {
  }
}
