/** The agent's connectivity-check messages: the request it sends, the answer it gives to a
    peer's request, and how it reads an answer. The keyed hash (HMAC-SHA1) is an arbitrary
    function from key and message to twenty bytes. */
module StunBinding {
  import opened Words
  import opened Candidate
  import opened CheckList
  import opened StunBytes

  type Digest = d: Bytes | |d| == 20 witness [0, 0, 0, 0, 0, 0, 0, 0, 0, 0, 0, 0, 0, 0, 0, 0, 0, 0, 0, 0]

  type Mac = (Bytes, Bytes) -> Digest

  const COLON: u8 := 0x3a

  // ---- UTF-8 ----

  predicate Continuation(b: u8) {
    0x80 <= b <= 0xbf
  }

  /** Length of the well-formed character at the front, 0 if there is none. */
  function CharLength(s: Bytes): (n: nat)
    ensures n <= |s| && n <= 4
  {
    if |s| >= 1 && s[0] < 0x80 then 1
    else if |s| >= 2 && 0xc2 <= s[0] <= 0xdf && Continuation(s[1]) then 2
    else if |s| >= 3 && 0xe0 <= s[0] <= 0xef && Continuation(s[1]) && Continuation(s[2])
            && (s[0] == 0xe0 ==> s[1] >= 0xa0) && (s[0] == 0xed ==> s[1] <= 0x9f) then 3
    else if |s| >= 4 && 0xf0 <= s[0] <= 0xf4 && Continuation(s[1]) && Continuation(s[2]) && Continuation(s[3])
            && (s[0] == 0xf0 ==> s[1] >= 0x90) && (s[0] == 0xf4 ==> s[1] <= 0x8f) then 4
    else 0
  }

  predicate Utf8(s: Bytes)
    decreases |s|
  {
    s == [] || (CharLength(s) > 0 && Utf8(s[CharLength(s)..]))
  }

  lemma CharLengthAtFront(a: Bytes, b: Bytes)
    requires CharLength(a) > 0
    ensures CharLength(a + b) == CharLength(a)
  {
  }

  lemma Utf8Tail(s: Bytes, n: nat)
    requires CharLength(s) == n > 0 && Utf8(s[n..])
    ensures Utf8(s)
  {
  }

  lemma {:induction false} Utf8Concat(a: Bytes, b: Bytes)
    requires Utf8(a) && Utf8(b)
    ensures Utf8(a + b)
    decreases |a|
  {
    if a == [] {
      assert a + b == b;
    } else {
      var n := CharLength(a);
      CharLengthAtFront(a, b);
      Utf8Concat(a[n..], b);
      assert (a + b)[n..] == a[n..] + b;
      Utf8Tail(a + b, n);
    }
  }

  /** The bytes before the first colon. */
  function Prefix(s: Bytes): (p: Bytes)
    ensures p <= s
    ensures forall i :: 0 <= i < |p| ==> p[i] != COLON
    ensures |p| < |s| ==> s[|p|] == COLON
  {
    if s == [] || s[0] == COLON then [] else [s[0]] + Prefix(s[1..])
  }

  // ---- The request ----

  function RequestAttrs(role: Role, username: Bytes, priority: u32, tieBreaker: Bytes): seq<Attr> {
    [ZeroPadded(USERNAME, username), ZeroPadded(PRIORITY, Put32(priority)),
     ZeroPadded(if role == Controlling then ICE_CONTROLLING else ICE_CONTROLLED, tieBreaker)]
  }

  /** Header and attributes with the length field already counting MESSAGE-INTEGRITY. */
  function Unsigned(kind: u16, txn: TxnId, attrs: seq<Attr>): Bytes {
    Header(kind, |Encode(attrs)| + 24, txn) + Encode(attrs)
  }

  function Signed(mac: Mac, key: Bytes, kind: u16, txn: TxnId, attrs: seq<Attr>): Bytes {
    var body := Unsigned(kind, txn, attrs);
    body + Put16(MESSAGE_INTEGRITY) + Put16(20) + mac(key, body)
  }

  function UsernameFor(remoteUfrag: Bytes, localUfrag: Bytes): Bytes {
    remoteUfrag + [COLON] + localUfrag
  }

  function Request(mac: Mac, role: Role, remoteUfrag: Bytes, remotePwd: Bytes, localUfrag: Bytes,
                   priority: u32, tieBreaker: Bytes, txn: TxnId): Bytes {
    Signed(mac, remotePwd, BINDING_REQUEST, txn,
           RequestAttrs(role, UsernameFor(remoteUfrag, localUfrag), priority, tieBreaker))
  }

  lemma PaddingLength(n: nat)
    ensures (4 - n % 4) % 4 == Pad4(n) - n
  {
  }

  /** Appends an attribute and its zero padding. */
  method PutAttr(buf: Bytes, kind: u16, value: Bytes) returns (out: Bytes)
    ensures out == buf + EncodeAttr(ZeroPadded(kind, value))
  {
    var attr := Put16(kind) + Put16(|value|) + value;
    var padding := (4 - |value| % 4) % 4;
    PaddingLength(|value|);
    for i := 0 to padding
      invariant attr == Put16(kind) + Put16(|value|) + value + Zeros(i)
    {
      assert Zeros(i + 1) == Zeros(i) + [0];
      attr := attr + [0];
    }
    out := buf + attr;
  }

  /** Overwrites the length field, hashes, and appends MESSAGE-INTEGRITY. */
  method AddIntegrity(mac: Mac, key: Bytes, unsigned: Bytes, ghost kind: u16, ghost txn: TxnId, ghost attrs: seq<Attr>)
    returns (msg: Bytes)
    requires unsigned == Header(kind, |Encode(attrs)|, txn) + Encode(attrs)
    ensures msg == Signed(mac, key, kind, txn, attrs)
  {
    var newLen := |unsigned| - 20 + 24;
    msg := unsigned[2 := newLen / 256 % 256][3 := newLen % 256];
    assert msg == Unsigned(kind, txn, attrs);
    var integrity := mac(key, msg);
    msg := msg + Put16(MESSAGE_INTEGRITY) + Put16(20) + integrity;
  }

  method BuildRequest(mac: Mac, role: Role, remoteUfrag: Bytes, remotePwd: Bytes, localUfrag: Bytes,
                      priority: u32, tieBreaker: Bytes, txn: TxnId) returns (msg: Bytes)
    ensures msg == Request(mac, role, remoteUfrag, remotePwd, localUfrag, priority, tieBreaker, txn)
  {
    var username := remoteUfrag + [COLON] + localUfrag;
    var attrs := BuildRequestAttrs(role, username, priority, tieBreaker);
    msg := Put16(BINDING_REQUEST) + Put16(|attrs|) + COOKIE + txn + attrs;
    msg := AddIntegrity(mac, remotePwd, msg, BINDING_REQUEST, txn, RequestAttrs(role, username, priority, tieBreaker));
  }

  method BuildRequestAttrs(role: Role, username: Bytes, priority: u32, tieBreaker: Bytes) returns (attrs: Bytes)
    ensures attrs == Encode(RequestAttrs(role, username, priority, tieBreaker))
  {
    ghost var list := RequestAttrs(role, username, priority, tieBreaker);
    attrs := PutAttr([], USERNAME, username);
    assert attrs == EncodeAttr(list[0]);
    attrs := PutAttr(attrs, PRIORITY, Put32(priority));
    match role {
      case Controlling => attrs := PutAttr(attrs, ICE_CONTROLLING, tieBreaker);
      case Controlled => attrs := PutAttr(attrs, ICE_CONTROLLED, tieBreaker);
    }
    EncodeThree(list[0], list[1], list[2]);
  }

  lemma EncodeThree(a: Attr, b: Attr, c: Attr)
    ensures Encode([a, b, c]) == EncodeAttr(a) + EncodeAttr(b) + EncodeAttr(c)
  {
    assert [a, b, c][1..] == [b, c] && [b, c][1..] == [c] && [c][1..] == [];
    assert Encode([c]) == EncodeAttr(c) + Encode([]);
    assert Encode([b, c]) == EncodeAttr(b) + Encode([c]);
  }

  // ---- Reading a request ----

  datatype Walked = Refused | AtIntegrity(username: Option<Bytes>, offset: nat)

  /** Walks the attributes in [off, end) up to the first MESSAGE-INTEGRITY. */
  function Walk(request: Bytes, off: nat, end: nat, username: Option<Bytes>): (w: Walked)
    requires end <= |request|
    ensures w.AtIntegrity? ==> off <= w.offset && w.offset + 24 <= end
    decreases end - off
  {
    if off + 4 > end then Refused
    else
      var kind, n := Word(request, off), Word(request, off + 2);
      if off + 4 + n > end then Refused
      else if kind == MESSAGE_INTEGRITY then (if n == 20 then AtIntegrity(username, off) else Refused)
      else Walk(request, off + 4 + Pad4(n), end,
                if kind == USERNAME then Some(request[off + 4..off + 4 + n]) else username)
  }

  /** The bytes the sender hashed: all before MESSAGE-INTEGRITY, with the length ending there. */
  function Covered(request: Bytes, offset: nat): Bytes
    requires HEADER <= offset <= |request|
  {
    request[..2] + Put16(offset - 20 + 24) + request[4..offset]
  }

  /** Both checks on a request whose attributes have been located. */
  predicate Authentic(mac: Mac, request: Bytes, w: Walked, ufrag: Bytes, pwd: Bytes)
    requires w.AtIntegrity? ==> HEADER <= w.offset && w.offset + 24 <= |request|
  {
    && w.AtIntegrity? && w.username.Some?
    && mac(pwd, Covered(request, w.offset)) == request[w.offset + 4..w.offset + 24]
    && Utf8(w.username.value) && Prefix(w.username.value) == ufrag
  }

  function LocateIntegrity(request: Bytes): (w: Walked)
    ensures w.AtIntegrity? ==> |request| >= HEADER
    ensures w.AtIntegrity? ==> HEADER <= w.offset && w.offset + 24 <= HEADER + Word(request, 2) <= |request|
  {
    if |request| < HEADER || |request| < HEADER + Word(request, 2) then Refused
    else Walk(request, HEADER, HEADER + Word(request, 2), None)
  }

  /** The masked source address. */
  function XorAddress(from: SocketAddr, txn: TxnId): Bytes {
    [0, if from.Addr4? then 1 else 2] + Put16(Xor16(from.Port(), COOKIE_HIGH)) +
    match from
    case Addr4(ip, _) => XorBytes(ip, COOKIE)
    case Addr6(ip, _, _, _) => XorBytes(ip, COOKIE + txn)
  }

  function Answer(mac: Mac, txn: TxnId, from: SocketAddr, pwd: Bytes): Bytes {
    Signed(mac, pwd, BINDING_RESPONSE, txn, [ZeroPadded(XOR_MAPPED_ADDRESS, XorAddress(from, txn))])
  }

  function BindingResponse(mac: Mac, request: Bytes, txn: TxnId, from: SocketAddr, ufrag: Bytes,
                           pwd: Bytes): Option<Bytes> {
    if Authentic(mac, request, LocateIntegrity(request), ufrag, pwd) then Some(Answer(mac, txn, from, pwd)) else None
  }

  /** The attribute walk of the request handler. */
  method FindIntegrity(request: Bytes) returns (w: Walked)
    ensures w == LocateIntegrity(request)
  {
    if |request| < HEADER { return Refused; }
    var total := Word(request, 2);
    if |request| < HEADER + total { return Refused; }
    var username: Option<Bytes> := None;
    var off, end := HEADER, HEADER + total;
    while off + 4 <= end
      invariant HEADER <= off
      invariant Walk(request, off, end, username) == LocateIntegrity(request)
      decreases end - off
    {
      var kind, n := Word(request, off), Word(request, off + 2);
      var start := off + 4;
      if start + n > end { return Refused; }
      if kind == USERNAME {
        username := Some(request[start..start + n]);
      } else if kind == MESSAGE_INTEGRITY {
        if n != 20 { return Refused; }
        return AtIntegrity(username, off);
      }
      off := start + Pad4(n);
    }
    return Refused;
  }

  method VerifyRequest(mac: Mac, request: Bytes, w: Walked, ufrag: Bytes, pwd: Bytes) returns (ok: bool)
    requires w.AtIntegrity? ==> HEADER <= w.offset && w.offset + 24 <= |request|
    ensures ok == Authentic(mac, request, w, ufrag, pwd)
  {
    if w.Refused? || w.username.None? { return false; }
    var m := w.offset;
    var signed := request[..m];
    var newLen := m - 20 + 24;
    signed := signed[2 := newLen / 256 % 256][3 := newLen % 256];
    assert signed == Covered(request, m);
    if mac(pwd, signed) != request[m + 4..m + 24] { return false; }
    if !Utf8(w.username.value) { return false; }
    return Prefix(w.username.value) == ufrag;
  }

  method BuildBindingResponse(mac: Mac, request: Bytes, txn: TxnId, from: SocketAddr, ufrag: Bytes, pwd: Bytes)
    returns (response: Option<Bytes>)
    ensures response == BindingResponse(mac, request, txn, from, ufrag, pwd)
  {
    var w := FindIntegrity(request);
    var ok := VerifyRequest(mac, request, w, ufrag, pwd);
    if !ok { return None; }
    var msg := BuildAnswer(mac, txn, from, pwd);
    return Some(msg);
  }

  method BuildAnswer(mac: Mac, txn: TxnId, from: SocketAddr, pwd: Bytes) returns (msg: Bytes)
    ensures msg == Answer(mac, txn, from, pwd)
  {
    var attrs := PutAttr([], XOR_MAPPED_ADDRESS, XorAddress(from, txn));
    ghost var list := [ZeroPadded(XOR_MAPPED_ADDRESS, XorAddress(from, txn))];
    EncodeOne(list[0]);
    msg := Put16(BINDING_RESPONSE) + Put16(|attrs|) + COOKIE + txn + attrs;
    msg := AddIntegrity(mac, pwd, msg, BINDING_RESPONSE, txn, list);
  }

  lemma EncodeOne(a: Attr)
    ensures Encode([a]) == EncodeAttr(a)
  {
  }

  /** The sender's test of an answer. */
  predicate Accepts(response: Bytes) {
    |response| >= HEADER && Word(response, 0) == BINDING_RESPONSE && response[4..8] == COOKIE
  }

  // ---- Everything after MESSAGE-INTEGRITY is ignored ----

  ghost predicate AgreeOn(a: Bytes, b: Bytes, from: nat, to: nat) {
    to <= |a| && to <= |b| && forall k :: from <= k < to ==> a[k] == b[k]
  }

  lemma {:induction false} WalkAgrees(a: Bytes, b: Bytes, off: nat, endA: nat, endB: nat, username: Option<Bytes>)
    requires endA <= |a| && endB <= |b|
    requires Walk(a, off, endA, username).AtIntegrity?
    requires Walk(a, off, endA, username).offset + 24 <= endB
    requires AgreeOn(a, b, off, Walk(a, off, endA, username).offset + 24)
    ensures Walk(b, off, endB, username) == Walk(a, off, endA, username)
    decreases endA - off
  {
    var kind, n := Word(a, off), Word(a, off + 2);
    var m := Walk(a, off, endA, username).offset;
    if kind == MESSAGE_INTEGRITY {
      SameAttribute(a, b, off, 20);
    } else {
      WalkStep(a, off, endA, username);
      assert off + 4 + Pad4(n) <= m;
      SameAttribute(a, b, off, n);
      WalkAgrees(a, b, off + 4 + Pad4(n), endA, endB,
                 if kind == USERNAME then Some(a[off + 4..off + 4 + n]) else username);
      WalkStep(b, off, endB, username);
    }
  }

  lemma SameAttribute(a: Bytes, b: Bytes, off: nat, n: nat)
    requires AgreeOn(a, b, off, off + 4 + n)
    ensures Word(a, off) == Word(b, off) && Word(a, off + 2) == Word(b, off + 2)
    ensures a[off + 4..off + 4 + n] == b[off + 4..off + 4 + n]
  {
  }

  /** One attribute further on. */
  lemma WalkStep(request: Bytes, off: nat, end: nat, username: Option<Bytes>)
    requires end <= |request| && off + 4 <= end && off + 4 + Word(request, off + 2) <= end
    requires Word(request, off) != MESSAGE_INTEGRITY
    ensures var kind, n := Word(request, off), Word(request, off + 2);
            Walk(request, off, end, username) ==
            Walk(request, off + 4 + Pad4(n), end,
                 if kind == USERNAME then Some(request[off + 4..off + 4 + n]) else username)
  {
  }

  /** Two requests that agree up to and including the first MESSAGE-INTEGRITY, apart from the
      length field, are answered alike as long as both declared lengths reach it. */
  lemma TailIsIgnored(mac: Mac, a: Bytes, b: Bytes, txn: TxnId, from: SocketAddr, ufrag: Bytes, pwd: Bytes)
    requires LocateIntegrity(a).AtIntegrity?
    requires var m := LocateIntegrity(a).offset;
             && |b| >= HEADER && m + 24 <= HEADER + Word(b, 2) <= |b|
             && AgreeOn(a, b, 0, 2) && AgreeOn(a, b, 4, m + 24)
    ensures BindingResponse(mac, a, txn, from, ufrag, pwd) == BindingResponse(mac, b, txn, from, ufrag, pwd)
  {
    LocateAgrees(a, b);
    AuthenticAgrees(mac, a, b, LocateIntegrity(a), ufrag, pwd);
  }

  lemma LocateAgrees(a: Bytes, b: Bytes)
    requires LocateIntegrity(a).AtIntegrity?
    requires var m := LocateIntegrity(a).offset;
             |b| >= HEADER && m + 24 <= HEADER + Word(b, 2) <= |b| && AgreeOn(a, b, 4, m + 24)
    ensures LocateIntegrity(b) == LocateIntegrity(a)
  {
    WalkAgrees(a, b, HEADER, HEADER + Word(a, 2), HEADER + Word(b, 2), None);
  }

  lemma AuthenticAgrees(mac: Mac, a: Bytes, b: Bytes, w: Walked, ufrag: Bytes, pwd: Bytes)
    requires w.AtIntegrity? && HEADER <= w.offset && w.offset + 24 <= |a| && w.offset + 24 <= |b|
    requires AgreeOn(a, b, 0, 2) && AgreeOn(a, b, 4, w.offset + 24)
    ensures Authentic(mac, a, w, ufrag, pwd) == Authentic(mac, b, w, ufrag, pwd)
  {
    CoveredAgrees(a, b, w.offset);
  }

  lemma CoveredAgrees(a: Bytes, b: Bytes, m: nat)
    requires HEADER <= m && AgreeOn(a, b, 0, 2) && AgreeOn(a, b, 4, m + 24)
    ensures Covered(a, m) == Covered(b, m)
    ensures a[m + 4..m + 24] == b[m + 4..m + 24]
  {
  }

  /** The length recomputed for the hash always fits its field. */
  lemma LengthNeverTruncates(request: Bytes)
    requires LocateIntegrity(request).AtIntegrity?
    ensures var m := LocateIntegrity(request).offset;
            m - 20 + 24 < 0x1_0000 && Word(Covered(request, m), 2) == m - 20 + 24
  {
    CoveredLength(request, LocateIntegrity(request).offset);
  }

  lemma CoveredLength(request: Bytes, offset: nat)
    requires HEADER <= offset <= |request| && offset + 4 < 0x1_0000
    ensures Word(Covered(request, offset), 2) == offset + 4
  {
  }
}
