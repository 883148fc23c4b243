/** A connectivity check end to end: the request one agent builds, through the peer's socket
    dispatcher and request handler, to the answer and both ways the program decodes it. */
module StunExchange {
  import opened Words
  import opened Candidate
  import opened CheckList
  import opened StunBytes
  import opened StunParse
  import opened StunBinding

  // ---- The dispatcher's treatment of one datagram ----

  const RECEIVE_BUFFER: nat := 1500

  datatype Action = Drop | Deliver(txn: Bytes, data: Bytes) | Reply(response: Bytes)

  function Received(datagram: Bytes): Bytes {
    if |datagram| <= RECEIVE_BUFFER then datagram else datagram[..RECEIVE_BUFFER]
  }

  function Dispatch(mac: Mac, pending: set<Bytes>, datagram: Bytes, from: SocketAddr, ufrag: Bytes,
                    pwd: Bytes): Action {
    var data := Received(datagram);
    if |data| == RECEIVE_BUFFER || |data| < HEADER then Drop
    else if data[8..20] in pending then Deliver(data[8..20], data)
    else if data[4..8] == COOKIE && Word(data, 0) == BINDING_REQUEST then
      match BindingResponse(mac, data, data[8..20], from, ufrag, pwd)
      case Some(response) => Reply(response)
      case None => Drop
    else Drop
  }

  /** One turn of the dispatcher loop. */
  method HandleDatagram(mac: Mac, pending: set<Bytes>, datagram: Bytes, from: SocketAddr, ufrag: Bytes, pwd: Bytes)
    returns (action: Action)
    ensures action == Dispatch(mac, pending, datagram, from, ufrag, pwd)
  {
    var data := Received(datagram);
    if |data| == RECEIVE_BUFFER { return Drop; }
    if |data| < HEADER { return Drop; }
    var kind, cookie, txn := Word(data, 0), data[4..8], data[8..20];
    if txn in pending { return Deliver(txn, data); }
    if cookie == COOKIE && kind == BINDING_REQUEST {
      var response := BuildBindingResponse(mac, data, txn, from, ufrag, pwd);
      if response.Some? { return Reply(response.value); }
    }
    return Drop;
  }

  // ---- The agent's own decoder, used when gathering ----

  datatype Located = At(address: SocketAddr) | NotResponse | Nowhere | Panicked

  /** Looks for the first IPv4 XOR-MAPPED-ADDRESS. Reading past the end aborts the program. */
  function ScanXorMapped(attrs: Bytes): Located
    decreases |attrs|
  {
    if |attrs| < 4 then Nowhere
    else
      var n := Word(attrs, 2);
      var rest := attrs[4..];
      if Word(attrs, 0) == XOR_MAPPED_ADDRESS && n >= 8 then
        if |rest| < 4 then Panicked
        else if rest[1] == 1 then
          if |rest| < 8 then Panicked
          else At(Addr4(XorBytes(rest[4..8], COOKIE), Xor16(Word(rest, 2), COOKIE_HIGH)))
        else if |rest| - 4 >= Pad4(n) then ScanXorMapped(rest[4 + Pad4(n)..])
        else Nowhere
      else if |rest| >= Pad4(n) then ScanXorMapped(rest[Pad4(n)..])
      else Nowhere
  }

  function GatherDecode(data: Bytes): Located {
    if |data| < HEADER || Word(data, 0) != BINDING_RESPONSE || data[4..8] != COOKIE then NotResponse
    else ScanXorMapped(data[HEADER..HEADER + Min(Word(data, 2), |data| - HEADER)])
  }

  method DecodeGathered(data: Bytes) returns (r: Located)
    ensures r == GatherDecode(data)
  {
    if |data| < HEADER { return NotResponse; }
    if Word(data, 0) != BINDING_RESPONSE { return NotResponse; }
    if data[4..8] != COOKIE { return NotResponse; }
    var attrs := data[HEADER..HEADER + Min(Word(data, 2), |data| - HEADER)];
    while |attrs| >= 4
      invariant ScanXorMapped(attrs) == GatherDecode(data)
      decreases |attrs|
    {
      var kind, n := Word(attrs, 0), Word(attrs, 2);
      attrs := attrs[4..];
      if kind == XOR_MAPPED_ADDRESS && n >= 8 {
        if |attrs| < 4 { return Panicked; }
        var family, port := attrs[1], Xor16(Word(attrs, 2), COOKIE_HIGH);
        ghost var whole := attrs;
        attrs := attrs[4..];
        if family == 1 {
          if |attrs| < 4 { return Panicked; }
          assert attrs[..4] == whole[4..8];
          return At(Addr4(XorBytes(attrs[..4], COOKIE), port));
        }
        assert |attrs| >= Pad4(n) ==> attrs[Pad4(n)..] == whole[4 + Pad4(n)..];
      }
      if |attrs| >= Pad4(n) {
        attrs := attrs[Pad4(n)..];
      } else {
        break;
      }
    }
    return Nowhere;
  }

  // ---- Walking an encoded request ----

  function LastUsername(attrs: seq<Attr>, username: Option<Bytes>): Option<Bytes>
    decreases |attrs|
  {
    if attrs == [] then username
    else LastUsername(attrs[1..], if attrs[0].kind == USERNAME then Some(attrs[0].value) else username)
  }

  lemma ReadAt(data: Bytes, pre: Bytes, a: Attr, rest: Bytes)
    requires a.Valid() && data == pre + EncodeAttr(a) + rest
    ensures var off, n := |pre|, |a.value|;
            && |data| == off + 4 + Pad4(n) + |rest|
            && Word(data, off) == a.kind && Word(data, off + 2) == n
            && data[off + 4..off + 4 + n] == a.value
  {
  }

  /** The attributes stand in the data from `off` on, one after the other. */
  ghost predicate Reads(data: Bytes, off: nat, attrs: seq<Attr>)
    decreases |attrs|
  {
    attrs == [] ||
    (var n := |attrs[0].value|;
     && off + 4 + Pad4(n) <= |data|
     && Word(data, off) == attrs[0].kind && Word(data, off + 2) == n
     && data[off + 4..off + 4 + n] == attrs[0].value
     && Reads(data, off + 4 + Pad4(n), attrs[1..]))
  }

  /** Where the attributes end. */
  ghost function EndOf(off: nat, attrs: seq<Attr>): (e: nat)
    ensures e >= off
    decreases |attrs|
  {
    if attrs == [] then off else EndOf(off + 4 + Pad4(|attrs[0].value|), attrs[1..])
  }

  lemma Regroup(a: Bytes, b: Bytes, c: Bytes, d: Bytes)
    ensures a + (b + c) + d == a + b + (c + d)
    ensures a + (b + c) + d == (a + b) + c + d
  {
  }

  lemma FirstAttribute(data: Bytes, pre: Bytes, attrs: seq<Attr>, post: Bytes)
    requires data == pre + Encode(attrs) + post && attrs != []
    ensures data == pre + EncodeAttr(attrs[0]) + (Encode(attrs[1..]) + post)
    ensures data == (pre + EncodeAttr(attrs[0])) + Encode(attrs[1..]) + post
    ensures |pre| + |Encode(attrs)| == |pre + EncodeAttr(attrs[0])| + |Encode(attrs[1..])|
  {
    Regroup(pre, EncodeAttr(attrs[0]), Encode(attrs[1..]), post);
  }

  lemma {:induction false} EncodedReads(data: Bytes, pre: Bytes, attrs: seq<Attr>, post: Bytes)
    requires data == pre + Encode(attrs) + post && AllValid(attrs)
    ensures Reads(data, |pre|, attrs) && EndOf(|pre|, attrs) == |pre| + |Encode(attrs)|
    decreases |attrs|
  {
    if attrs != [] {
      FirstAttribute(data, pre, attrs, post);
      ReadAt(data, pre, attrs[0], Encode(attrs[1..]) + post);
      EncodedReads(data, pre + EncodeAttr(attrs[0]), attrs[1..], post);
    }
  }

  lemma {:induction false} WalkEncoded(data: Bytes, off: nat, attrs: seq<Attr>, end: nat, username: Option<Bytes>)
    requires Reads(data, off, attrs) && EndOf(off, attrs) <= end <= |data|
    requires forall i :: 0 <= i < |attrs| ==> attrs[i].kind != MESSAGE_INTEGRITY
    ensures Walk(data, off, end, username) == Walk(data, EndOf(off, attrs), end, LastUsername(attrs, username))
    decreases |attrs|
  {
    if attrs != [] {
      var a := attrs[0];
      WalkStep(data, off, end, username);
      WalkEncoded(data, off + 4 + Pad4(|a.value|), attrs[1..], end,
                  if a.kind == USERNAME then Some(a.value) else username);
    }
  }

  /** Where the reader finds what Signed wrote. */
  lemma SignedLayout(mac: Mac, key: Bytes, kind: u16, txn: TxnId, attrs: seq<Attr>)
    requires |Encode(attrs)| + 24 < 0x1_0000
    ensures var msg, m := Signed(mac, key, kind, txn, attrs), HEADER + |Encode(attrs)|;
            && |msg| == m + 24
            && Word(msg, 0) == kind && Word(msg, 2) == |msg| - HEADER
            && msg[4..8] == COOKIE && msg[8..20] == txn
            && Word(msg, m) == MESSAGE_INTEGRITY && Word(msg, m + 2) == 20
            && Covered(msg, m) == Unsigned(kind, txn, attrs)
            && msg[m + 4..m + 24] == mac(key, Covered(msg, m))
  {
    var unsigned := Unsigned(kind, txn, attrs);
    var digest := mac(key, unsigned);
    var msg := Signed(mac, key, kind, txn, attrs);
    Assembled(unsigned, Put16(MESSAGE_INTEGRITY), Put16(20), digest);
    SignedTail(unsigned, Put16(MESSAGE_INTEGRITY) + Put16(20) + digest, digest);
    UnsignedFields(kind, txn, attrs, Put16(MESSAGE_INTEGRITY) + Put16(20) + digest);
  }

  lemma Assembled(a: Bytes, b: Bytes, c: Bytes, d: Bytes)
    ensures a + b + c + d == a + (b + c + d)
  {
  }

  lemma UnsignedFields(kind: u16, txn: TxnId, attrs: seq<Attr>, tail: Bytes)
    requires |Encode(attrs)| + 24 < 0x1_0000
    ensures var msg := Unsigned(kind, txn, attrs) + tail;
            && Word(msg, 0) == kind && Word(msg, 2) == |Encode(attrs)| + 24
            && msg[4..8] == COOKIE && msg[8..20] == txn
            && Covered(msg, HEADER + |Encode(attrs)|) == Unsigned(kind, txn, attrs)
  {
    var head, body := Header(kind, |Encode(attrs)| + 24, txn), Encode(attrs);
    HeaderFields(kind, |body| + 24, txn, body + tail);
    Assembled(head, body, tail, []);
    assert head + body + tail == head + (body + tail);
    SignedCovers(head + body + tail, kind, txn, attrs, tail);
  }

  lemma SignedTail(unsigned: Bytes, tail: Bytes, digest: Digest)
    requires tail == Put16(MESSAGE_INTEGRITY) + Put16(20) + digest
    ensures var msg, m := unsigned + tail, |unsigned|;
            Word(msg, m) == MESSAGE_INTEGRITY && Word(msg, m + 2) == 20 && msg[m + 4..m + 24] == digest
  {
  }

  lemma SignedCovers(msg: Bytes, kind: u16, txn: TxnId, attrs: seq<Attr>, tail: Bytes)
    requires |Encode(attrs)| + 24 < 0x1_0000 && msg == Unsigned(kind, txn, attrs) + tail
    ensures Covered(msg, HEADER + |Encode(attrs)|) == Unsigned(kind, txn, attrs)
  {
  }

  /** The reader stops at the MESSAGE-INTEGRITY that was appended last. */
  lemma SignedIsLocated(mac: Mac, key: Bytes, kind: u16, txn: TxnId, attrs: seq<Attr>)
    requires |Encode(attrs)| + 24 < 0x1_0000 && AllValid(attrs)
    requires forall i :: 0 <= i < |attrs| ==> attrs[i].kind != MESSAGE_INTEGRITY
    ensures LocateIntegrity(Signed(mac, key, kind, txn, attrs)) ==
            AtIntegrity(LastUsername(attrs, None), HEADER + |Encode(attrs)|)
  {
    var head, body := Header(kind, |Encode(attrs)| + 24, txn), Encode(attrs);
    var digest := mac(key, Unsigned(kind, txn, attrs));
    var tail := Put16(MESSAGE_INTEGRITY) + Put16(20) + digest;
    Assembled(head + body, Put16(MESSAGE_INTEGRITY), Put16(20), digest);
    SignedLayout(mac, key, kind, txn, attrs);
    LocatedAtEnd(head + body + tail, head, attrs, tail);
  }

  lemma LocatedAtEnd(msg: Bytes, head: Bytes, attrs: seq<Attr>, tail: Bytes)
    requires msg == head + Encode(attrs) + tail && |head| == HEADER && |tail| == 24 && AllValid(attrs)
    requires forall i :: 0 <= i < |attrs| ==> attrs[i].kind != MESSAGE_INTEGRITY
    requires Word(msg, 2) == |msg| - HEADER
    requires Word(msg, HEADER + |Encode(attrs)|) == MESSAGE_INTEGRITY && Word(msg, HEADER + |Encode(attrs)| + 2) == 20
    ensures LocateIntegrity(msg) == AtIntegrity(LastUsername(attrs, None), HEADER + |Encode(attrs)|)
  {
    EncodedReads(msg, head, attrs, tail);
    WalkEncoded(msg, HEADER, attrs, |msg|, None);
  }

  // ---- The request is answered ----

  ghost predicate ColonFree(s: Bytes) {
    forall i :: 0 <= i < |s| ==> s[i] != COLON
  }

  /** The receiver gets its own name back from the username exactly when it has no colon. */
  lemma PrefixIsReceiver(receiver: Bytes, sender: Bytes)
    ensures Prefix(UsernameFor(receiver, sender)) == receiver <==> ColonFree(receiver)
  {
    var s := UsernameFor(receiver, sender);
    var p := Prefix(s);
    assert s[|receiver|] == COLON;
    if ColonFree(receiver) {
      assert |p| < |s| && s[|p|] == COLON;
      assert forall i :: 0 <= i < |receiver| ==> s[i] == receiver[i];
      assert |p| == |receiver|;
      assert p == s[..|receiver|] == receiver;
    }
  }

  lemma RequestShape(role: Role, username: Bytes, priority: u32, tieBreaker: Bytes)
    requires |tieBreaker| == 8
    ensures var attrs := RequestAttrs(role, username, priority, tieBreaker);
            && |Encode(attrs)| == 24 + Pad4(|username|)
            && (|username| < 0x1_0000 ==> AllValid(attrs))
            && LastUsername(attrs, None) == Some(username)
            && forall i :: 0 <= i < |attrs| ==> attrs[i].kind != MESSAGE_INTEGRITY
  {
    var attrs := RequestAttrs(role, username, priority, tieBreaker);
    EncodeThree(attrs[0], attrs[1], attrs[2]);
    assert attrs[1..] == [attrs[1], attrs[2]] && attrs[1..][1..] == [attrs[2]] && attrs[1..][1..][1..] == [];
    assert LastUsername(attrs[1..][1..], Some(username)) == Some(username);
    assert LastUsername(attrs[1..], Some(username)) == Some(username);
  }

  lemma UsernameIsUtf8(receiver: Bytes, sender: Bytes)
    requires Utf8(receiver) && Utf8(sender)
    ensures Utf8(UsernameFor(receiver, sender))
  {
    assert Utf8([COLON]) by {
      assert CharLength([COLON]) == 1 && [COLON][1..] == [];
    }
    Utf8Concat(receiver, [COLON]);
    Utf8Concat(receiver + [COLON], sender);
  }

  /** The handler answers the request built with its own name and password exactly when that
      name has no colon, for every role, priority, tie-breaker and transaction. */
  lemma RequestIsAnswered(mac: Mac, role: Role, receiver: Bytes, pwd: Bytes, sender: Bytes, priority: u32,
                          tieBreaker: Bytes, txn: TxnId, from: SocketAddr)
    requires Utf8(receiver) && Utf8(sender) && |tieBreaker| == 8
    requires |UsernameFor(receiver, sender)| <= 65484
    ensures BindingResponse(mac, Request(mac, role, receiver, pwd, sender, priority, tieBreaker, txn),
                            txn, from, receiver, pwd)
            == if ColonFree(receiver) then Some(Answer(mac, txn, from, pwd)) else None
  {
    var username := UsernameFor(receiver, sender);
    var attrs := RequestAttrs(role, username, priority, tieBreaker);
    RequestShape(role, username, priority, tieBreaker);
    UsernameIsUtf8(receiver, sender);
    PrefixIsReceiver(receiver, sender);
    SignedIsAnswered(mac, attrs, username, txn, from, receiver, pwd);
  }

  lemma SignedIsAnswered(mac: Mac, attrs: seq<Attr>, username: Bytes, txn: TxnId, from: SocketAddr, ufrag: Bytes,
                         pwd: Bytes)
    requires |Encode(attrs)| + 24 < 0x1_0000 && AllValid(attrs)
    requires forall i :: 0 <= i < |attrs| ==> attrs[i].kind != MESSAGE_INTEGRITY
    requires LastUsername(attrs, None) == Some(username) && Utf8(username)
    ensures BindingResponse(mac, Signed(mac, pwd, BINDING_REQUEST, txn, attrs), txn, from, ufrag, pwd) ==
            if Prefix(username) == ufrag then Some(Answer(mac, txn, from, pwd)) else None
  {
    SignedLayout(mac, pwd, BINDING_REQUEST, txn, attrs);
    SignedIsLocated(mac, pwd, BINDING_REQUEST, txn, attrs);
    LocatedIsAnswered(mac, Signed(mac, pwd, BINDING_REQUEST, txn, attrs), username, HEADER + |Encode(attrs)|,
                      txn, from, ufrag, pwd);
  }

  lemma LocatedIsAnswered(mac: Mac, request: Bytes, username: Bytes, m: nat, txn: TxnId, from: SocketAddr,
                          ufrag: Bytes, pwd: Bytes)
    requires HEADER <= m && m + 24 <= |request| && LocateIntegrity(request) == AtIntegrity(Some(username), m)
    requires mac(pwd, Covered(request, m)) == request[m + 4..m + 24]
    requires Utf8(username)
    ensures BindingResponse(mac, request, txn, from, ufrag, pwd) ==
            if Prefix(username) == ufrag then Some(Answer(mac, txn, from, pwd)) else None
  {
  }

  /** Through the socket: the peer replies exactly when its name has no colon and the two
      names together have at most 1427 bytes; otherwise it stays silent. */
  lemma RequestIsDispatched(mac: Mac, pending: set<Bytes>, role: Role, receiver: Bytes, pwd: Bytes, sender: Bytes,
                            priority: u32, tieBreaker: Bytes, txn: TxnId, from: SocketAddr)
    requires Utf8(receiver) && Utf8(sender) && |tieBreaker| == 8 && txn !in pending
    ensures Dispatch(mac, pending, Request(mac, role, receiver, pwd, sender, priority, tieBreaker, txn),
                     from, receiver, pwd)
            == if ColonFree(receiver) && |receiver| + |sender| <= 1427 then Reply(Answer(mac, txn, from, pwd)) else Drop
  {
    var username := UsernameFor(receiver, sender);
    var attrs := RequestAttrs(role, username, priority, tieBreaker);
    var request := Signed(mac, pwd, BINDING_REQUEST, txn, attrs);
    RequestShape(role, username, priority, tieBreaker);
    SignedLength(mac, pwd, BINDING_REQUEST, txn, attrs);
    PadAround(|username|);
    if |username| <= 1428 {
      SignedLayout(mac, pwd, BINDING_REQUEST, txn, attrs);
      RequestIsAnswered(mac, role, receiver, pwd, sender, priority, tieBreaker, txn, from);
      RequestReachesHandler(mac, pending, request, txn, from, receiver, pwd);
    } else {
      OversizeIsDropped(mac, pending, request, from, receiver, pwd);
    }
  }

  lemma PadAround(n: nat)
    ensures if n <= 1428 then Pad4(n) <= 1428 else Pad4(n) >= 1432
  {
  }

  lemma SignedLength(mac: Mac, key: Bytes, kind: u16, txn: TxnId, attrs: seq<Attr>)
    ensures |Signed(mac, key, kind, txn, attrs)| == 44 + |Encode(attrs)|
  {
  }

  lemma RequestReachesHandler(mac: Mac, pending: set<Bytes>, data: Bytes, txn: TxnId, from: SocketAddr, ufrag: Bytes,
                              pwd: Bytes)
    requires HEADER <= |data| < RECEIVE_BUFFER && data[8..20] == txn && txn !in pending
    requires data[4..8] == COOKIE && Word(data, 0) == BINDING_REQUEST
    ensures Dispatch(mac, pending, data, from, ufrag, pwd) ==
            match BindingResponse(mac, data, txn, from, ufrag, pwd)
            case Some(response) => Reply(response)
            case None => Drop
  {
  }

  lemma OversizeIsDropped(mac: Mac, pending: set<Bytes>, data: Bytes, from: SocketAddr, ufrag: Bytes, pwd: Bytes)
    requires |data| >= RECEIVE_BUFFER
    ensures Dispatch(mac, pending, data, from, ufrag, pwd) == Drop
  {
  }

  // ---- The answer is exact, authentic, accepted and decoded ----

  function IntegrityAttr(digest: Digest): Attr {
    Attr(MESSAGE_INTEGRITY, digest, [])
  }

  /** A signed message is also a header with one more attribute. */
  lemma SignedAsAttributes(mac: Mac, key: Bytes, kind: u16, txn: TxnId, a: Attr)
    requires a.Valid()
    ensures var digest := mac(key, Unsigned(kind, txn, [a]));
            var list := [a, IntegrityAttr(digest)];
            && AllValid(list)
            && |Encode(list)| == |EncodeAttr(a)| + 24
            && Signed(mac, key, kind, txn, [a]) == Header(kind, |Encode(list)|, txn) + Encode(list) + []
  {
    var digest := mac(key, Unsigned(kind, txn, [a]));
    var i := IntegrityAttr(digest);
    var list := [a, i];
    EncodeOne(a);
    EncodeOne(i);
    assert list[1..] == [i];
    var head := Header(kind, |EncodeAttr(a)| + 24, txn);
    assert EncodeAttr(i) == Put16(MESSAGE_INTEGRITY) + Put16(20) + digest;
    Assembled(head + EncodeAttr(a), Put16(MESSAGE_INTEGRITY), Put16(20), digest);
    assert head + EncodeAttr(a) + EncodeAttr(i) == head + (EncodeAttr(a) + EncodeAttr(i)) + [];
  }

  lemma XorAddressSize(from: SocketAddr, txn: TxnId)
    ensures |XorAddress(from, txn)| == if from.Addr4? then 8 else 20
    ensures ZeroPadded(XOR_MAPPED_ADDRESS, XorAddress(from, txn)).Valid()
  {
  }

  /** The answer's fields, including a length that ends with the message. */
  lemma AnswerIsExact(mac: Mac, txn: TxnId, from: SocketAddr, pwd: Bytes)
    ensures var answer := Answer(mac, txn, from, pwd);
            && |answer| == (if from.Addr4? then 56 else 68)
            && Word(answer, 2) == |answer| - HEADER
            && answer[8..20] == txn
            && Accepts(answer)
            && LocateIntegrity(answer) == AtIntegrity(None, |answer| - 24)
            && mac(pwd, Covered(answer, |answer| - 24)) == answer[|answer| - 20..]
  {
    var attrs := [ZeroPadded(XOR_MAPPED_ADDRESS, XorAddress(from, txn))];
    XorAddressSize(from, txn);
    SignedOneIsExact(mac, pwd, txn, attrs[0]);
  }

  lemma SignedOneIsExact(mac: Mac, key: Bytes, txn: TxnId, a: Attr)
    requires a.Valid() && |a.value| <= 20 && a.kind == XOR_MAPPED_ADDRESS
    ensures var msg := Signed(mac, key, BINDING_RESPONSE, txn, [a]);
            && |msg| == 48 + Pad4(|a.value|)
            && Word(msg, 2) == |msg| - HEADER && msg[8..20] == txn && Accepts(msg)
            && LocateIntegrity(msg) == AtIntegrity(None, |msg| - 24)
            && mac(key, Covered(msg, |msg| - 24)) == msg[|msg| - 20..]
  {
    EncodeOne(a);
    SignedLayout(mac, key, BINDING_RESPONSE, txn, [a]);
    SignedIsLocated(mac, key, BINDING_RESPONSE, txn, [a]);
    assert [a][1..] == [] && LastUsername([], None) == None;
  }

  /** The client's parser reads the masked address back. */
  lemma AnswerParses(mac: Mac, txn: TxnId, from: SocketAddr, pwd: Bytes)
    ensures Response(Answer(mac, txn, from, pwd), txn) ==
            match ParseMapped(XorAddress(from, txn), true)
            case Some(a) => Ok(a)
            case None => Err(NoMappedAddress)
  {
    var a := ZeroPadded(XOR_MAPPED_ADDRESS, XorAddress(from, txn));
    var list := [a, IntegrityAttr(mac(pwd, Unsigned(BINDING_RESPONSE, txn, [a])))];
    XorAddressSize(from, txn);
    SignedAsAttributes(mac, pwd, BINDING_RESPONSE, txn, a);
    ResponseYieldsLast(list, txn, []);
    assert list[..1] == [a] && [a][..0] == [];
    assert LastOf([a], MAPPED_ADDRESS, false) == None;
  }

  lemma XorAddressParts(head: Bytes, port: u16, ip: Bytes)
    requires |head| == 2
    ensures var value := head + Put16(port) + ip;
            && value[0] == head[0] && value[1] == head[1] && Word(value, 2) == port && value[4..] == ip
  {
  }

  /** The parts of a masked address. */
  lemma XorAddressReads(from: SocketAddr, txn: TxnId)
    ensures var value := XorAddress(from, txn);
            && |value| == (if from.Addr4? then 8 else 20)
            && value[1] == (if from.Addr4? then 1 else 2)
            && Word(value, 2) == Xor16(from.Port(), COOKIE_HIGH)
            && value[4..] == match from
                             case Addr4(ip, _) => XorBytes(ip, COOKIE)
                             case Addr6(ip, _, _, _) => XorBytes(ip, COOKIE + txn)
  {
    XorAddressParts([0, if from.Addr4? then 1 else 2], Xor16(from.Port(), COOKIE_HIGH),
                    match from
                    case Addr4(ip, _) => XorBytes(ip, COOKIE)
                    case Addr6(ip, _, _, _) => XorBytes(ip, COOKIE + txn));
  }

  lemma UnmaskPort(from: SocketAddr, txn: TxnId)
    ensures Xor16(Word(XorAddress(from, txn), 2), COOKIE_HIGH) == from.Port()
  {
    XorAddressReads(from, txn);
    XorTwice(0, 0, from.Port(), COOKIE_HIGH);
  }

  lemma Unmask4(from: SocketAddr, txn: TxnId)
    requires from.Addr4?
    ensures ParseMapped(XorAddress(from, txn), true) == Some(from)
  {
    UnmaskPort(from, txn);
    XorBytesTwice(from.ip4, COOKIE);
    XorAddressReads(from, txn);
    assert XorAddress(from, txn)[4..8] == XorAddress(from, txn)[4..];
  }

  /** Un-masking only the first four bytes restores the address only if the rest was masked
      with zeros. */
  lemma HalfUnmasked(ip: Bytes, txn: TxnId)
    requires |ip| == 16
    ensures var masked := XorBytes(ip, COOKIE + txn);
            XorBytes(masked[..4], COOKIE) + masked[4..] == ip <==> txn == Zeros(12)
  {
    var masked := XorBytes(ip, COOKIE + txn);
    assert masked[..4] == XorBytes(ip[..4], COOKIE);
    XorBytesTwice(ip[..4], COOKIE);
    assert ip == ip[..4] + ip[4..];
    forall i | 0 <= i < 12 ensures masked[4..][i] == ip[4..][i] <==> txn[i] == 0 {
      XorFixed(ip[4 + i], txn[i]);
    }
    assert masked[4..] == ip[4..] <==> txn == Zeros(12);
    assert (ip[..4] + masked[4..])[4..] == masked[4..];
  }

  /** An IPv6 source comes back intact only under the all-zero transaction. */
  lemma Unmask6Iff(from: SocketAddr, txn: TxnId)
    requires from.Addr6?
    ensures ParseMapped(XorAddress(from, txn), true) == Some(from) <==> from.Plain() && txn == Zeros(12)
  {
    UnmaskPort(from, txn);
    var data := XorAddress(from, txn);
    var masked := XorBytes(from.ip6, COOKIE + txn);
    XorAddressReads(from, txn);
    assert data[4..8] == masked[..4] && data[8..20] == masked[4..];
    HalfUnmasked(from.ip6, txn);
  }

  /** The gathering decoder finds an IPv4 source. */
  lemma AnswerIsGathered(mac: Mac, txn: TxnId, from: SocketAddr, pwd: Bytes)
    requires from.Addr4?
    ensures GatherDecode(Answer(mac, txn, from, pwd)) == At(from)
  {
    var answer := Answer(mac, txn, from, pwd);
    var a := ZeroPadded(XOR_MAPPED_ADDRESS, XorAddress(from, txn));
    XorAddressSize(from, txn);
    AnswerIsExact(mac, txn, from, pwd);
    SignedAsAttributes(mac, pwd, BINDING_RESPONSE, txn, a);
    var i := IntegrityAttr(mac(pwd, Unsigned(BINDING_RESPONSE, txn, [a])));
    assert [a, i][1..] == [i];
    ScanFirstXor(a, Encode([i]), from, txn);
    GatherReads(answer, BINDING_RESPONSE, txn, Encode([a, i]));
  }

  lemma GatherReads(data: Bytes, kind: u16, txn: TxnId, body: Bytes)
    requires Accepts(data) && |body| < 0x1_0000 && Word(data, 2) == |data| - HEADER
    requires data == Header(kind, |body|, txn) + body + []
    ensures GatherDecode(data) == ScanXorMapped(body)
  {
  }

  lemma ScanFirstXor(a: Attr, rest: Bytes, from: SocketAddr, txn: TxnId)
    requires from.Addr4? && a == ZeroPadded(XOR_MAPPED_ADDRESS, XorAddress(from, txn))
    ensures ScanXorMapped(EncodeAttr(a) + rest) == At(from)
  {
    var data, value := EncodeAttr(a) + rest, XorAddress(from, txn);
    XorAddressSize(from, txn);
    EncodedFront(a, rest);
    XorAddressReads(from, txn);
    FrontIsValue(data, value);
    ScanXorReads(data);
    XorBytesTwice(from.ip4, COOKIE);
    XorTwice(0, 0, from.port4, COOKIE_HIGH);
  }

  lemma FrontIsValue(data: Bytes, value: Bytes)
    requires |value| == 8 && |data| >= 12 && data[4..12] == value
    ensures data[5] == value[1] && Word(data, 6) == Word(value, 2) && data[8..12] == value[4..]
  {
  }

  lemma ScanXorReads(data: Bytes)
    requires |data| >= 12 && Word(data, 0) == XOR_MAPPED_ADDRESS && Word(data, 2) >= 8 && data[5] == 1
    ensures ScanXorMapped(data) == At(Addr4(XorBytes(data[8..12], COOKIE), Xor16(Word(data, 6), COOKIE_HIGH)))
  {
    var rest := data[4..];
    assert rest[1] == data[5] && rest[2] == data[6] && rest[3] == data[7];
    assert rest[4..8] == data[8..12];
  }

  /** A check end to end: within the size limit and with a colon-free receiver name, the
      peer's dispatcher replies; the reply reaches the waiting sender, has an exact length,
      the same transaction and a hash under the receiver's password, passes the sender's
      test, and an IPv4 source is read back by both decoders. */
  lemma CheckComposes(mac: Mac, senderPending: set<Bytes>, receiverPending: set<Bytes>, role: Role,
                      receiver: Bytes, pwd: Bytes, sender: Bytes, senderPwd: Bytes,
                      priority: u32, tieBreaker: Bytes, txn: TxnId, from: SocketAddr, peer: SocketAddr)
    requires Utf8(receiver) && Utf8(sender) && |tieBreaker| == 8
    requires txn in senderPending && txn !in receiverPending
    requires ColonFree(receiver) && |receiver| + |sender| <= 1427
    ensures var request := Request(mac, role, receiver, pwd, sender, priority, tieBreaker, txn);
            var action := Dispatch(mac, receiverPending, request, from, receiver, pwd);
            && action.Reply?
            && Dispatch(mac, senderPending, action.response, peer, sender, senderPwd) == Deliver(txn, action.response)
            && Word(action.response, 2) == |action.response| - HEADER
            && mac(pwd, Covered(action.response, |action.response| - 24)) == action.response[|action.response| - 20..]
            && Accepts(action.response)
            && (from.Addr4? ==> Response(action.response, txn) == Ok(from) && GatherDecode(action.response) == At(from))
            && (from.Addr6? ==> (Response(action.response, txn) == Ok(from) <==> from.Plain() && txn == Zeros(12)))
  {
    RequestIsDispatched(mac, receiverPending, role, receiver, pwd, sender, priority, tieBreaker, txn, from);
    AnswerIsExact(mac, txn, from, pwd);
    AnswerParses(mac, txn, from, pwd);
    ReplyIsDelivered(mac, senderPending, Answer(mac, txn, from, pwd), txn, peer, sender, senderPwd);
    if from.Addr4? {
      Unmask4(from, txn);
      AnswerIsGathered(mac, txn, from, pwd);
    } else {
      Unmask6Iff(from, txn);
    }
  }

  lemma ReplyIsDelivered(mac: Mac, pending: set<Bytes>, data: Bytes, txn: TxnId, from: SocketAddr, ufrag: Bytes,
                         pwd: Bytes)
    requires HEADER <= |data| < RECEIVE_BUFFER && data[8..20] == txn && txn in pending
    ensures Dispatch(mac, pending, data, from, ufrag, pwd) == Deliver(txn, data)
  {
  }
}
