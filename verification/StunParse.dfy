/** The STUN client's parsers for binding responses and error responses. */
module StunParse {
  import opened Words
  import opened Candidate
  import opened StunBytes

  datatype StunError =
    | TooShort | UnexpectedType(kind: u16) | Truncated | BadCookie | WrongTransaction | NoMappedAddress
    | ErrorResponse(code: nat, reason: Bytes)
    | UnknownError

  datatype Parsed = Ok(address: SocketAddr) | Err(error: StunError)

  /** A MAPPED-ADDRESS value, or with `xor` an XOR-MAPPED-ADDRESS value. For IPv6 only the
      first four bytes are un-masked. */
  function ParseMapped(data: Bytes, xor: bool): Option<SocketAddr> {
    if |data| < 4 then None
    else
      var port := if xor then Xor16(Word(data, 2), COOKIE_HIGH) else Word(data, 2);
      if data[1] == 1 && |data| >= 8 then
        Some(NewAddr(V4(if xor then XorBytes(data[4..8], COOKIE) else data[4..8]), port))
      else if data[1] == 2 && |data| >= 20 then
        Some(NewAddr(V6(if xor then XorBytes(data[4..8], COOKIE) + data[8..20] else data[4..20]), port))
      else None
  }

  datatype Found = Found(mapped: Option<SocketAddr>, xored: Option<SocketAddr>) {
    function Noting(kind: u16, value: Bytes): Found {
      if kind == MAPPED_ADDRESS then this.(mapped := ParseMapped(value, false))
      else if kind == XOR_MAPPED_ADDRESS then this.(xored := ParseMapped(value, true))
      else this
    }
  }

  /** Reads attributes from the front until the bytes run out. */
  function ScanMapped(attrs: Bytes, found: Found): Found
    decreases |attrs|
  {
    if |attrs| < 4 then found
    else
      var n := Word(attrs, 2);
      var rest := attrs[4..];
      if |rest| < n then found
      else
        var noted := found.Noting(Word(attrs, 0), rest[..n]);
        if |rest| >= Pad4(n) then ScanMapped(rest[Pad4(n)..], noted) else noted
  }

  /** The first ERROR-CODE attribute, if one is found. */
  function ScanError(attrs: Bytes): StunError
    decreases |attrs|
  {
    if |attrs| < 4 then UnknownError
    else
      var n := Word(attrs, 2);
      var rest := attrs[4..];
      if Word(attrs, 0) == ERROR_CODE && n >= 4 && |rest| >= n then
        ErrorResponse(rest[2] as int * 100 + rest[3], rest[4..n])
      else if |rest| >= Pad4(n) then ScanError(rest[Pad4(n)..])
      else UnknownError
  }

  function Response(data: Bytes, txn: TxnId): Parsed {
    if |data| < HEADER then Err(TooShort)
    else if Word(data, 0) == BINDING_ERROR then Err(ScanError(data[HEADER..]))
    else if Word(data, 0) != BINDING_RESPONSE then Err(UnexpectedType(Word(data, 0)))
    else if |data| < HEADER + Word(data, 2) then Err(Truncated)
    else if data[4..8] != COOKIE then Err(BadCookie)
    else if data[8..20] != txn then Err(WrongTransaction)
    else
      var found := ScanMapped(data[HEADER..HEADER + Word(data, 2)], Found(None, None));
      if found.xored.Some? then Ok(found.xored.value)
      else if found.mapped.Some? then Ok(found.mapped.value)
      else Err(NoMappedAddress)
  }

  // ---- The parsers themselves: total on arbitrary bytes ----

  method ParseBindingResponse(data: Bytes, expected: TxnId) returns (r: Parsed)
    ensures r == Response(data, expected)
  {
    if |data| < HEADER { return Err(TooShort); }
    var kind := Word(data, 0);
    if kind == BINDING_ERROR {
      var error := ParseErrorResponse(data[HEADER..]);
      return Err(error);
    }
    if kind != BINDING_RESPONSE { return Err(UnexpectedType(kind)); }
    var length := Word(data, 2);
    if |data| < HEADER + length { return Err(Truncated); }
    if data[4..8] != COOKIE { return Err(BadCookie); }
    if data[8..20] != expected { return Err(WrongTransaction); }

    var attrs := data[HEADER..HEADER + length];
    var mapped: Option<SocketAddr>, xored: Option<SocketAddr> := None, None;
    while |attrs| >= 4
      invariant ScanMapped(attrs, Found(mapped, xored)) ==
                ScanMapped(data[HEADER..HEADER + length], Found(None, None))
      decreases |attrs|
    {
      var attrKind, n := Word(attrs, 0), Word(attrs, 2);
      attrs := attrs[4..];
      if |attrs| < n {
        break;
      }
      if attrKind == MAPPED_ADDRESS {
        mapped := ParseMapped(attrs[..n], false);
      } else if attrKind == XOR_MAPPED_ADDRESS {
        xored := ParseMapped(attrs[..n], true);
      }
      if |attrs| >= Pad4(n) {
        attrs := attrs[Pad4(n)..];
      } else {
        break;
      }
    }
    return if xored.Some? then Ok(xored.value) else if mapped.Some? then Ok(mapped.value) else Err(NoMappedAddress);
  }

  method ParseErrorResponse(data: Bytes) returns (error: StunError)
    ensures error == ScanError(data)
  {
    var buf := data;
    while |buf| >= 4
      invariant ScanError(buf) == ScanError(data)
      decreases |buf|
    {
      var kind, n := Word(buf, 0), Word(buf, 2);
      buf := buf[4..];
      if kind == ERROR_CODE && n >= 4 && |buf| >= n {
        var hundreds, number := buf[2], buf[3];
        return ErrorResponse(hundreds as int * 100 + number, buf[4..n]);
      }
      if |buf| >= Pad4(n) {
        buf := buf[Pad4(n)..];
      } else {
        break;
      }
    }
    return UnknownError;
  }

  // ---- What they compute on well-formed messages ----

  /** The decoding of the last attribute of a kind; none if there is no such attribute. */
  function LastOf(attrs: seq<Attr>, kind: u16, xor: bool): Option<SocketAddr> {
    if attrs == [] then None
    else if attrs[|attrs| - 1].kind == kind then ParseMapped(attrs[|attrs| - 1].value, xor)
    else LastOf(attrs[..|attrs| - 1], kind, xor)
  }

  function NotingAll(found: Found, attrs: seq<Attr>): Found
    decreases |attrs|
  {
    if attrs == [] then found else NotingAll(found.Noting(attrs[0].kind, attrs[0].value), attrs[1..])
  }

  lemma {:induction false} ScanEncoded(attrs: seq<Attr>, found: Found)
    requires AllValid(attrs)
    ensures ScanMapped(Encode(attrs), found) == NotingAll(found, attrs)
    decreases |attrs|
  {
    if attrs != [] {
      var a, rest := attrs[0], Encode(attrs[1..]);
      EncodedFront(a, rest);
      ScanEncoded(attrs[1..], found.Noting(a.kind, a.value));
      ScanOne(a, rest, found);
    }
  }

  lemma ScanOne(a: Attr, rest: Bytes, found: Found)
    requires a.Valid()
    ensures ScanMapped(EncodeAttr(a) + rest, found) == ScanMapped(rest, found.Noting(a.kind, a.value))
  {
    EncodedFront(a, rest);
    var data := EncodeAttr(a) + rest;
    assert data[4..][..|a.value|] == data[4..4 + |a.value|];
    assert data[4..][Pad4(|a.value|)..] == data[4 + Pad4(|a.value|)..];
  }

  lemma {:induction false} NotingSnoc(found: Found, attrs: seq<Attr>, a: Attr)
    ensures NotingAll(found, attrs + [a]) == NotingAll(found, attrs).Noting(a.kind, a.value)
    decreases |attrs|
  {
    if attrs == [] {
      assert (attrs + [a])[1..] == [];
    } else {
      assert (attrs + [a])[1..] == attrs[1..] + [a];
      NotingSnoc(found.Noting(attrs[0].kind, attrs[0].value), attrs[1..], a);
    }
  }

  lemma {:induction false} NotingIsLast(attrs: seq<Attr>)
    ensures NotingAll(Found(None, None), attrs) ==
            Found(LastOf(attrs, MAPPED_ADDRESS, false), LastOf(attrs, XOR_MAPPED_ADDRESS, true))
    decreases |attrs|
  {
    if attrs != [] {
      var last := |attrs| - 1;
      NotingIsLast(attrs[..last]);
      assert attrs == attrs[..last] + [attrs[last]];
      NotingSnoc(Found(None, None), attrs[..last], attrs[last]);
    }
  }

  /** A response made of any padded attributes yields the last XOR-MAPPED-ADDRESS if that
      decodes, otherwise the last MAPPED-ADDRESS if that decodes; nothing else in the
      message, and nothing after it, matters. */
  lemma ResponseYieldsLast(attrs: seq<Attr>, txn: TxnId, trailing: Bytes)
    requires AllValid(attrs) && |Encode(attrs)| < 0x1_0000
    ensures var data := Header(BINDING_RESPONSE, |Encode(attrs)|, txn) + Encode(attrs) + trailing;
            var xored, mapped := LastOf(attrs, XOR_MAPPED_ADDRESS, true), LastOf(attrs, MAPPED_ADDRESS, false);
            Response(data, txn) ==
              if xored.Some? then Ok(xored.value) else if mapped.Some? then Ok(mapped.value) else Err(NoMappedAddress)
  {
    var body := Encode(attrs);
    var data := Header(BINDING_RESPONSE, |body|, txn) + body + trailing;
    assert data == Header(BINDING_RESPONSE, |body|, txn) + (body + trailing);
    HeaderFields(BINDING_RESPONSE, |body|, txn, body + trailing);
    assert data[HEADER..HEADER + |body|] == body;
    ScanEncoded(attrs, Found(None, None));
    NotingIsLast(attrs);
  }

  function FirstError(attrs: seq<Attr>): StunError {
    if attrs == [] then UnknownError
    else if attrs[0].kind == ERROR_CODE && |attrs[0].value| >= 4
    then ErrorResponse(attrs[0].value[2] as int * 100 + attrs[0].value[3], attrs[0].value[4..])
    else FirstError(attrs[1..])
  }

  /** An error response yields its first ERROR-CODE attribute that has a code. */
  lemma {:induction false} ErrorYieldsFirst(attrs: seq<Attr>)
    requires AllValid(attrs)
    ensures ScanError(Encode(attrs)) == FirstError(attrs)
    decreases |attrs|
  {
    if attrs != [] {
      var a, rest := attrs[0], Encode(attrs[1..]);
      var data := EncodeAttr(a) + rest;
      EncodedFront(a, rest);
      ErrorYieldsFirst(attrs[1..]);
      assert data[4..][..|a.value|] == a.value;
      assert data[4..][Pad4(|a.value|)..] == rest;
      if |a.value| >= 4 {
        assert data[4..][4..|a.value|] == a.value[4..];
      }
    }
  }

  /** The value of a MAPPED-ADDRESS attribute (section 15.1 of RFC 5389). */
  function MappedValue(a: SocketAddr): Bytes {
    [0, if a.Addr4? then 1 else 2] + Put16(a.Port()) + match a case Addr4(ip, _) => ip case Addr6(ip, _, _, _) => ip
  }

  /** An unmasked address of either family is read back. */
  lemma MappedRoundTrip(a: SocketAddr)
    requires a.Plain()
    ensures ParseMapped(MappedValue(a), false) == Some(a)
  {
    var value := MappedValue(a);
    PutGet(a.Port());
    assert value[2..4] == Put16(a.Port());
    assert value[2] == Put16(a.Port())[0] && value[3] == Put16(a.Port())[1];
    match a {
      case Addr4(ip, _) => assert value[4..8] == ip;
      case Addr6(ip, _, _, _) => assert value[4..20] == ip;
    }
  }
}
