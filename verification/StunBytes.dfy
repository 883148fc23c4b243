/** The byte layout shared by all STUN code: big-endian words, the 20-byte header and
    attributes padded to four bytes (sections 6 and 15 of RFC 5389). */
module StunBytes {
  import opened Words

  type Bytes = seq<u8>

  const COOKIE: Bytes := [0x21, 0x12, 0xa4, 0x42]
  const COOKIE_HIGH: u16 := 0x2112
  const BINDING_REQUEST: u16 := 0x0001
  const BINDING_RESPONSE: u16 := 0x0101
  const BINDING_ERROR: u16 := 0x0111
  const HEADER: nat := 20

  const MAPPED_ADDRESS: u16 := 0x0001
  const USERNAME: u16 := 0x0006
  const MESSAGE_INTEGRITY: u16 := 0x0008
  const ERROR_CODE: u16 := 0x0009
  const XOR_MAPPED_ADDRESS: u16 := 0x0020
  const PRIORITY: u16 := 0x0024
  const ICE_CONTROLLED: u16 := 0x8029
  const ICE_CONTROLLING: u16 := 0x802a

  type TxnId = s: Bytes | |s| == 12 witness [0, 0, 0, 0, 0, 0, 0, 0, 0, 0, 0, 0]

  /** The low sixteen bits of n, high byte first. */
  function Put16(n: nat): (b: Bytes)
    ensures |b| == 2
  {
    [n / 256 % 256, n % 256]
  }

  function Put32(n: nat): (b: Bytes)
    ensures |b| == 4
  {
    Put16(n / 0x1_0000) + Put16(n)
  }

  function Get16(high: u8, low: u8): u16 {
    high as int * 256 + low
  }

  lemma PutGet(n: nat)
    ensures Get16(Put16(n)[0], Put16(n)[1]) == n % 0x1_0000
  {
    var q, r := n / 0x1_0000, n % 0x1_0000;
    assert n / 256 == 256 * q + r / 256 && n % 256 == r % 256;
    assert (256 * q + r / 256) % 256 == r / 256;
  }

  function Word(data: Bytes, i: nat): u16
    requires i + 2 <= |data|
  {
    Get16(data[i], data[i + 1])
  }

  /** A length rounded up to a multiple of four. */
  function Pad4(n: nat): (p: nat)
    ensures n <= p < n + 4
  {
    (n + 3) / 4 * 4
  }

  function Zeros(n: nat): (z: Bytes)
    ensures |z| == n
  {
    seq(n, _ => 0)
  }

  // ---- Attributes ----

  datatype Attr = Attr(kind: u16, value: Bytes, padding: Bytes) {
    ghost predicate Valid() {
      |value| < 0x1_0000 && |value| + |padding| == Pad4(|value|)
    }
  }

  /** An attribute padded with zeros, as the program writes it. */
  function ZeroPadded(kind: u16, value: Bytes): Attr {
    Attr(kind, value, Zeros(Pad4(|value|) - |value|))
  }

  function EncodeAttr(a: Attr): (b: Bytes)
    ensures |b| == 4 + |a.value| + |a.padding|
  {
    Put16(a.kind) + Put16(|a.value|) + a.value + a.padding
  }

  function Encode(attrs: seq<Attr>): Bytes {
    if attrs == [] then [] else EncodeAttr(attrs[0]) + Encode(attrs[1..])
  }

  ghost predicate AllValid(attrs: seq<Attr>) {
    forall i :: 0 <= i < |attrs| ==> attrs[i].Valid()
  }

  /** What a reader at the front of an encoded attribute sees. */
  lemma EncodedFront(a: Attr, rest: Bytes)
    requires a.Valid()
    ensures var data := EncodeAttr(a) + rest;
            && |data| == 4 + Pad4(|a.value|) + |rest|
            && Word(data, 0) == a.kind && Word(data, 2) == |a.value|
            && data[4..4 + |a.value|] == a.value
            && data[4 + Pad4(|a.value|)..] == rest
  {
  }

  // ---- Header ----

  function Header(kind: u16, length: nat, txn: TxnId): (h: Bytes)
    ensures |h| == HEADER
  {
    Put16(kind) + Put16(length) + COOKIE + txn
  }

  lemma HeaderFields(kind: u16, length: nat, txn: TxnId, rest: Bytes)
    requires length < 0x1_0000
    ensures var data := Header(kind, length, txn) + rest;
            && Word(data, 0) == kind && Word(data, 2) == length
            && data[4..8] == COOKIE && data[8..20] == txn && data[20..] == rest
  {
  }

  /** XORs each byte with the mask byte at the same place. */
  function XorBytes(data: Bytes, mask: Bytes): (r: Bytes)
    requires |data| == |mask|
    ensures |r| == |data|
    ensures forall i :: 0 <= i < |r| ==> r[i] == Xor8(data[i], mask[i])
  {
    seq(|data|, i requires 0 <= i < |data| => Xor8(data[i], mask[i]))
  }

  lemma XorBytesTwice(data: Bytes, mask: Bytes)
    requires |data| == |mask|
    ensures XorBytes(XorBytes(data, mask), mask) == data
  {
  }
}
