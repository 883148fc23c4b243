/** Fixed-width integers, their wrap-around, bitwise exclusive-or and the option type
    shared by every component. All arithmetic that the program does on fixed-width
    integers is written with an explicit wrap, as a release build performs it. */
module Words {
  const TWO31: int := 0x8000_0000

  type u8 = n: int | 0 <= n < 0x100
  type u16 = n: int | 0 <= n < 0x1_0000
  type u32 = n: int | 0 <= n < 0x1_0000_0000
  type u64 = n: int | 0 <= n < 0x1_0000_0000_0000_0000
  type i16 = n: int | -0x8000 <= n < 0x8000
  type i32 = n: int | -0x8000_0000 <= n < 0x8000_0000

  type Octets4 = s: seq<u8> | |s| == 4 witness [0, 0, 0, 0]
  type Octets16 = s: seq<u8> | |s| == 16 witness [0, 0, 0, 0, 0, 0, 0, 0, 0, 0, 0, 0, 0, 0, 0, 0]

  datatype Option<+T> = None | Some(value: T)

  function Wrap32(n: int): u32 {
    n % 0x1_0000_0000
  }

  /** Reinterprets a 32-bit word as a signed number. */
  function AsI32(n: u32): i32 {
    if n < 0x8000_0000 then n else n - 0x1_0000_0000
  }

  function Min(a: int, b: int): int {
    if a < b then a else b
  }

  function Max(a: int, b: int): int {
    if a > b then a else b
  }

  function Abs(a: int): nat {
    if a < 0 then -a else a
  }

  /** Division by a divisor known only at run time. */
  function Quotient(a: nat, b: nat): (q: nat)
    requires b > 0
    ensures q <= a
  {
    if a < b then 0 else 1 + Quotient(a - b, b)
  }

  /** Quotient is integer division. */
  lemma {:induction false} QuotientIsDivision(a: nat, b: nat)
    requires b > 0
    ensures Quotient(a, b) * b <= a < Quotient(a, b) * b + b
    ensures Quotient(a, b) == a / b
  {
    if a >= b {
      QuotientIsDivision(a - b, b);
    }
    DivisionUnique(a, b, Quotient(a, b));
  }

  lemma DivisionUnique(a: nat, b: nat, q: nat)
    requires b > 0 && q * b <= a < q * b + b
    ensures q == a / b
  {
    var p := a / b;
    assert p * b <= a < p * b + b;
    assert (p + 1) * b == p * b + b && (q + 1) * b == q * b + b;
    assert p < q ==> (p + 1) * b <= q * b;
    assert q < p ==> (q + 1) * b <= p * b;
  }

  /** Bitwise exclusive-or, bit by bit from the lowest. */
  function Xor(a: nat, b: nat): nat
    decreases a + b
  {
    if a == 0 && b == 0 then 0
    else (if a % 2 == b % 2 then 0 else 1) + 2 * Xor(a / 2, b / 2)
  }

  function Pow2(n: nat): nat {
    if n == 0 then 1 else 2 * Pow2(n - 1)
  }

  /** Exclusive-or of two n-bit words is an n-bit word. */
  lemma {:induction false} XorBound(a: nat, b: nat, n: nat)
    requires a < Pow2(n) && b < Pow2(n)
    ensures Xor(a, b) < Pow2(n)
    decreases n
  {
    if n > 0 {
      XorBound(a / 2, b / 2, n - 1);
    }
  }

  lemma {:induction false} XorBits(a: nat, b: nat)
    ensures Xor(a, b) % 2 == if a % 2 == b % 2 then 0 else 1
    ensures Xor(a, b) / 2 == Xor(a / 2, b / 2)
  {
  }

  /** Applying the same mask twice gives the word back. */
  lemma {:induction false} XorInvolution(a: nat, b: nat)
    ensures Xor(Xor(a, b), b) == a
    decreases a + b
  {
    if a != 0 || b != 0 {
      var x := Xor(a, b);
      XorInvolution(a / 2, b / 2);
      XorBits(a, b);
      XorBits(x, b);
    }
  }

  /** A mask leaves a word alone only when it is zero. */
  lemma {:induction false} XorFixed(a: nat, b: nat)
    ensures Xor(a, b) == a <==> b == 0
    decreases a + b
  {
    if a != 0 || b != 0 {
      XorFixed(a / 2, b / 2);
    }
  }

  lemma Pow2Values()
    ensures Pow2(8) == 0x100 && Pow2(16) == 0x1_0000
  {
  }

  function Xor8(a: u8, b: u8): (r: u8)
    ensures Xor(r, b) == a
  {
    Pow2Values();
    XorBound(a, b, 8);
    XorInvolution(a, b);
    Xor(a, b)
  }

  function Xor16(a: u16, b: u16): (r: u16)
    ensures Xor(r, b) == a
  {
    Pow2Values();
    XorBound(a, b, 16);
    XorInvolution(a, b);
    Xor(a, b)
  }

  lemma XorTwice(a: u8, b: u8, p: u16, q: u16)
    ensures Xor8(Xor8(a, b), b) == a
    ensures Xor16(Xor16(p, q), q) == p
  {
  }
}
