/** Bytes, the two byte orders, and the bit operations of Python's unbounded integers. */
module Bytes {

  type Byte = b: int | 0 <= b < 256

  const TWO_32 := 0x1_0000_0000

  function BigEndian(s: seq<Byte>): nat {
    if s == [] then 0 else 256 * BigEndian(s[..|s| - 1]) + s[|s| - 1] as int
  }

  function LittleEndian(s: seq<Byte>): nat {
    if s == [] then 0 else s[0] as int + 256 * LittleEndian(s[1..])
  }

  function Pack16(n: nat): (s: seq<Byte>)
    requires n < 0x1_0000
    ensures |s| == 2
  {
    [n / 256, n % 256]
  }

  /** `struct.pack(">I", n)` */
  function Pack32(n: nat): (s: seq<Byte>)
    requires n < TWO_32
    ensures |s| == 4
  {
    [n / 256 / 256 / 256, n / 256 / 256 % 256, n / 256 % 256, n % 256]
  }

  lemma {:induction false} BigEndian2(s: seq<Byte>)
    requires |s| == 2
    ensures BigEndian(s) == 256 * (s[0] as int) + s[1] as int
  {
    assert BigEndian(s[..1]) == 256 * BigEndian(s[..1][..0]) + s[0] as int;
    assert s[..1][..0] == [];
  }

  lemma {:induction false} BigEndian4(s: seq<Byte>)
    requires |s| == 4
    ensures BigEndian(s) == 256 * (256 * (256 * (s[0] as int) + s[1] as int) + s[2] as int) + s[3] as int
  {
    BigEndian2(s[..2]);
    assert s[..3][..2] == s[..2];
    assert BigEndian(s[..3]) == 256 * BigEndian(s[..2]) + s[2] as int;
  }

  /** Packing and reading back are inverse in both directions. */
  lemma {:induction false} Pack16RoundTrip(n: nat)
    requires n < 0x1_0000
    ensures BigEndian(Pack16(n)) == n
  {
    BigEndian2(Pack16(n));
  }

  lemma {:induction false} Unpack16RoundTrip(s: seq<Byte>)
    requires |s| == 2
    ensures BigEndian(s) < 0x1_0000 && Pack16(BigEndian(s)) == s
  {
    BigEndian2(s);
  }

  lemma {:induction false} Pack32RoundTrip(n: nat)
    requires n < TWO_32
    ensures BigEndian(Pack32(n)) == n
  {
    BigEndian4(Pack32(n));
  }

  lemma {:induction false} Unpack32RoundTrip(s: seq<Byte>)
    requires |s| == 4
    ensures BigEndian(s) < TWO_32 && Pack32(BigEndian(s)) == s
  {
    BigEndian4(s);
    var n := BigEndian(s);
    assert n / 256 == 256 * (256 * (s[0] as int) + s[1] as int) + s[2] as int;
    assert n / 256 / 256 == 256 * (s[0] as int) + s[1] as int;
  }

  lemma {:induction false} SliceOfPrefix(s: seq<Byte>, m: nat, a: nat, b: nat)
    requires a <= b <= m <= |s|
    ensures s[..m][a..b] == s[a..b]
  {
  }

  // ----- Bit operations -----

  function Pow2(n: nat): (p: nat)
    ensures p > 0
  {
    if n == 0 then 1 else 2 * Pow2(n - 1)
  }

  function BitAnd(a: nat, b: nat): nat {
    if a == 0 || b == 0 then 0 else (a % 2) * (b % 2) + 2 * BitAnd(a / 2, b / 2)
  }

  function BitXor(a: nat, b: nat): nat
    decreases a + b
  {
    if a == 0 then b
    else if b == 0 then a
    else (a + b) % 2 + 2 * BitXor(a / 2, b / 2)
  }

  function ShiftLeft(a: nat, n: nat): nat {
    a * Pow2(n)
  }

  function ShiftRight(a: nat, n: nat): nat {
    Divide(a, Pow2(n))
  }

  function Divide(a: nat, p: nat): nat
    requires p > 0
  {
    a / p
  }

  /** Masking with n ones keeps the low n bits. */
  lemma {:induction false} MaskIsRemainder(a: nat, n: nat)
    ensures BitAnd(a, Pow2(n) - 1) == a % Pow2(n)
  {
    if n > 0 {
      var p := Pow2(n - 1);
      MaskIsRemainder(a / 2, n - 1);
      MaskStep(a, p);
    }
  }

  lemma {:induction false} MaskStep(a: nat, p: nat)
    requires p > 0 && BitAnd(a / 2, p - 1) == a / 2 % p
    ensures BitAnd(a, 2 * p - 1) == a % (2 * p)
  {
    MaskDigit(a, p);
    HalvedRemainder(a, p);
  }

  /** An odd mask keeps the lowest bit and masks the others with half of itself. */
  lemma {:induction false} MaskDigit(a: nat, p: nat)
    requires p > 0
    ensures BitAnd(a, 2 * p - 1) == a % 2 + 2 * BitAnd(a / 2, p - 1)
  {
    OnesHalve(p);
  }

  lemma {:induction false} OnesHalve(p: nat)
    requires p > 0
    ensures (2 * p - 1) % 2 == 1 && (2 * p - 1) / 2 == p - 1
  {
  }

  lemma {:induction false} HalvedRemainder(a: nat, p: nat)
    requires p > 0
    ensures a % (2 * p) == a % 2 + 2 * (a / 2 % p)
    ensures a / (2 * p) == a / 2 / p
  {
    var q, r := a / 2 / p, a / 2 % p;
    assert a / 2 == p * q + r;
    Regroup(p, q);
    RemainderUnique(a, 2 * p, q, a % 2 + 2 * r);
  }

  lemma {:induction false} Regroup(p: nat, q: nat)
    ensures 2 * (p * q) == (2 * p) * q
  {
  }

  /** A quotient and remainder that fit are the quotient and remainder. */
  lemma {:induction false} RemainderUnique(a: nat, p: nat, q: nat, r: nat)
    requires p > 0 && a == p * q + r && r < p
    ensures a % p == r && a / p == q
  {
    var q', r' := a / p, a % p;
    assert a == p * q' + r';
    if q' < q {
      StepUp(p, q', q);
    } else if q < q' {
      StepUp(p, q, q');
    }
  }

  lemma {:induction false} StepUp(p: nat, low: nat, high: nat)
    requires low < high
    ensures p * low + p <= p * high
  {
    if low + 1 < high {
      StepUp(p, low, high - 1);
    }
    assert p * high == p * (high - 1) + p;
  }

  lemma {:induction false} DoubleMask(a: nat, m: nat)
    requires m > 0
    ensures BitAnd(a, 2 * m) == 2 * BitAnd(a / 2, m)
  {
  }

  /** The two high bits of a byte. */
  lemma {:induction false} HighBits(b: Byte)
    ensures ShiftRight(BitAnd(b, 0xC0), 6) == b / 64
  {
    DoubleMask(b, 96);
    DoubleMask(b / 2, 48);
    DoubleMask(b / 2 / 2, 24);
    DoubleMask(b / 2 / 2 / 2, 12);
    DoubleMask(b / 2 / 2 / 2 / 2, 6);
    DoubleMask(b / 2 / 2 / 2 / 2 / 2, 3);
    MaskIsRemainder(b / 64, 2);
    PowersOfTwo();
    assert b / 2 / 2 / 2 / 2 / 2 / 2 == b / 64;
  }

  lemma {:induction false} PowersOfTwo()
    ensures Pow2(1) == 2 && Pow2(2) == 4 && Pow2(4) == 16 && Pow2(6) == 64 && Pow2(8) == 256
    ensures Pow2(10) == 1024 && Pow2(14) == 16384 && Pow2(16) == 65536 && Pow2(32) == TWO_32
  {
    assert Pow2(3) == 8 && Pow2(5) == 32 && Pow2(7) == 128;
    PowDoubles(8, 2);
    PowDoubles(8, 6);
    PowDoubles(8, 8);
    PowDoubles(16, 16);
  }

  lemma {:induction false} PowDoubles(a: nat, b: nat)
    ensures Pow2(a + b) == Pow2(a) * Pow2(b)
  {
    if b > 0 {
      PowDoubles(a, b - 1);
      assert Pow2(a + b) == 2 * Pow2(a + (b - 1));
      DoubleBehind(Pow2(a), Pow2(b - 1));
    }
  }

  lemma {:induction false} DoubleBehind(p: nat, q: nat)
    ensures p * (2 * q) == 2 * (p * q)
  {
  }

  /** Exclusive or with the same number twice changes nothing. */
  lemma {:induction false} XorTwice(a: nat, b: nat)
    ensures BitXor(BitXor(a, b), b) == a
    decreases a + b
  {
    if b == 0 {
    } else if a == 0 {
      XorSelf(b);
    } else {
      XorTwice(a / 2, b / 2);
      var x := BitXor(a, b);
      XorDigits(a, b);
      XorDigits(x, b);
    }
  }

  lemma {:induction false} XorDigits(a: nat, b: nat)
    ensures BitXor(a, b) % 2 == (a + b) % 2
    ensures BitXor(a, b) / 2 == BitXor(a / 2, b / 2)
  {
    if a > 0 && b > 0 {
      TwoParts((a + b) % 2, BitXor(a / 2, b / 2));
    }
  }

  lemma {:induction false} TwoParts(low: nat, high: nat)
    requires low < 2
    ensures (low + 2 * high) % 2 == low && (low + 2 * high) / 2 == high
  {
  }

  lemma {:induction false} XorSelf(a: nat)
    ensures BitXor(a, a) == 0
  {
    if a > 0 {
      XorSelf(a / 2);
    }
  }

  lemma {:induction false} XorBound(a: nat, b: nat, n: nat)
    requires a < Pow2(n) && b < Pow2(n)
    ensures BitXor(a, b) < Pow2(n)
    decreases a + b
  {
    if a > 0 && b > 0 && n > 0 {
      XorBound(a / 2, b / 2, n - 1);
    }
  }
}
