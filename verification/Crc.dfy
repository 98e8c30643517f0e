/**
 * CRC-32 as PNG uses it (the cyclic redundancy code of RFC 2083, section 3.4), computed bit by bit
 * on Python's integers.
 */
module Crc {
  import opened Bytes

  const POLYNOMIAL := 0xEDB8_8320
  const ONES := 0xFFFF_FFFF

  function CrcBit(c: nat): nat {
    if c % 2 == 1 then BitXor(c / 2, POLYNOMIAL) else c / 2
  }

  function CrcBits(c: nat, n: nat): nat
    decreases n
  {
    if n == 0 then c else CrcBits(CrcBit(c), n - 1)
  }

  /** The shift register after `data`, where each unit of data is `width` bits wide. */
  function Register(c: nat, data: seq<Byte>, width: nat): nat
    decreases |data|
  {
    if data == [] then c
    else CrcBits(BitXor(Register(c, data[..|data| - 1], width), data[|data| - 1]), width)
  }

  /** `binascii.crc32(data, start)` */
  function Crc32(data: seq<Byte>, start: nat): nat {
    BitXor(Register(BitXor(start, ONES), data, 8), ONES)
  }

  lemma {:induction false} RegisterConcat(c: nat, a: seq<Byte>, b: seq<Byte>, width: nat)
    ensures Register(c, a + b, width) == Register(Register(c, a, width), b, width)
    decreases |b|
  {
    if b == [] {
      assert a + b == a;
    } else {
      var n := |b| - 1;
      RegisterConcat(c, a, b[..n], width);
      assert (a + b)[..|a + b| - 1] == a + b[..n];
      assert (a + b)[|a + b| - 1] == b[n];
    }
  }

  /** A checksum can be continued over a second block. */
  lemma {:induction false} CrcConcat(a: seq<Byte>, b: seq<Byte>, start: nat)
    ensures Crc32(a + b, start) == Crc32(b, Crc32(a, start))
  {
    RegisterConcat(BitXor(start, ONES), a, b, 8);
    XorTwice(Register(BitXor(start, ONES), a, 8), ONES);
  }

  lemma {:induction false} CrcBitBound(c: nat)
    requires c < TWO_32
    ensures CrcBit(c) < TWO_32
  {
    PowersOfTwo();
    XorBound(c / 2, POLYNOMIAL, 32);
  }

  lemma {:induction false} CrcBitsBound(c: nat, n: nat)
    requires c < TWO_32
    ensures CrcBits(c, n) < TWO_32
    decreases n
  {
    if n > 0 {
      CrcBitBound(c);
      CrcBitsBound(CrcBit(c), n - 1);
    }
  }

  lemma {:induction false} RegisterBound(c: nat, data: seq<Byte>, width: nat)
    requires c < TWO_32
    ensures Register(c, data, width) < TWO_32
    decreases |data|
  {
    if data != [] {
      var front := Register(c, data[..|data| - 1], width);
      RegisterBound(c, data[..|data| - 1], width);
      PowersOfTwo();
      XorBound(front, data[|data| - 1], 32);
      CrcBitsBound(BitXor(front, data[|data| - 1]), width);
    }
  }

  /** The checksum fits four bytes. */
  lemma {:induction false} CrcBound(data: seq<Byte>, start: nat)
    requires start < TWO_32
    ensures Crc32(data, start) < TWO_32
  {
    PowersOfTwo();
    XorBound(start, ONES, 32);
    RegisterBound(BitXor(start, ONES), data, 8);
    XorBound(Register(BitXor(start, ONES), data, 8), ONES, 32);
  }

  /** Masking a checksum with 32 ones changes nothing. */
  lemma {:induction false} MaskedCrc(data: seq<Byte>, start: nat)
    requires start < TWO_32
    ensures BitAnd(Crc32(data, start), ONES) == Crc32(data, start)
  {
    CrcBound(data, start);
    MaskedWord(Crc32(data, start));
  }

  lemma {:induction false} MaskedWord(a: nat)
    requires a < TWO_32
    ensures BitAnd(a, ONES) == a
  {
    PowersOfTwo();
    MaskedBelow(a, ONES, 32);
  }

  /** Stated for any mask, which keeps the solver from evaluating the mask bit by bit. */
  lemma {:induction false} MaskedBelow(a: nat, mask: nat, n: nat)
    requires mask == Pow2(n) - 1 && a < Pow2(n)
    ensures BitAnd(a, mask) == a
  {
    MaskIsRemainder(a, n);
    RemainderUnique(a, Pow2(n), 0, a);
  }
}
