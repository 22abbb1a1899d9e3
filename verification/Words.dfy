// Bytes and 32-bit words, with the arithmetic and the bit operations that the hashes of
// scripts/mkhash.c use.
module Words {
  type Byte = b: int | 0 <= b < 256
  type Word = w: int | 0 <= w < 0x1_0000_0000

  function Bits(w: Word): bv32 { w as bv32 }

  function FromBits(b: bv32): Word { b as int }

  // Addition modulo 2^32.
  function Plus(x: Word, y: Word): Word { (x + y) % 0x1_0000_0000 }

  function XorBits(a: bv32, b: bv32): bv32 { a ^ b }

  function Xor(x: Word, y: Word): Word { FromBits(XorBits(Bits(x), Bits(y))) }

  function ShiftRBits(a: bv32, n: bv32): bv32
    requires n < 32
  {
    a >> n
  }

  function ShiftR(x: Word, n: bv32): Word
    requires n < 32
  {
    FromBits(ShiftRBits(Bits(x), n))
  }

  function RotRBits(a: bv32, n: bv32): bv32
    requires 0 < n < 32
  {
    (a >> n) | (a << (32 - n))
  }

  function RotLBits(a: bv32, n: bv32): bv32
    requires 0 < n < 32
  {
    (a << n) | (a >> (32 - n))
  }

  function RotR(x: Word, n: bv32): Word
    requires 0 < n < 32
  {
    FromBits(RotRBits(Bits(x), n))
  }

  function RotL(x: Word, n: bv32): Word
    requires 0 < n < 32
  {
    FromBits(RotLBits(Bits(x), n))
  }

  // ----- what they mean -----

  /** Bit k of a word, from the least significant one on. */
  predicate Bit(w: Word, k: bv32)
    requires k < 32
  {
    BitOf(Bits(w), k)
  }

  predicate BitOf(b: bv32, k: bv32)
    requires k < 32
  {
    (b >> k) & 1 == 1
  }

  lemma BackToBits(b: bv32)
    ensures Bits(FromBits(b)) == b
  {
  }

  /** Exclusive or goes bit by bit. */
  lemma XorBit(x: Word, y: Word, k: bv32)
    requires k < 32
    ensures Bit(Xor(x, y), k) <==> Bit(x, k) != Bit(y, k)
  {
    hide BitOf, Bits, FromBits, XorBits;
    BackToBits(XorBits(Bits(x), Bits(y)));
    XorBitOf(Bits(x), Bits(y), k);
  }

  lemma XorBitOf(a: bv32, b: bv32, k: bv32)
    requires k < 32
    ensures BitOf(XorBits(a, b), k) <==> BitOf(a, k) != BitOf(b, k)
  {
    assert (((a ^ b) >> k) & 1 == 1) <==> ((a >> k) & 1 == 1) != ((b >> k) & 1 == 1);
  }

  /** A rotation to the right by n moves bit k + n, counted modulo 32, to bit k. */
  lemma RotRBit(x: Word, n: bv32, k: bv32)
    requires 0 < n < 32 && k < 32
    ensures Bit(RotR(x, n), k) == Bit(x, (k + n) % 32)
  {
    hide BitOf, Bits, FromBits, RotRBits;
    BackToBits(RotRBits(Bits(x), n));
    RotRBitOf(Bits(x), n, k);
  }

  lemma RotRBitOf(a: bv32, n: bv32, k: bv32)
    requires k < 32 && 0 < n < 32
    ensures BitOf(RotRBits(a, n), k) == BitOf(a, (k + n) % 32)
  {
    RotatedRight(a, n, k);
  }

  lemma RotatedRight(a: bv32, n: bv32, k: bv32)
    requires k < 32 && 0 < n < 32
    ensures (((a >> n) | (a << (32 - n))) >> k) & 1 == (a >> ((k + n) % 32)) & 1
  {
  }

  /** A rotation to the left by n moves bit k to bit k + n. */
  lemma RotLBit(x: Word, n: bv32, k: bv32)
    requires 0 < n < 32 && k < 32
    ensures Bit(RotL(x, n), (k + n) % 32) == Bit(x, k)
  {
    hide BitOf, Bits, FromBits, RotLBits;
    BackToBits(RotLBits(Bits(x), n));
    RotLBitOf(Bits(x), n, k);
  }

  lemma RotLBitOf(a: bv32, n: bv32, k: bv32)
    requires k < 32 && 0 < n < 32
    ensures BitOf(RotLBits(a, n), (k + n) % 32) == BitOf(a, k)
  {
    RotatedLeft(a, n, k);
  }

  lemma RotatedLeft(a: bv32, n: bv32, k: bv32)
    requires k < 32 && 0 < n < 32
    ensures (((a << n) | (a >> (32 - n))) >> ((k + n) % 32)) & 1 == (a >> k) & 1
  {
  }

  /** A shift to the right by n moves bit k + n to bit k, and zeros come in. */
  lemma ShiftRBit(x: Word, n: bv32, k: bv32)
    requires n < 32 && k < 32
    ensures Bit(ShiftR(x, n), k) <==> k + n < 32 && Bit(x, k + n)
  {
    hide BitOf, Bits, FromBits, ShiftRBits;
    BackToBits(ShiftRBits(Bits(x), n));
    ShiftBitOf(Bits(x), n, k);
  }

  lemma ShiftBitOf(a: bv32, n: bv32, k: bv32)
    requires n < 32 && k < 32
    ensures BitOf(ShiftRBits(a, n), k) <==> k + n < 32 && BitOf(a, k + n)
  {
    if k + n < 32 {
      ShiftedIn(a, n, k);
      assert BitOf(ShiftRBits(a, n), k) == BitOf(a, k + n);
    } else {
      ShiftedOut(a, n, k);
    }
  }

  lemma ShiftedIn(a: bv32, n: bv32, k: bv32)
    requires n < 32 && k < 32 && k + n < 32
    ensures ((a >> n) >> k) & 1 == (a >> (k + n)) & 1
  {
  }

  lemma ShiftedOut(a: bv32, n: bv32, k: bv32)
    requires n < 32 && k < 32 && k + n >= 32
    ensures ((a >> n) >> k) & 1 == 0
  {
  }

  /** A sum drops the carry out of 32 bits, and nothing else. */
  lemma PlusCarries(x: Word, y: Word)
    ensures x + y == Plus(x, y) + (if x + y < 0x1_0000_0000 then 0 else 0x1_0000_0000)
  {
  }

  lemma PlusAssoc(x: Word, y: Word, z: Word)
    ensures Plus(Plus(x, y), z) == Plus(x, Plus(y, z))
  {
  }

  lemma PlusComm(x: Word, y: Word)
    ensures Plus(x, y) == Plus(y, x)
  {
  }

  // The word whose bytes, most significant first, are given, and these bytes.
  function WordBE(b0: Byte, b1: Byte, b2: Byte, b3: Byte): Word {
    0x100_0000 * b0 + 0x1_0000 * b1 + 0x100 * b2 + b3
  }

  function BytesBE(w: Word): (s: seq<Byte>)
    ensures |s| == 4
  {
    [w / 0x100_0000, w / 0x1_0000 % 0x100, w / 0x100 % 0x100, w % 0x100]
  }

  function BytesLE(w: Word): (s: seq<Byte>)
    ensures |s| == 4
  {
    [w % 0x100, w / 0x100 % 0x100, w / 0x1_0000 % 0x100, w / 0x100_0000]
  }

  lemma Halve(w: Word)
    ensures w == 0x100 * (w / 0x100) + w % 0x100
    ensures w / 0x100 == 0x100 * (w / 0x1_0000) + w / 0x100 % 0x100
    ensures w / 0x1_0000 == 0x100 * (w / 0x100_0000) + w / 0x1_0000 % 0x100
  {
    assert w / 0x100 / 0x100 == w / 0x1_0000;
    assert w / 0x1_0000 / 0x100 == w / 0x100_0000;
  }

  /** The four bytes determine the word, in either order. */
  lemma BytesRoundTrip(w: Word)
    ensures var s := BytesBE(w); WordBE(s[0], s[1], s[2], s[3]) == w
    ensures var s := BytesLE(w); WordBE(s[3], s[2], s[1], s[0]) == w
  {
    Halve(w);
    var a, b, c, d := w / 0x100_0000, w / 0x1_0000 % 0x100, w / 0x100 % 0x100, w % 0x100;
    assert w == 0x100 * (0x100 * (0x100 * a + b) + c) + d;
    assert BytesBE(w) == [a, b, c, d] && BytesLE(w) == [d, c, b, a];
  }

  /** The word that four bytes make up has these bytes. */
  lemma WordRoundTrip(b0: Byte, b1: Byte, b2: Byte, b3: Byte)
    ensures BytesBE(WordBE(b0, b1, b2, b3)) == [b0, b1, b2, b3]
    ensures BytesLE(WordBE(b3, b2, b1, b0)) == [b0, b1, b2, b3]
  {
    Digits(b0, b1, b2, b3);
    Digits(b3, b2, b1, b0);
  }

  lemma Digits(b0: Byte, b1: Byte, b2: Byte, b3: Byte)
    ensures var w := WordBE(b0, b1, b2, b3);
      w % 0x100 == b3 && w / 0x100 % 0x100 == b2 && w / 0x1_0000 % 0x100 == b1 && w / 0x100_0000 == b0
  {
    var w := WordBE(b0, b1, b2, b3);
    assert w == 0x100 * (0x1_0000 * b0 + 0x100 * b1 + b2) + b3;
    assert w / 0x100 == 0x1_0000 * b0 + 0x100 * b1 + b2 == 0x100 * (0x100 * b0 + b1) + b2;
    assert w / 0x1_0000 == 0x100 * b0 + b1;
  }

  type Long = u: int | 0 <= u < 0x1_0000_0000_0000_0000

  // The eight bytes of a 64-bit number.
  function LongBE(u: Long): (s: seq<Byte>)
    ensures |s| == 8
  {
    BytesBE(u / 0x1_0000_0000) + BytesBE(u % 0x1_0000_0000)
  }

  function LongLE(u: Long): (s: seq<Byte>)
    ensures |s| == 8
  {
    BytesLE(u % 0x1_0000_0000) + BytesLE(u / 0x1_0000_0000)
  }

  /** The eight bytes determine the number, in either order. */
  lemma LongRoundTrip(u: Long)
    ensures var s := LongBE(u); WordBE(s[0], s[1], s[2], s[3]) * 0x1_0000_0000 + WordBE(s[4], s[5], s[6], s[7]) == u
    ensures var s := LongLE(u); WordBE(s[7], s[6], s[5], s[4]) * 0x1_0000_0000 + WordBE(s[3], s[2], s[1], s[0]) == u
  {
    BytesRoundTrip(u / 0x1_0000_0000);
    BytesRoundTrip(u % 0x1_0000_0000);
    hide BytesBE, BytesLE, WordBE;
  }

  /** The number of bits in n bytes, as far as a 64-bit counter can tell. */
  function BitLength(n: nat): Long {
    8 * n % 0x1_0000_0000_0000_0000
  }

  // The bit counter of a hash adds up.
  lemma BitLengthAdds(n: nat, k: nat)
    ensures BitLength(n + k) == (BitLength(n) + 8 * k % 0x1_0000_0000_0000_0000) % 0x1_0000_0000_0000_0000
  {
  }

  // It tells the number of bytes in the buffer.
  lemma BitLengthBytes(n: nat)
    ensures BitLength(n) / 8 % 64 == n % 64
  {
    var q := 8 * n / 0x1_0000_0000_0000_0000;
    assert n == BitLength(n) / 8 + 64 * (0x80_0000_0000_0000 * q) by {
      assert 8 * n == 0x1_0000_0000_0000_0000 * q + BitLength(n);
    }
    SameRest(n, BitLength(n) / 8, 0x80_0000_0000_0000 * q);
  }

  lemma SameRest(n: nat, k: nat, q: nat)
    requires n == k + 64 * q
    ensures n % 64 == k % 64
  {
  }
}
