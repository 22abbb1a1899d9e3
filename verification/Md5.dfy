// MD5 as scripts/mkhash.c computes it, against RFC 1321.
module Md5 {
  import opened Words
  import opened Blocks

  // ----- RFC 1321, section 3.4 -----

  function FBits(x: bv32, y: bv32, z: bv32): bv32 { (x & y) | (!x & z) }
  function GBits(x: bv32, y: bv32, z: bv32): bv32 { (x & z) | (y & !z) }
  function HBits(x: bv32, y: bv32, z: bv32): bv32 { x ^ y ^ z }
  function IBits(x: bv32, y: bv32, z: bv32): bv32 { y ^ (x | !z) }

  /** The auxiliary function of step t. */
  function Auxiliary(t: nat, x: Word, y: Word, z: Word): Word {
    if t < 16 then FromBits(FBits(Bits(x), Bits(y), Bits(z)))
    else if t < 32 then FromBits(GBits(Bits(x), Bits(y), Bits(z)))
    else if t < 48 then FromBits(HBits(Bits(x), Bits(y), Bits(z)))
    else FromBits(IBits(Bits(x), Bits(y), Bits(z)))
  }

  /** The last function is the complement of y, except where z is set and x is not. */
  lemma LastAuxiliary(x: bv32, y: bv32, z: bv32)
    ensures IBits(x, y, z) == !y ^ (z & !x)
  {
    assert y ^ (x | !z) == !y ^ (z & !x);
  }

  /** The word of the block that step t uses. */
  function IndexAt(t: nat): (k: nat)
    ensures k < 16
  {
    if t < 16 then t else if t < 32 then (5 * t + 1) % 16 else if t < 48 then (3 * t + 5) % 16 else 7 * t % 16
  }

  /** The rotation of step t. */
  function ShiftAt(t: nat): (s: bv32)
    ensures 0 < s < 32
  {
    var j := t % 4;
    if t < 16 then (if j == 0 then 7 else if j == 1 then 12 else if j == 2 then 17 else 22)
    else if t < 32 then (if j == 0 then 5 else if j == 1 then 9 else if j == 2 then 14 else 20)
    else if t < 48 then (if j == 0 then 4 else if j == 1 then 11 else if j == 2 then 16 else 23)
    else (if j == 0 then 6 else if j == 1 then 10 else if j == 2 then 15 else 21)
  }

  /** The table T: the integer part of 4294967296 times abs(sin(t + 1)), round by round. */
  function SineAt(t: nat): Word {
    if t < 16 then Sine1(t) else if t < 32 then Sine2(t - 16) else if t < 48 then Sine3(t - 32) else Sine4(t - 48)
  }

  function Sine1(j: nat): Word {
    match j
    case 0 => 0xd76aa478 case 1 => 0xe8c7b756 case 2 => 0x242070db case 3 => 0xc1bdceee
    case 4 => 0xf57c0faf case 5 => 0x4787c62a case 6 => 0xa8304613 case 7 => 0xfd469501
    case 8 => 0x698098d8 case 9 => 0x8b44f7af case 10 => 0xffff5bb1 case 11 => 0x895cd7be
    case 12 => 0x6b901122 case 13 => 0xfd987193 case 14 => 0xa679438e case _ => 0x49b40821
  }

  function Sine2(j: nat): Word {
    match j
    case 0 => 0xf61e2562 case 1 => 0xc040b340 case 2 => 0x265e5a51 case 3 => 0xe9b6c7aa
    case 4 => 0xd62f105d case 5 => 0x02441453 case 6 => 0xd8a1e681 case 7 => 0xe7d3fbc8
    case 8 => 0x21e1cde6 case 9 => 0xc33707d6 case 10 => 0xf4d50d87 case 11 => 0x455a14ed
    case 12 => 0xa9e3e905 case 13 => 0xfcefa3f8 case 14 => 0x676f02d9 case _ => 0x8d2a4c8a
  }

  function Sine3(j: nat): Word {
    match j
    case 0 => 0xfffa3942 case 1 => 0x8771f681 case 2 => 0x6d9d6122 case 3 => 0xfde5380c
    case 4 => 0xa4beea44 case 5 => 0x4bdecfa9 case 6 => 0xf6bb4b60 case 7 => 0xbebfbc70
    case 8 => 0x289b7ec6 case 9 => 0xeaa127fa case 10 => 0xd4ef3085 case 11 => 0x04881d05
    case 12 => 0xd9d4d039 case 13 => 0xe6db99e5 case 14 => 0x1fa27cf8 case _ => 0xc4ac5665
  }

  function Sine4(j: nat): Word {
    match j
    case 0 => 0xf4292244 case 1 => 0x432aff97 case 2 => 0xab9423a7 case 3 => 0xfc93a039
    case 4 => 0x655b59c3 case 5 => 0x8f0ccc92 case 6 => 0xffeff47d case 7 => 0x85845dd1
    case 8 => 0x6fa87e4f case 9 => 0xfe2ce6e0 case 10 => 0xa3014314 case 11 => 0x4e0811a1
    case 12 => 0xf7537e82 case 13 => 0xbd3af235 case 14 => 0x2ad7d2bb case _ => 0xeb86d391
  }

  datatype Regs = Regs(a: Word, b: Word, c: Word, d: Word)

  function WordAt(block: Block, k: nat): Word
    requires k < 16
  {
    WordBE(block[4 * k + 3], block[4 * k + 2], block[4 * k + 1], block[4 * k])
  }

  /** The bytes of a word of the block come low-order byte first. */
  lemma WordBytes(block: Block, k: nat)
    requires k < 16
    ensures BytesLE(WordAt(block, k)) == block[4 * k..4 * k + 4]
  {
    hide BytesLE, WordBE;
    WordRoundTrip(block[4 * k], block[4 * k + 1], block[4 * k + 2], block[4 * k + 3]);
  }

  /** Step t, after which the registers change places: d, the new value, b and c. */
  function Step(r: Regs, block: Block, t: nat): Regs
    requires t < 64
  {
    var sum := Plus(Plus(Plus(r.a, Auxiliary(t, r.b, r.c, r.d)), WordAt(block, IndexAt(t))), SineAt(t));
    Regs(r.d, Plus(r.b, RotL(sum, ShiftAt(t))), r.b, r.c)
  }

  function Steps(r: Regs, block: Block, n: nat): Regs
    requires n <= 64
  {
    if n == 0 then r else Step(Steps(r, block, n - 1), block, n - 1)
  }

  /** What one block does to the registers. */
  function Compress(r: Regs, block: Block): Regs {
    var s := Steps(r, block, 64);
    Regs(Plus(s.a, r.a), Plus(s.b, r.b), Plus(s.c, r.c), Plus(s.d, r.d))
  }

  // ----- the functions as the program writes them -----

  function F2Bits(x: bv32, y: bv32, z: bv32): bv32 { z ^ (x & (y ^ z)) }
  function G2Bits(x: bv32, y: bv32, z: bv32): bv32 { y ^ (z & (x ^ y)) }
  function H2Bits(x: bv32, y: bv32, z: bv32): bv32 { x ^ (y ^ z) }

  function F(x: Word, y: Word, z: Word): Word { FromBits(F2Bits(Bits(x), Bits(y), Bits(z))) }
  function G(x: Word, y: Word, z: Word): Word { FromBits(G2Bits(Bits(x), Bits(y), Bits(z))) }
  function H(x: Word, y: Word, z: Word): Word { FromBits(HBits(Bits(x), Bits(y), Bits(z))) }
  function H2(x: Word, y: Word, z: Word): Word { FromBits(H2Bits(Bits(x), Bits(y), Bits(z))) }
  function I(x: Word, y: Word, z: Word): Word { FromBits(IBits(Bits(x), Bits(y), Bits(z))) }

  lemma F2BitsIsFBits(x: bv32, y: bv32, z: bv32)
    ensures F2Bits(x, y, z) == FBits(x, y, z)
  {
    assert z ^ (x & (y ^ z)) == (x & y) | (!x & z);
  }

  lemma G2BitsIsGBits(x: bv32, y: bv32, z: bv32)
    ensures G2Bits(x, y, z) == GBits(x, y, z)
  {
    assert y ^ (z & (x ^ y)) == (x & z) | (y & !z);
  }

  lemma H2BitsIsHBits(x: bv32, y: bv32, z: bv32)
    ensures H2Bits(x, y, z) == HBits(x, y, z)
  {
    assert x ^ (y ^ z) == x ^ y ^ z;
  }

  // The function that the program uses in step t.
  function Written(t: nat, x: Word, y: Word, z: Word): Word {
    if t < 16 then F(x, y, z)
    else if t < 32 then G(x, y, z)
    else if t < 48 then (if t % 2 == 0 then H(x, y, z) else H2(x, y, z))
    else I(x, y, z)
  }

  /** The functions of the program are those of the RFC. */
  lemma WrittenIsAuxiliary(t: nat, x: Word, y: Word, z: Word)
    ensures Written(t, x, y, z) == Auxiliary(t, x, y, z)
  {
    hide F2Bits, FBits, G2Bits, GBits, H2Bits, HBits, IBits, Bits, FromBits;
    F2BitsIsFBits(Bits(x), Bits(y), Bits(z));
    G2BitsIsGBits(Bits(x), Bits(y), Bits(z));
    H2BitsIsHBits(Bits(x), Bits(y), Bits(z));
  }

  // The macro STEP.
  function Mix(f: Word, a: Word, b: Word, x: Word, t: Word, s: bv32): Word
    requires 0 < s < 32
  {
    Plus(RotL(Plus(a, Plus(Plus(f, x), t)), s), b)
  }

  lemma MixIsStep(f: Word, r: Regs, block: Block, t: nat)
    requires t < 64 && f == Auxiliary(t, r.b, r.c, r.d)
    ensures Step(r, block, t) == Regs(r.d, Mix(f, r.a, r.b, WordAt(block, IndexAt(t)), SineAt(t), ShiftAt(t)), r.b, r.c)
  {
    hide Plus, RotL, Auxiliary, WordAt, SineAt, IndexAt, ShiftAt;
    var x, sine := WordAt(block, IndexAt(t)), SineAt(t);
    PlusAssoc(r.a, f, x);
    PlusAssoc(r.a, Plus(f, x), sine);
    PlusComm(r.b, RotL(Plus(r.a, Plus(Plus(f, x), sine)), ShiftAt(t)));
  }

  // One step, with the registers in the places they have in step n.
  method StepInPlace(f: Word, a: Word, b: Word, c: Word, d: Word, x: Word, t: Word, s: bv32,
                     ghost n: nat, ghost r: Regs, ghost block: Block)
    returns (v: Word)
    requires n < 64 && Steps(r, block, n) == Regs(a, b, c, d) && f == Written(n, b, c, d)
    requires x == WordAt(block, IndexAt(n)) && t == SineAt(n) && s == ShiftAt(n)
    ensures Steps(r, block, n + 1) == Regs(d, v, b, c)
  {
    hide Mix, Auxiliary, Written, WordAt, SineAt, IndexAt, ShiftAt, Step;
    v := Mix(f, a, b, x, t, s);
    WrittenIsAuxiliary(n, b, c, d);
    MixIsStep(f, Regs(a, b, c, d), block, n);
  }

  method Round1First(r: Regs, ptr: Block, ghost r0: Regs, ghost n: nat) returns (r': Regs)
    requires n == 0 && r == Steps(r0, ptr, n)
    ensures r' == Steps(r0, ptr, n + 8)
  {
    hide Steps, WordAt, F, G, H, H2, I;
    var a, b, c, d := r.a, r.b, r.c, r.d;
    a := StepInPlace(F(b, c, d), a, b, c, d, WordAt(ptr, 0), 0xd76aa478, 7, n, r0, ptr);
    d := StepInPlace(F(a, b, c), d, a, b, c, WordAt(ptr, 1), 0xe8c7b756, 12, n + 1, r0, ptr);
    c := StepInPlace(F(d, a, b), c, d, a, b, WordAt(ptr, 2), 0x242070db, 17, n + 2, r0, ptr);
    b := StepInPlace(F(c, d, a), b, c, d, a, WordAt(ptr, 3), 0xc1bdceee, 22, n + 3, r0, ptr);
    a := StepInPlace(F(b, c, d), a, b, c, d, WordAt(ptr, 4), 0xf57c0faf, 7, n + 4, r0, ptr);
    d := StepInPlace(F(a, b, c), d, a, b, c, WordAt(ptr, 5), 0x4787c62a, 12, n + 5, r0, ptr);
    c := StepInPlace(F(d, a, b), c, d, a, b, WordAt(ptr, 6), 0xa8304613, 17, n + 6, r0, ptr);
    b := StepInPlace(F(c, d, a), b, c, d, a, WordAt(ptr, 7), 0xfd469501, 22, n + 7, r0, ptr);
    r' := Regs(a, b, c, d);
  }

  method Round1Second(r: Regs, ptr: Block, ghost r0: Regs, ghost n: nat) returns (r': Regs)
    requires n == 8 && r == Steps(r0, ptr, n)
    ensures r' == Steps(r0, ptr, n + 8)
  {
    hide Steps, WordAt, F, G, H, H2, I;
    var a, b, c, d := r.a, r.b, r.c, r.d;
    a := StepInPlace(F(b, c, d), a, b, c, d, WordAt(ptr, 8), 0x698098d8, 7, n, r0, ptr);
    d := StepInPlace(F(a, b, c), d, a, b, c, WordAt(ptr, 9), 0x8b44f7af, 12, n + 1, r0, ptr);
    c := StepInPlace(F(d, a, b), c, d, a, b, WordAt(ptr, 10), 0xffff5bb1, 17, n + 2, r0, ptr);
    b := StepInPlace(F(c, d, a), b, c, d, a, WordAt(ptr, 11), 0x895cd7be, 22, n + 3, r0, ptr);
    a := StepInPlace(F(b, c, d), a, b, c, d, WordAt(ptr, 12), 0x6b901122, 7, n + 4, r0, ptr);
    d := StepInPlace(F(a, b, c), d, a, b, c, WordAt(ptr, 13), 0xfd987193, 12, n + 5, r0, ptr);
    c := StepInPlace(F(d, a, b), c, d, a, b, WordAt(ptr, 14), 0xa679438e, 17, n + 6, r0, ptr);
    b := StepInPlace(F(c, d, a), b, c, d, a, WordAt(ptr, 15), 0x49b40821, 22, n + 7, r0, ptr);
    r' := Regs(a, b, c, d);
  }

  method Round2First(r: Regs, ptr: Block, ghost r0: Regs, ghost n: nat) returns (r': Regs)
    requires n == 16 && r == Steps(r0, ptr, n)
    ensures r' == Steps(r0, ptr, n + 8)
  {
    hide Steps, WordAt, F, G, H, H2, I;
    var a, b, c, d := r.a, r.b, r.c, r.d;
    a := StepInPlace(G(b, c, d), a, b, c, d, WordAt(ptr, 1), 0xf61e2562, 5, n, r0, ptr);
    d := StepInPlace(G(a, b, c), d, a, b, c, WordAt(ptr, 6), 0xc040b340, 9, n + 1, r0, ptr);
    c := StepInPlace(G(d, a, b), c, d, a, b, WordAt(ptr, 11), 0x265e5a51, 14, n + 2, r0, ptr);
    b := StepInPlace(G(c, d, a), b, c, d, a, WordAt(ptr, 0), 0xe9b6c7aa, 20, n + 3, r0, ptr);
    a := StepInPlace(G(b, c, d), a, b, c, d, WordAt(ptr, 5), 0xd62f105d, 5, n + 4, r0, ptr);
    d := StepInPlace(G(a, b, c), d, a, b, c, WordAt(ptr, 10), 0x02441453, 9, n + 5, r0, ptr);
    c := StepInPlace(G(d, a, b), c, d, a, b, WordAt(ptr, 15), 0xd8a1e681, 14, n + 6, r0, ptr);
    b := StepInPlace(G(c, d, a), b, c, d, a, WordAt(ptr, 4), 0xe7d3fbc8, 20, n + 7, r0, ptr);
    r' := Regs(a, b, c, d);
  }

  method Round2Second(r: Regs, ptr: Block, ghost r0: Regs, ghost n: nat) returns (r': Regs)
    requires n == 24 && r == Steps(r0, ptr, n)
    ensures r' == Steps(r0, ptr, n + 8)
  {
    hide Steps, WordAt, F, G, H, H2, I;
    var a, b, c, d := r.a, r.b, r.c, r.d;
    a := StepInPlace(G(b, c, d), a, b, c, d, WordAt(ptr, 9), 0x21e1cde6, 5, n, r0, ptr);
    d := StepInPlace(G(a, b, c), d, a, b, c, WordAt(ptr, 14), 0xc33707d6, 9, n + 1, r0, ptr);
    c := StepInPlace(G(d, a, b), c, d, a, b, WordAt(ptr, 3), 0xf4d50d87, 14, n + 2, r0, ptr);
    b := StepInPlace(G(c, d, a), b, c, d, a, WordAt(ptr, 8), 0x455a14ed, 20, n + 3, r0, ptr);
    a := StepInPlace(G(b, c, d), a, b, c, d, WordAt(ptr, 13), 0xa9e3e905, 5, n + 4, r0, ptr);
    d := StepInPlace(G(a, b, c), d, a, b, c, WordAt(ptr, 2), 0xfcefa3f8, 9, n + 5, r0, ptr);
    c := StepInPlace(G(d, a, b), c, d, a, b, WordAt(ptr, 7), 0x676f02d9, 14, n + 6, r0, ptr);
    b := StepInPlace(G(c, d, a), b, c, d, a, WordAt(ptr, 12), 0x8d2a4c8a, 20, n + 7, r0, ptr);
    r' := Regs(a, b, c, d);
  }

  method Round3First(r: Regs, ptr: Block, ghost r0: Regs, ghost n: nat) returns (r': Regs)
    requires n == 32 && r == Steps(r0, ptr, n)
    ensures r' == Steps(r0, ptr, n + 8)
  {
    hide Steps, WordAt, F, G, H, H2, I;
    var a, b, c, d := r.a, r.b, r.c, r.d;
    a := StepInPlace(H(b, c, d), a, b, c, d, WordAt(ptr, 5), 0xfffa3942, 4, n, r0, ptr);
    d := StepInPlace(H2(a, b, c), d, a, b, c, WordAt(ptr, 8), 0x8771f681, 11, n + 1, r0, ptr);
    c := StepInPlace(H(d, a, b), c, d, a, b, WordAt(ptr, 11), 0x6d9d6122, 16, n + 2, r0, ptr);
    b := StepInPlace(H2(c, d, a), b, c, d, a, WordAt(ptr, 14), 0xfde5380c, 23, n + 3, r0, ptr);
    a := StepInPlace(H(b, c, d), a, b, c, d, WordAt(ptr, 1), 0xa4beea44, 4, n + 4, r0, ptr);
    d := StepInPlace(H2(a, b, c), d, a, b, c, WordAt(ptr, 4), 0x4bdecfa9, 11, n + 5, r0, ptr);
    c := StepInPlace(H(d, a, b), c, d, a, b, WordAt(ptr, 7), 0xf6bb4b60, 16, n + 6, r0, ptr);
    b := StepInPlace(H2(c, d, a), b, c, d, a, WordAt(ptr, 10), 0xbebfbc70, 23, n + 7, r0, ptr);
    r' := Regs(a, b, c, d);
  }

  method Round3Second(r: Regs, ptr: Block, ghost r0: Regs, ghost n: nat) returns (r': Regs)
    requires n == 40 && r == Steps(r0, ptr, n)
    ensures r' == Steps(r0, ptr, n + 8)
  {
    hide Steps, WordAt, F, G, H, H2, I;
    var a, b, c, d := r.a, r.b, r.c, r.d;
    a := StepInPlace(H(b, c, d), a, b, c, d, WordAt(ptr, 13), 0x289b7ec6, 4, n, r0, ptr);
    d := StepInPlace(H2(a, b, c), d, a, b, c, WordAt(ptr, 0), 0xeaa127fa, 11, n + 1, r0, ptr);
    c := StepInPlace(H(d, a, b), c, d, a, b, WordAt(ptr, 3), 0xd4ef3085, 16, n + 2, r0, ptr);
    b := StepInPlace(H2(c, d, a), b, c, d, a, WordAt(ptr, 6), 0x04881d05, 23, n + 3, r0, ptr);
    a := StepInPlace(H(b, c, d), a, b, c, d, WordAt(ptr, 9), 0xd9d4d039, 4, n + 4, r0, ptr);
    d := StepInPlace(H2(a, b, c), d, a, b, c, WordAt(ptr, 12), 0xe6db99e5, 11, n + 5, r0, ptr);
    c := StepInPlace(H(d, a, b), c, d, a, b, WordAt(ptr, 15), 0x1fa27cf8, 16, n + 6, r0, ptr);
    b := StepInPlace(H2(c, d, a), b, c, d, a, WordAt(ptr, 2), 0xc4ac5665, 23, n + 7, r0, ptr);
    r' := Regs(a, b, c, d);
  }

  method Round4First(r: Regs, ptr: Block, ghost r0: Regs, ghost n: nat) returns (r': Regs)
    requires n == 48 && r == Steps(r0, ptr, n)
    ensures r' == Steps(r0, ptr, n + 8)
  {
    hide Steps, WordAt, F, G, H, H2, I;
    var a, b, c, d := r.a, r.b, r.c, r.d;
    a := StepInPlace(I(b, c, d), a, b, c, d, WordAt(ptr, 0), 0xf4292244, 6, n, r0, ptr);
    d := StepInPlace(I(a, b, c), d, a, b, c, WordAt(ptr, 7), 0x432aff97, 10, n + 1, r0, ptr);
    c := StepInPlace(I(d, a, b), c, d, a, b, WordAt(ptr, 14), 0xab9423a7, 15, n + 2, r0, ptr);
    b := StepInPlace(I(c, d, a), b, c, d, a, WordAt(ptr, 5), 0xfc93a039, 21, n + 3, r0, ptr);
    a := StepInPlace(I(b, c, d), a, b, c, d, WordAt(ptr, 12), 0x655b59c3, 6, n + 4, r0, ptr);
    d := StepInPlace(I(a, b, c), d, a, b, c, WordAt(ptr, 3), 0x8f0ccc92, 10, n + 5, r0, ptr);
    c := StepInPlace(I(d, a, b), c, d, a, b, WordAt(ptr, 10), 0xffeff47d, 15, n + 6, r0, ptr);
    b := StepInPlace(I(c, d, a), b, c, d, a, WordAt(ptr, 1), 0x85845dd1, 21, n + 7, r0, ptr);
    r' := Regs(a, b, c, d);
  }

  method Round4Second(r: Regs, ptr: Block, ghost r0: Regs, ghost n: nat) returns (r': Regs)
    requires n == 56 && r == Steps(r0, ptr, n)
    ensures r' == Steps(r0, ptr, n + 8)
  {
    hide Steps, WordAt, F, G, H, H2, I;
    var a, b, c, d := r.a, r.b, r.c, r.d;
    a := StepInPlace(I(b, c, d), a, b, c, d, WordAt(ptr, 8), 0x6fa87e4f, 6, n, r0, ptr);
    d := StepInPlace(I(a, b, c), d, a, b, c, WordAt(ptr, 15), 0xfe2ce6e0, 10, n + 1, r0, ptr);
    c := StepInPlace(I(d, a, b), c, d, a, b, WordAt(ptr, 6), 0xa3014314, 15, n + 2, r0, ptr);
    b := StepInPlace(I(c, d, a), b, c, d, a, WordAt(ptr, 13), 0x4e0811a1, 21, n + 3, r0, ptr);
    a := StepInPlace(I(b, c, d), a, b, c, d, WordAt(ptr, 4), 0xf7537e82, 6, n + 4, r0, ptr);
    d := StepInPlace(I(a, b, c), d, a, b, c, WordAt(ptr, 11), 0xbd3af235, 10, n + 5, r0, ptr);
    c := StepInPlace(I(d, a, b), c, d, a, b, WordAt(ptr, 2), 0x2ad7d2bb, 15, n + 6, r0, ptr);
    b := StepInPlace(I(c, d, a), b, c, d, a, WordAt(ptr, 9), 0xeb86d391, 21, n + 7, r0, ptr);
    r' := Regs(a, b, c, d);
  }

  // All four rounds.
  method AllRounds(r: Regs, ptr: Block) returns (s: Regs)
    ensures s == Steps(r, ptr, 64)
  {
    hide Step;
    assert Steps(r, ptr, 0) == r;
    hide Steps;
    s := Round1First(r, ptr, r, 0);
    s := Round1Second(s, ptr, r, 8);
    s := Round2First(s, ptr, r, 16);
    s := Round2Second(s, ptr, r, 24);
    s := Round3First(s, ptr, r, 32);
    s := Round3Second(s, ptr, r, 40);
    s := Round4First(s, ptr, r, 48);
    s := Round4Second(s, ptr, r, 56);
  }

  // The rounds, and the registers from before added to the result.
  method CompressBlock(r: Regs, ptr: Block) returns (r': Regs)
    ensures r' == Compress(r, ptr)
  {
    hide Plus, Steps;
    var s := AllRounds(r, ptr);
    r' := Regs(Plus(s.a, r.a), Plus(s.b, r.b), Plus(s.c, r.c), Plus(s.d, r.d));
  }

  // ----- RFC 1321, sections 3.1 to 3.5 -----

  const START: Regs := Regs(0x67452301, 0xefcdab89, 0x98badcfe, 0x10325476)

  /** The bytes of the registers, low-order byte first, count up and down again. */
  lemma StartBytes()
    ensures BytesLE(START.a) == [0x01, 0x23, 0x45, 0x67] && BytesLE(START.b) == [0x89, 0xab, 0xcd, 0xef]
    ensures BytesLE(START.c) == [0xfe, 0xdc, 0xba, 0x98] && BytesLE(START.d) == [0x76, 0x54, 0x32, 0x10]
  {
  }

  /** The padding of the RFC: the number of bits is appended low-order word and byte first. */
  function Padded(m: seq<Byte>): (p: seq<Byte>)
    ensures |p| % BLOCK == 0 && m <= p
  {
    m + Padding(|m|, LongLE(BitLength(|m|)))
  }

  /** The hash of a message. */
  function Hash(m: seq<Byte>): (digest: seq<Byte>)
    ensures |digest| == 16
  {
    var r := Fold(Compress, START, Padded(m));
    BytesLE(r.a) + BytesLE(r.b) + BytesLE(r.c) + BytesLE(r.d)
  }

  // ----- the counter of bytes: 29 bits in lo, 32 bits in hi -----

  /** lo and hi count n bytes. */
  predicate Counts(lo: Word, hi: Word, n: nat) {
    lo == n % 0x2000_0000 && hi == n / 0x2000_0000 % 0x1_0000_0000
  }

  // How MD5_hash advances the counter: lo wraps around, and then carries into hi.
  function NextLo(lo: Word, size: nat): Word {
    (lo + size) % 0x2000_0000
  }

  function NextHi(lo: Word, hi: Word, size: nat): Word {
    ((if NextLo(lo, size) < lo then (hi + 1) % 0x1_0000_0000 else hi) + size / 0x2000_0000) % 0x1_0000_0000
  }

  lemma CountsMore(lo: Word, hi: Word, n: nat, size: nat)
    requires Counts(lo, hi, n)
    ensures Counts(NextLo(lo, size), NextHi(lo, hi, size), n + size)
  {
    var q, s, s0 := n / 0x2000_0000, size / 0x2000_0000, size % 0x2000_0000;
    var carry := if lo + s0 < 0x2000_0000 then 0 else 1;
    assert n + size == 0x2000_0000 * (q + s) + (lo + s0);
    Carry(q + s, lo + s0);
    assert lo + size == 0x2000_0000 * s + (lo + s0);
    Carry(s, lo + s0);
    assert NextLo(lo, size) < lo <==> carry == 1;
    ModAdd(q, carry);
    ModAdd(q + carry, s);
  }

  lemma ModAdd(a: nat, b: nat)
    ensures (a % 0x1_0000_0000 + b) % 0x1_0000_0000 == (a + b) % 0x1_0000_0000
  {
  }

  // Division of a sum that may carry.
  lemma Carry(q: nat, r: nat)
    requires r < 0x4000_0000
    ensures var n := 0x2000_0000 * q + r;
      if r < 0x2000_0000 then n / 0x2000_0000 == q && n % 0x2000_0000 == r
      else n / 0x2000_0000 == q + 1 && n % 0x2000_0000 == r - 0x2000_0000
  {
  }

  lemma CountsStart()
    ensures Counts(0, 0, 0)
  {
  }

  // The number of bytes in the buffer.
  lemma CountsBuffered(lo: Word, hi: Word, n: nat)
    requires Counts(lo, hi, n)
    ensures lo % 64 == n % 64
  {
    SameRest(n, lo, 0x80_0000 * (n / 0x2000_0000));
  }

  /** Together they give the number of bits modulo 2^64, low-order word first. */
  lemma CountsBits(lo: Word, hi: Word, n: nat)
    requires Counts(lo, hi, n)
    ensures 8 * lo < 0x1_0000_0000 && BytesLE(8 * lo) + BytesLE(hi) == LongLE(BitLength(n))
  {
    hide BytesLE;
    var q := n / 0x2000_0000;
    var p := q / 0x1_0000_0000;
    var bits := 0x1_0000_0000 * hi + 8 * lo;
    assert n == 0x2000_0000 * q + lo;
    assert q == 0x1_0000_0000 * p + hi;
    assert 8 * n == 0x1_0000_0000_0000_0000 * p + bits;
    RestIs(8 * n, p, bits);
    assert bits / 0x1_0000_0000 == hi && bits % 0x1_0000_0000 == 8 * lo;
  }

  lemma RestIs(n: nat, p: nat, r: nat)
    requires n == 0x1_0000_0000_0000_0000 * p + r && r < 0x1_0000_0000_0000_0000
    ensures n % 0x1_0000_0000_0000_0000 == r
  {
  }

  // ----- the context -----

  class Context {
    var lo: Word
    var hi: Word
    var a: Word
    var b: Word
    var c: Word
    var d: Word
    const buffer: array<Byte>

    function State(): Regs
      reads this
    {
      Regs(a, b, c, d)
    }

    /** The context stands for the message m. */
    ghost predicate Holds(m: seq<Byte>)
      reads this, buffer
    {
      Counts(lo, hi, |m|) && Absorbed(Compress, START, m, State(), buffer[..])
    }

    lemma HoldsFacts(m: seq<Byte>)
      requires Holds(m)
      ensures buffer.Length == BLOCK && Counts(lo, hi, |m|) && Absorbed(Compress, START, m, State(), buffer[..])
    {
      hide Counts, Fold;
    }

    lemma HoldsStart()
      requires buffer.Length == BLOCK && lo == 0 && hi == 0 && State() == START
      ensures Holds([])
    {
      hide Counts, Absorbed, Fold, Compress;
      CountsStart();
      AbsorbedStart(Compress, START, buffer[..]);
    }

    /** MD5_begin. */
    constructor ()
      ensures Holds([]) && fresh(buffer)
    {
      a := 0x67452301;
      b := 0xefcdab89;
      c := 0x98badcfe;
      d := 0x10325476;
      lo := 0;
      hi := 0;
      buffer := new Byte[BLOCK](_ => 0);
      new;
      HoldsStart();
    }

    /** MD5_body: all blocks of data. */
    method Body(data: seq<Byte>)
      requires |data| > 0 && |data| % BLOCK == 0
      modifies this`a, this`b, this`c, this`d
      ensures State() == Fold(Compress, old(State()), data)
    {
      hide Compress;
      ghost var s0 := State();
      var r := State();
      var ptr, size := 0, |data|;
      while size > 0
        invariant size >= 0 && ptr + size == |data| && ptr % BLOCK == 0
        invariant r == Fold(Compress, s0, data[..ptr])
      {
        r := CompressBlock(r, data[ptr..ptr + BLOCK]);
        AbsorbBlock(Compress, s0, data[..ptr], data[ptr..ptr + BLOCK]);
        assert data[..ptr] + data[ptr..ptr + BLOCK] == data[..ptr + BLOCK];
        ptr, size := ptr + BLOCK, size - BLOCK;
      }
      assert data[..ptr] == data;
      a, b, c, d := r.a, r.b, r.c, r.d;
    }
    // The counting of MD5_hash.
    method Count(size: nat, ghost n: nat)
      requires Counts(lo, hi, n)
      modifies this`lo, this`hi
      ensures Counts(lo, hi, n + size)
    {
      CountsMore(lo, hi, n, size);
      hide Counts;
      ghost var lo1, hi1 := NextLo(lo, size), NextHi(lo, hi, size);
      var savedLo := lo;
      lo := (savedLo + size) % 0x2000_0000;
      if lo < savedLo {
        hi := (hi + 1) % 0x1_0000_0000;
      }
      hi := (hi + size / 0x2000_0000) % 0x1_0000_0000;
      assert lo == lo1 && hi == hi1;
    }

    /** MD5_hash. */
    method Update(data: seq<Byte>, ghost m: seq<Byte>)
      requires Holds(m)
      modifies this, buffer
      ensures Holds(m + data)
    {
      hide Compress, Fold, Absorbed, Counts;
      HoldsFacts(m);
      CountsBuffered(lo, hi, |m|);
      var used := lo % 64;
      Count(|data|, |m|);
      if used != 0 {
        var available := 64 - used;
        if |data| < available {
          ghost var b := buffer[..];
          Copy(buffer, used, data);
          AbsorbShort(Compress, START, m, State(), b, data, buffer[..]);
          return;
        }
        FinishBlock(used, data[..available], m);
        AddBlocks(data[available..], m + data[..available]);
        assert m + data[..available] + data[available..] == m + data;
      } else {
        AbsorbedState(Compress, START, m, State(), buffer[..]);
        AddBlocks(data, m);
      }
    }

    // Fill up the buffer with data and compress it.
    method FinishBlock(used: nat, data: seq<Byte>, ghost m: seq<Byte>)
      requires Absorbed(Compress, START, m, State(), buffer[..]) && used == |m| % BLOCK && used + |data| == BLOCK
      modifies this`a, this`b, this`c, this`d, buffer
      ensures |m + data| % BLOCK == 0 && State() == Fold(Compress, START, m + data)
    {
      hide Compress;
      AbsorbFill(Compress, START, m, State(), buffer[..], data);
      ghost var s, block := State(), buffer[..used] + data;
      Copy(buffer, used, data);
      assert buffer[..] == block;
      Body(buffer[..]);
      assert Fold(Compress, s, block) == Compress(s, block) by {
        assert block[..BLOCK] == block && block[BLOCK..] == [];
      }
    }

    // Compress the complete blocks of data, and copy the rest into the buffer.
    method AddBlocks(data: seq<Byte>, ghost m: seq<Byte>)
      requires buffer.Length == BLOCK && |m| % BLOCK == 0 && State() == Fold(Compress, START, m)
      modifies this`a, this`b, this`c, this`d, buffer
      ensures Absorbed(Compress, START, m + data, State(), buffer[..])
    {
      hide Compress, Fold, Absorbed;
      var whole := |data| - |data| % BLOCK;
      WholeBlocks(|m|, |data|);
      if |data| >= 64 {
        FoldAppend(Compress, START, m, data[..whole]);
        Body(data[..whole]);
      } else {
        assert m + data[..whole] == m;
      }
      Copy(buffer, 0, data[whole..]);
      AbsorbRest(Compress, START, m + data[..whole], buffer[..], data[whole..]);
      assert m + data[..whole] + data[whole..] == m + data;
    }
    // The first part of MD5_end: the padding up to the length.
    method PadTo56(used: nat, ghost m: seq<Byte>)
      requires Absorbed(Compress, START, m, State(), buffer[..]) && used == |m| % 64
      modifies this`a, this`b, this`c, this`d, buffer
      ensures var start := m + PadStart(used);
        |start| % 64 == 56 && Absorbed(Compress, START, start, State(), buffer[..])
    {
      hide Compress, Fold, Absorbed, Zeros;
      AbsorbedLength(Compress, START, m, State(), buffer[..]);
      var available := 64 - (used + 1);
      if available < 8 {
        PadTwoBlocks(used, [0x80] + Zeros(available), m);
      } else {
        var pad := [0x80] + Zeros(available - 8);
        ghost var b := buffer[..];
        Copy(buffer, used, pad);
        AbsorbShort(Compress, START, m, State(), b, pad, buffer[..]);
      }
    }

    // The padding that fills up one block and starts another.
    method PadTwoBlocks(used: nat, pad: seq<Byte>, ghost m: seq<Byte>)
      requires Absorbed(Compress, START, m, State(), buffer[..]) && buffer.Length == 64
      requires used == |m| % 64 && used + |pad| == 64
      modifies this`a, this`b, this`c, this`d, buffer
      ensures Absorbed(Compress, START, m + (pad + Zeros(56)), State(), buffer[..])
    {
      hide Compress, Fold, Absorbed, Zeros;
      FinishBlock(used, pad, m);
      var zeros := Zeros(56);
      Copy(buffer, 0, zeros);
      AbsorbRest(Compress, START, m + pad, buffer[..], zeros);
      assert m + pad + zeros == m + (pad + zeros);
    }

    /** MD5_end. */
    method Final(ghost m: seq<Byte>) returns (result: seq<Byte>)
      requires Holds(m)
      modifies this, buffer
      ensures result == Hash(m)
      ensures lo == 0 && hi == 0 && State() == Regs(0, 0, 0, 0) && forall b <- buffer[..] :: b == 0
    {
      hide Compress, Fold, Absorbed, Counts, Padding, PadStart, BytesLE, LongLE, BitLength;
      HoldsFacts(m);
      CountsBuffered(lo, hi, |m|);
      CountsBits(lo, hi, |m|);
      PaddingParts(|m|, LongLE(BitLength(|m|)));
      var used := lo % 64;
      PadTo56(used, m);
      lo := 8 * lo;
      ghost var length := LongLE(BitLength(|m|));
      FinishBlock(56, BytesLE(lo) + BytesLE(hi), m + PadStart(used));
      assert m + PadStart(used) + length == Padded(m);
      result := BytesLE(a) + BytesLE(b) + BytesLE(c) + BytesLE(d);
      Clear();
    }

    method Clear()
      modifies this, buffer
      ensures lo == 0 && hi == 0 && State() == Regs(0, 0, 0, 0) && forall b <- buffer[..] :: b == 0
    {
      lo, hi, a, b, c, d := 0, 0, 0, 0, 0, 0;
      forall i | 0 <= i < buffer.Length { buffer[i] := 0; }
    }
  }

  lemma WholeBlocks(m: nat, n: nat)
    requires m % BLOCK == 0
    ensures var k := n - n % BLOCK; k % BLOCK == 0 && (m + k) % BLOCK == 0 && 0 <= n - k < BLOCK && (n < BLOCK ==> k == 0)
  {
  }

  /** md5_hash: the digest does not depend on how the message is cut into chunks. */
  method HashFile(chunks: seq<seq<Byte>>) returns (digest: seq<Byte>)
    ensures digest == Hash(Flatten(chunks))
  {
    hide *;
    var ctx := new Context();
    ghost var m: seq<Byte> := [];
    FlattenGrows(chunks, 0);
    var i := 0;
    while i < |chunks|
      invariant 0 <= i <= |chunks| && m == Flatten(chunks[..i])
      invariant ctx.Holds(m) && fresh(ctx) && fresh(ctx.buffer)
    {
      ctx.Update(chunks[i], m);
      FlattenGrows(chunks, i);
      m := m + chunks[i];
      i := i + 1;
    }
    assert chunks[..i] == chunks;
    digest := ctx.Final(m);
  }
}
