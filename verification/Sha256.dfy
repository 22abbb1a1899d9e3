// SHA-256 as scripts/mkhash.c computes it, against FIPS 180-4.
module Sha256 {
  import opened Words
  import opened Blocks

  // ----- FIPS 180-4, sections 4.1.2 and 4.2.2 -----

  function BigSigma0(x: Word): Word { Xor(Xor(RotR(x, 2), RotR(x, 13)), RotR(x, 22)) }
  function BigSigma1(x: Word): Word { Xor(Xor(RotR(x, 6), RotR(x, 11)), RotR(x, 25)) }
  function SmallSigma0(x: Word): Word { Xor(Xor(RotR(x, 7), RotR(x, 18)), ShiftR(x, 3)) }
  function SmallSigma1(x: Word): Word { Xor(Xor(RotR(x, 17), RotR(x, 19)), ShiftR(x, 10)) }

  // Which bits of the word the bits of these functions are sums of.
  predicate OddBits(x: Word, i: bv32, j: bv32, k: bv32)
    requires i < 32 && j < 32 && k < 32
  {
    (Bit(x, i) != Bit(x, j)) != Bit(x, k)
  }

  /** Bit by bit, as the standard defines rotations and shifts in section 3.2. */
  lemma SigmaBits(x: Word, k: bv32)
    requires k < 32
    ensures Bit(BigSigma0(x), k) <==> OddBits(x, (k + 2) % 32, (k + 13) % 32, (k + 22) % 32)
    ensures Bit(BigSigma1(x), k) <==> OddBits(x, (k + 6) % 32, (k + 11) % 32, (k + 25) % 32)
  {
    hide Bit, RotR, Xor;
    RotRBit(x, 2, k);
    RotRBit(x, 13, k);
    RotRBit(x, 22, k);
    RotRBit(x, 6, k);
    RotRBit(x, 11, k);
    RotRBit(x, 25, k);
    XorBit(RotR(x, 2), RotR(x, 13), k);
    XorBit(Xor(RotR(x, 2), RotR(x, 13)), RotR(x, 22), k);
    XorBit(RotR(x, 6), RotR(x, 11), k);
    XorBit(Xor(RotR(x, 6), RotR(x, 11)), RotR(x, 25), k);
  }

  lemma ScheduleBits(x: Word, k: bv32)
    requires k < 32
    ensures Bit(SmallSigma0(x), k) <==> (Bit(x, (k + 7) % 32) != Bit(x, (k + 18) % 32)) != (k + 3 < 32 && Bit(x, k + 3))
    ensures Bit(SmallSigma1(x), k) <==> (Bit(x, (k + 17) % 32) != Bit(x, (k + 19) % 32)) != (k + 10 < 32 && Bit(x, k + 10))
  {
    hide Bit, RotR, ShiftR, Xor;
    RotRBit(x, 7, k);
    RotRBit(x, 18, k);
    ShiftRBit(x, 3, k);
    RotRBit(x, 17, k);
    RotRBit(x, 19, k);
    ShiftRBit(x, 10, k);
    XorBit(RotR(x, 7), RotR(x, 18), k);
    XorBit(Xor(RotR(x, 7), RotR(x, 18)), ShiftR(x, 3), k);
    XorBit(RotR(x, 17), RotR(x, 19), k);
    XorBit(Xor(RotR(x, 17), RotR(x, 19)), ShiftR(x, 10), k);
  }

  function ChooseBits(x: bv32, y: bv32, z: bv32): bv32 { (x & y) ^ (!x & z) }
  function MajorityBits(x: bv32, y: bv32, z: bv32): bv32 { (x & y) ^ (x & z) ^ (y & z) }

  function Choose(x: Word, y: Word, z: Word): Word { FromBits(ChooseBits(Bits(x), Bits(y), Bits(z))) }
  function Majority(x: Word, y: Word, z: Word): Word { FromBits(MajorityBits(Bits(x), Bits(y), Bits(z))) }

  /** The round constants. */
  function KAt(t: nat): Word
    requires t < 64
  {
    match t
    case 0 => 0x428a2f98 case 1 => 0x71374491 case 2 => 0xb5c0fbcf case 3 => 0xe9b5dba5
    case 4 => 0x3956c25b case 5 => 0x59f111f1 case 6 => 0x923f82a4 case 7 => 0xab1c5ed5
    case 8 => 0xd807aa98 case 9 => 0x12835b01 case 10 => 0x243185be case 11 => 0x550c7dc3
    case 12 => 0x72be5d74 case 13 => 0x80deb1fe case 14 => 0x9bdc06a7 case 15 => 0xc19bf174
    case 16 => 0xe49b69c1 case 17 => 0xefbe4786 case 18 => 0x0fc19dc6 case 19 => 0x240ca1cc
    case 20 => 0x2de92c6f case 21 => 0x4a7484aa case 22 => 0x5cb0a9dc case 23 => 0x76f988da
    case 24 => 0x983e5152 case 25 => 0xa831c66d case 26 => 0xb00327c8 case 27 => 0xbf597fc7
    case 28 => 0xc6e00bf3 case 29 => 0xd5a79147 case 30 => 0x06ca6351 case 31 => 0x14292967
    case 32 => 0x27b70a85 case 33 => 0x2e1b2138 case 34 => 0x4d2c6dfc case 35 => 0x53380d13
    case 36 => 0x650a7354 case 37 => 0x766a0abb case 38 => 0x81c2c92e case 39 => 0x92722c85
    case 40 => 0xa2bfe8a1 case 41 => 0xa81a664b case 42 => 0xc24b8b70 case 43 => 0xc76c51a3
    case 44 => 0xd192e819 case 45 => 0xd6990624 case 46 => 0xf40e3585 case 47 => 0x106aa070
    case 48 => 0x19a4c116 case 49 => 0x1e376c08 case 50 => 0x2748774c case 51 => 0x34b0bcb5
    case 52 => 0x391c0cb3 case 53 => 0x4ed8aa4a case 54 => 0x5b9cca4f case 55 => 0x682e6ff3
    case 56 => 0x748f82ee case 57 => 0x78a5636f case 58 => 0x84c87814 case 59 => 0x8cc70208
    case 60 => 0x90befffa case 61 => 0xa4506ceb case 62 => 0xbef9a3f7 case _ => 0xc67178f2
  }

  // ----- FIPS 180-4, section 6.2.2 -----

  /** The message schedule. */
  function Schedule(block: seq<Byte>, t: nat): Word
    requires |block| == 64 && t < 64
  {
    if t < 16 then WordBE(block[4 * t], block[4 * t + 1], block[4 * t + 2], block[4 * t + 3])
    else
      Plus(Plus(Plus(SmallSigma1(Schedule(block, t - 2)), Schedule(block, t - 7)),
                SmallSigma0(Schedule(block, t - 15))), Schedule(block, t - 16))
  }

  datatype Regs = Regs(a: Word, b: Word, c: Word, d: Word, e: Word, f: Word, g: Word, h: Word)

  function Round(r: Regs, k: Word, w: Word): Regs {
    var t1 := Plus(Plus(Plus(Plus(r.h, BigSigma1(r.e)), Choose(r.e, r.f, r.g)), k), w);
    var t2 := Plus(BigSigma0(r.a), Majority(r.a, r.b, r.c));
    Regs(Plus(t1, t2), r.a, r.b, r.c, Plus(r.d, t1), r.e, r.f, r.g)
  }

  /** The working variables after n rounds. */
  function Rounds(r: Regs, block: seq<Byte>, n: nat): Regs
    requires |block| == 64 && n <= 64
  {
    if n == 0 then r else Round(Rounds(r, block, n - 1), KAt(n - 1), Schedule(block, n - 1))
  }

  function Add(r: Regs, s: Regs): Regs {
    Regs(Plus(r.a, s.a), Plus(r.b, s.b), Plus(r.c, s.c), Plus(r.d, s.d),
         Plus(r.e, s.e), Plus(r.f, s.f), Plus(r.g, s.g), Plus(r.h, s.h))
  }

  /** The compression function. */
  function Compress(r: Regs, block: Block): Regs {
    Add(Rounds(r, block, 64), r)
  }

  // ----- the functions as the program writes them -----

  function ChBits(x: bv32, y: bv32, z: bv32): bv32 { (x & (y ^ z)) ^ z }
  function MajBits(x: bv32, y: bv32, z: bv32): bv32 { (x & (y | z)) | (y & z) }

  function Ch(x: Word, y: Word, z: Word): Word { FromBits(ChBits(Bits(x), Bits(y), Bits(z))) }
  function Maj(x: Word, y: Word, z: Word): Word { FromBits(MajBits(Bits(x), Bits(y), Bits(z))) }

  lemma ChBitsIsChooseBits(x: bv32, y: bv32, z: bv32)
    ensures ChBits(x, y, z) == ChooseBits(x, y, z)
  {
    assert (x & (y ^ z)) ^ z == (x & y) ^ (!x & z);
  }

  lemma MajBitsIsMajorityBits(x: bv32, y: bv32, z: bv32)
    ensures MajBits(x, y, z) == MajorityBits(x, y, z)
  {
    assert (x & (y | z)) | (y & z) == (x & y) ^ (x & z) ^ (y & z);
  }

  /** The rewritten Ch is the function of the standard. */
  lemma ChIsChoose(x: Word, y: Word, z: Word)
    ensures Ch(x, y, z) == Choose(x, y, z)
  {
    hide ChBits, ChooseBits, Bits, FromBits;
    ChBitsIsChooseBits(Bits(x), Bits(y), Bits(z));
  }

  /** The rewritten Maj is the function of the standard. */
  lemma MajIsMajority(x: Word, y: Word, z: Word)
    ensures Maj(x, y, z) == Majority(x, y, z)
  {
    hide MajBits, MajorityBits, Bits, FromBits;
    MajBitsIsMajorityBits(Bits(x), Bits(y), Bits(z));
  }

  // The order in which the program adds up the first temporary word.
  lemma Sum(h: Word, s: Word, c: Word, w: Word, k: Word)
    ensures Plus(h, Plus(Plus(Plus(s, c), w), k)) == Plus(Plus(Plus(Plus(h, s), c), k), w)
  {
    hide Plus;
    PlusAssoc(Plus(s, c), w, k);
    PlusComm(w, k);
    PlusAssoc(h, Plus(s, c), Plus(k, w));
    PlusAssoc(h, s, c);
    PlusAssoc(Plus(Plus(h, s), c), k, w);
  }

  // Where variable number j is kept after i rounds.
  function Place(i: nat, j: nat): (p: nat)
    requires i <= 16 && j < 8
    ensures p < 8
  {
    (64 + j - i) % 8
  }

  lemma PlacesTurn(i: nat)
    requires i < 16
    ensures Place(i + 1, 0) == Place(i, 7)
    ensures forall j | 0 <= j < 7 :: Place(i + 1, j + 1) == Place(i, j)
    ensures forall j, k | 0 <= j < k < 8 :: Place(i, j) != Place(i, k)
  {
  }

  // The registers: in every round the variables move on by one place, and nothing is copied.
  function View(s: seq<Word>, i: nat): Regs
    requires |s| == 8 && i <= 16
  {
    Regs(s[Place(i, 0)], s[Place(i, 1)], s[Place(i, 2)], s[Place(i, 3)],
         s[Place(i, 4)], s[Place(i, 5)], s[Place(i, 6)], s[Place(i, 7)])
  }

  lemma RoundsAreSame(r: Regs, k: Word, w: Word)
    ensures var h := Plus(r.h, Plus(Plus(Plus(BigSigma1(r.e), Ch(r.e, r.f, r.g)), w), k));
      Round(r, k, w) == Regs(Plus(h, Plus(BigSigma0(r.a), Maj(r.a, r.b, r.c))), r.a, r.b, r.c, Plus(r.d, h), r.e, r.f, r.g)
  {
    hide Plus, BigSigma0, BigSigma1, Ch, Maj, Choose, Majority;
    Sum(r.h, BigSigma1(r.e), Ch(r.e, r.f, r.g), w, k);
    ChIsChoose(r.e, r.f, r.g);
    MajIsMajority(r.a, r.b, r.c);
  }

  // One round in place: only the places of d and h change.
  method MixRound(s: array<Word>, w: array<Word>, i: nat, ii: nat, ghost r: Regs, ghost block: seq<Byte>)
    requires s.Length == 8 && w.Length == 64 && s != w && i < 16 && ii <= 48 && |block| == 64
    requires View(s[..], i) == Rounds(r, block, ii + i) && w[i + ii] == Schedule(block, i + ii)
    modifies s
    ensures View(s[..], i + 1) == Rounds(r, block, ii + i + 1)
  {
    hide Plus, Schedule, BigSigma0, BigSigma1, Ch, Maj, KAt, Round, Place;
    PlacesTurn(i);
    var a, b, c, d := Place(i, 0), Place(i, 1), Place(i, 2), Place(i, 3);
    var e, f, g, h := Place(i, 4), Place(i, 5), Place(i, 6), Place(i, 7);
    RoundsAreSame(View(s[..], i), KAt(i + ii), w[i + ii]);
    s[h] := Plus(s[h], Plus(Plus(Plus(BigSigma1(s[e]), Ch(s[e], s[f], s[g])), w[i + ii]), KAt(i + ii)));
    s[d] := Plus(s[d], s[h]);
    s[h] := Plus(s[h], Plus(BigSigma0(s[a]), Maj(s[a], s[b], s[c])));
  }

  // ----- SHA256_Transform -----

  function Load(s: seq<Word>): Regs
    requires |s| == 8
  {
    Regs(s[0], s[1], s[2], s[3], s[4], s[5], s[6], s[7])
  }

  lemma ViewAtEnds(s: seq<Word>)
    requires |s| == 8
    ensures View(s, 0) == Load(s) == View(s, 16)
  {
  }

  // The first n words of the message schedule are filled in.
  ghost predicate Scheduled(w: seq<Word>, block: seq<Byte>, n: nat)
    requires |w| == 64 && |block| == 64 && n <= 64
  {
    forall t | 0 <= t < n :: w[t] == Schedule(block, t)
  }

  method ScheduleWord(w: array<Word>, ii: nat, i: nat, ghost block: seq<Byte>)
    requires w.Length == 64 && |block| == 64 && i + ii + 16 < 64
    requires Scheduled(w[..], block, i + ii + 16)
    modifies w
    ensures Scheduled(w[..], block, i + ii + 17)
  {
    hide Plus, SmallSigma0, SmallSigma1;
    w[i + ii + 16] :=
      Plus(Plus(Plus(SmallSigma1(w[i + ii + 14]), w[i + ii + 9]), SmallSigma0(w[i + ii + 1])), w[i + ii]);
  }

  method MixBatch(s: array<Word>, w: array<Word>, i: nat, ghost r: Regs, ghost block: seq<Byte>)
    requires s.Length == 8 && w.Length == 64 && s != w && |block| == 64 && i <= 48
    requires Scheduled(w[..], block, i + 16) && Load(s[..]) == Rounds(r, block, i)
    modifies s
    ensures Load(s[..]) == Rounds(r, block, i + 16)
  {
    hide Schedule, Rounds, View, Load;
    ViewAtEnds(s[..]);
    MixRound(s, w, 0, i, r, block);
    MixRound(s, w, 1, i, r, block);
    MixRound(s, w, 2, i, r, block);
    MixRound(s, w, 3, i, r, block);
    MixRound(s, w, 4, i, r, block);
    MixRound(s, w, 5, i, r, block);
    MixRound(s, w, 6, i, r, block);
    MixRound(s, w, 7, i, r, block);
    MixRound(s, w, 8, i, r, block);
    MixRound(s, w, 9, i, r, block);
    MixRound(s, w, 10, i, r, block);
    MixRound(s, w, 11, i, r, block);
    MixRound(s, w, 12, i, r, block);
    MixRound(s, w, 13, i, r, block);
    MixRound(s, w, 14, i, r, block);
    MixRound(s, w, 15, i, r, block);
    ViewAtEnds(s[..]);
  }

  method ScheduleBatch(w: array<Word>, i: nat, ghost block: seq<Byte>)
    requires w.Length == 64 && |block| == 64 && i <= 32 && Scheduled(w[..], block, i + 16)
    modifies w
    ensures Scheduled(w[..], block, i + 32)
  {
    hide Scheduled;
    ScheduleWord(w, 0, i, block);
    ScheduleWord(w, 1, i, block);
    ScheduleWord(w, 2, i, block);
    ScheduleWord(w, 3, i, block);
    ScheduleWord(w, 4, i, block);
    ScheduleWord(w, 5, i, block);
    ScheduleWord(w, 6, i, block);
    ScheduleWord(w, 7, i, block);
    ScheduleWord(w, 8, i, block);
    ScheduleWord(w, 9, i, block);
    ScheduleWord(w, 10, i, block);
    ScheduleWord(w, 11, i, block);
    ScheduleWord(w, 12, i, block);
    ScheduleWord(w, 13, i, block);
    ScheduleWord(w, 14, i, block);
    ScheduleWord(w, 15, i, block);
  }

  // be32dec and be32dec_vect.
  function Be16Dec(b0: Byte, b1: Byte): (r: nat)
    ensures r < 0x1_0000
  {
    0x100 * b0 + b1
  }

  function Be32Dec(b0: Byte, b1: Byte, b2: Byte, b3: Byte): Word {
    0x1_0000 * Be16Dec(b0, b1) + Be16Dec(b2, b3)
  }

  method Be32DecVect(w: array<Word>, block: seq<Byte>)
    requires w.Length == 64 && |block| == 64
    modifies w
    ensures Scheduled(w[..], block, 16)
  {
    var i := 0;
    while i < 16
      invariant 0 <= i <= 16 && Scheduled(w[..], block, i)
    {
      w[i] := Be32Dec(block[4 * i], block[4 * i + 1], block[4 * i + 2], block[4 * i + 3]);
      i := i + 1;
    }
  }

  /** SHA256_Transform computes the compression function of FIPS 180-4, section 6.2.2. */
  method Transform(state: array<Word>, block: seq<Byte>)
    requires state.Length == 8 && |block| == 64
    modifies state
    ensures Load(state[..]) == Compress(Load(old(state[..])), block)
  {
    hide Scheduled, Rounds, Plus;
    ghost var r := Load(state[..]);
    var w := new Word[64](_ => 0);
    Be32DecVect(w, block);
    var s := new Word[8](i requires 0 <= i < 8 reads state => state[i]);
    assert s[..] == state[..];
    ZeroRounds(r, block);
    var i := 0;
    while i < 64
      invariant i == 0 || i == 16 || i == 32 || i == 48
      invariant fresh(s) && fresh(w) && s != w && state[..] == old(state[..])
      invariant Scheduled(w[..], block, i + 16) && Load(s[..]) == Rounds(r, block, i)
      decreases 64 - i
    {
      MixBatch(s, w, i, r, block);
      if i == 48 {
        break;
      }
      ScheduleBatch(w, i, block);
      i := i + 16;
    }
    AddUp(state, s);
  }

  lemma ZeroRounds(r: Regs, block: seq<Byte>)
    requires |block| == 64
    ensures Rounds(r, block, 0) == r
  {
  }

  method AddUp(state: array<Word>, s: array<Word>)
    requires state.Length == 8 && s.Length == 8 && state != s
    modifies state
    ensures Load(state[..]) == Add(Load(s[..]), old(Load(state[..])))
  {
    hide Plus;
    var i := 0;
    while i < 8
      invariant 0 <= i <= 8
      invariant forall k | 0 <= k < i :: state[k] == Plus(s[k], old(state[k]))
      invariant forall k | i <= k < 8 :: state[k] == old(state[k])
    {
      PlusComm(state[i], s[i]);
      state[i] := Plus(state[i], s[i]);
      i := i + 1;
    }
  }

  // ----- FIPS 180-4, sections 5.1.1, 5.3.3 and 6.2 -----

  const H0: Regs := Regs(0x6a09e667, 0xbb67ae85, 0x3c6ef372, 0xa54ff53a, 0x510e527f, 0x9b05688c, 0x1f83d9ab, 0x5be0cd19)

  function Stored(r: Regs): (s: seq<Word>)
    ensures |s| == 8 && Load(s) == r
  {
    [r.a, r.b, r.c, r.d, r.e, r.f, r.g, r.h]
  }

  function Concat(ws: seq<Word>): (s: seq<Byte>)
    ensures |s| == 4 * |ws|
  {
    if ws == [] then [] else BytesBE(ws[0]) + Concat(ws[1..])
  }

  /** Four bytes for each word, in order. */
  lemma ConcatAt(ws: seq<Word>, i: nat)
    requires i < |ws|
    ensures Concat(ws)[4 * i..4 * i + 4] == BytesBE(ws[i])
  {
    if i > 0 {
      ConcatAt(ws[1..], i - 1);
    }
  }

  /** The padding of the standard: the last 8 bytes hold the number of bits. */
  function Padded(m: seq<Byte>): (p: seq<Byte>)
    ensures |p| % BLOCK == 0 && m <= p
  {
    m + Padding(|m|, LongBE(BitLength(|m|)))
  }

  /** The hash of a message. */
  function Hash(m: seq<Byte>): (digest: seq<Byte>)
    ensures |digest| == 32
  {
    Concat(Stored(Fold(Compress, H0, Padded(m))))
  }

  // ----- the context -----

  function PAD(): (p: seq<Byte>)
    ensures |p| == 64
  {
    [0x80] + Zeros(63)
  }

  lemma PadPrefix(n: nat)
    requires 0 < n <= 64
    ensures PAD()[..n] == [0x80] + Zeros(n - 1)
  {
  }

  class Context {
    const state: array<Word>
    const buf: array<Byte>
    var count: Long

    /** The context stands for the message m. */
    ghost predicate Holds(m: seq<Byte>)
      reads this, state, buf
    {
      state.Length == 8 && (state as object) != (buf as object) && count == BitLength(|m|) && Absorbed(Compress, H0, m, Load(state[..]), buf[..])
    }

    lemma HoldsFacts(m: seq<Byte>)
      requires Holds(m)
      ensures state.Length == 8 && buf.Length == BLOCK && (state as object) != (buf as object)
      ensures count == BitLength(|m|) && Absorbed(Compress, H0, m, Load(state[..]), buf[..])
    {
    }

    /** SHA256_Init. */
    constructor ()
      ensures Holds([]) && fresh(state) && fresh(buf)
    {
      state := new Word[8];
      buf := new Byte[BLOCK](_ => 0);
      count := 0;
      new;
      state[0], state[1], state[2], state[3] := 0x6A09E667, 0xBB67AE85, 0x3C6EF372, 0xA54FF53A;
      state[4], state[5], state[6], state[7] := 0x510E527F, 0x9B05688C, 0x1F83D9AB, 0x5BE0CD19;
      AbsorbedStart(Compress, H0, buf[..]);
    }
    // Fill up the buffer with data and compress it.
    method FinishBlock(r: nat, data: seq<Byte>, ghost m: seq<Byte>)
      requires state.Length == 8 && (state as object) != (buf as object)
      requires Absorbed(Compress, H0, m, Load(state[..]), buf[..]) && r == |m| % BLOCK && r + |data| == BLOCK
      modifies state, buf
      ensures |m + data| % BLOCK == 0 && Load(state[..]) == Fold(Compress, H0, m + data)
    {
      hide Compress;
      AbsorbFill(Compress, H0, m, Load(state[..]), buf[..], data);
      ghost var block := buf[..r] + data;
      Copy(buf, r, data);
      assert buf[..] == block;
      Transform(state, buf[..]);
    }

    /** SHA256_Update. */
    method Update(data: seq<Byte>, ghost m: seq<Byte>)
      requires Holds(m)
      modifies this`count, state, buf
      ensures Holds(m + data)
    {
      hide Compress, Load, BitLength, Fold, Absorbed;
      HoldsFacts(m);
      var r := count / 8 % 64;
      BitLengthBytes(|m|);
      BitLengthAdds(|m|, |data|);
      var bitlen := 8 * |data| % 0x1_0000_0000_0000_0000;
      count := (count + bitlen) % 0x1_0000_0000_0000_0000;
      if |data| < 64 - r {
        ghost var b := buf[..];
        Copy(buf, r, data);
        AbsorbShort(Compress, H0, m, Load(state[..]), b, data, buf[..]);
      } else {
        FinishBlock(r, data[..64 - r], m);
        AddBlocks(data[64 - r..], m + data[..64 - r]);
        assert m + data[..64 - r] + data[64 - r..] == m + data;
      }
    }

    // Compress the block of data at src.
    method CompressBlock(data: seq<Byte>, src: nat, ghost m: seq<Byte>)
      requires state.Length == 8 && src + 64 <= |data|
      requires |m + data[..src]| % BLOCK == 0 && Load(state[..]) == Fold(Compress, H0, m + data[..src])
      modifies state
      ensures |m + data[..src + 64]| % BLOCK == 0 && Load(state[..]) == Fold(Compress, H0, m + data[..src + 64])
    {
      hide Compress, Load;
      Transform(state, data[src..src + 64]);
      AbsorbBlock(Compress, H0, m + data[..src], data[src..src + 64]);
      assert m + data[..src] + data[src..src + 64] == m + data[..src + 64];
    }

    // Compress the complete blocks of data, and copy the rest into the buffer.
    method AddBlocks(data: seq<Byte>, ghost m: seq<Byte>)
      requires state.Length == 8 && buf.Length == 64 && (state as object) != (buf as object)
      requires |m| % BLOCK == 0 && Load(state[..]) == Fold(Compress, H0, m)
      modifies state, buf
      ensures Absorbed(Compress, H0, m + data, Load(state[..]), buf[..])
    {
      hide Compress, Load, Fold, Absorbed;
      var src, len := 0, |data|;
      assert m + data[..0] == m;
      while len >= 64
        invariant 0 <= src && len == |data| - src >= 0 && |m + data[..src]| % 64 == 0
        invariant Load(state[..]) == Fold(Compress, H0, m + data[..src])
      {
        CompressBlock(data, src, m);
        src, len := src + 64, len - 64;
      }
      Copy(buf, 0, data[src..]);
      AbsorbRest(Compress, H0, m + data[..src], buf[..], data[src..]);
      assert m + data[..src] + data[src..] == m + data;
    }

    // The first part of SHA256_Pad: the padding up to the length.
    method PadTo56(r: nat, ghost m: seq<Byte>)
      requires state.Length == 8 && buf.Length == 64 && (state as object) != (buf as object)
      requires Absorbed(Compress, H0, m, Load(state[..]), buf[..]) && r == |m| % 64
      modifies state, buf
      ensures var start := m + PadStart(r); |start| % 64 == 56 && Absorbed(Compress, H0, start, Load(state[..]), buf[..])
    {
      hide Compress, Load, Fold, Absorbed, PAD, Zeros;
      if r < 56 {
        var pad := PAD()[..56 - r];
        PadPrefix(56 - r);
        ghost var b := buf[..];
        Copy(buf, r, pad);
        AbsorbShort(Compress, H0, m, Load(state[..]), b, pad, buf[..]);
      } else {
        PadPrefix(64 - r);
        PadTwoBlocks(r, PAD()[..64 - r], m);
      }
    }

    // The padding that fills up one block and starts another.
    method PadTwoBlocks(r: nat, pad: seq<Byte>, ghost m: seq<Byte>)
      requires state.Length == 8 && buf.Length == 64 && (state as object) != (buf as object)
      requires Absorbed(Compress, H0, m, Load(state[..]), buf[..]) && r == |m| % 64 && r + |pad| == 64
      modifies state, buf
      ensures Absorbed(Compress, H0, m + (pad + Zeros(56)), Load(state[..]), buf[..])
    {
      hide Compress, Load, Fold, Absorbed, Zeros;
      FinishBlock(r, pad, m);
      var zeros := Zeros(56);
      Copy(buf, 0, zeros);
      AbsorbRest(Compress, H0, m + pad, buf[..], zeros);
      assert m + pad + zeros == m + (pad + zeros);
    }

    /** SHA256_Pad. */
    method Pad(ghost m: seq<Byte>)
      requires Holds(m)
      modifies state, buf
      ensures Load(state[..]) == Fold(Compress, H0, Padded(m))
    {
      hide Compress, Load, BitLength, Fold, Absorbed, Padding, PadStart;
      HoldsFacts(m);
      var r := count / 8 % 64;
      BitLengthBytes(|m|);
      PaddingParts(|m|, LongBE(count));
      PadTo56(r, m);
      FinishBlock(56, LongBE(count), m + PadStart(r));
      assert m + PadStart(r) + LongBE(count) == Padded(m);
    }

    /** SHA256_Final. */
    method Final(ghost m: seq<Byte>) returns (digest: seq<Byte>)
      requires Holds(m)
      modifies this`count, state, buf
      ensures digest == Hash(m)
      ensures count == 0 && (forall w <- state[..] :: w == 0) && forall b <- buf[..] :: b == 0
    {
      hide Compress, Fold, Absorbed, Padded, BytesBE;
      HoldsFacts(m);
      Pad(m);
      digest := Concat(state[..]);
      assert state[..] == Stored(Load(state[..]));
      forall i | 0 <= i < state.Length { state[i] := 0; }
      forall i | 0 <= i < buf.Length { buf[i] := 0; }
      count := 0;
    }
  }

  /** sha256_hash: the digest does not depend on how the message is cut into chunks. */
  method HashFile(chunks: seq<seq<Byte>>) returns (digest: seq<Byte>)
    ensures digest == Hash(Flatten(chunks))
  {
    hide *;
    var ctx := new Context();
    ghost var m: seq<Byte> := [];
    FlattenGrows(chunks, 0);
    var i := 0;
    while i < |chunks|
      invariant 0 <= i <= |chunks| && m == Flatten(chunks[..i])
      invariant ctx.Holds(m) && fresh(ctx) && fresh(ctx.state) && fresh(ctx.buf)
    {
      ctx.Update(chunks[i], m);
      FlattenGrows(chunks, i);
      m := m + chunks[i];
      i := i + 1;
    }
    assert chunks[..i] == chunks;
    digest := ctx.Final(m);
  }
}
