// The constants of SHA-256 are what FIPS 180-4 says they are: the first bits of the fractional parts of
// the roots of the first primes (sections 4.2.2 and 5.3.3).
module Primes {
  import opened Words
  import opened Sha256

  // ----- the first 64 primes -----

  predicate IsPrime(n: nat) {
    n >= 2 && forall d :: 2 <= d < n ==> n % d != 0
  }

  /** The primes, from the first one on. */
  function Prime(t: nat): nat {
    match t
    case 0 => 2 case 1 => 3 case 2 => 5 case 3 => 7 case 4 => 11 case 5 => 13 case 6 => 17 case 7 => 19
    case 8 => 23 case 9 => 29 case 10 => 31 case 11 => 37 case 12 => 41 case 13 => 43 case 14 => 47 case 15 => 53
    case 16 => 59 case 17 => 61 case 18 => 67 case 19 => 71 case 20 => 73 case 21 => 79 case 22 => 83 case 23 => 89
    case 24 => 97 case 25 => 101 case 26 => 103 case 27 => 107 case 28 => 109 case 29 => 113 case 30 => 127 case 31 => 131
    case 32 => 137 case 33 => 139 case 34 => 149 case 35 => 151 case 36 => 157 case 37 => 163 case 38 => 167 case 39 => 173
    case 40 => 179 case 41 => 181 case 42 => 191 case 43 => 193 case 44 => 197 case 45 => 199 case 46 => 211 case 47 => 223
    case 48 => 227 case 49 => 229 case 50 => 233 case 51 => 239 case 52 => 241 case 53 => 251 case 54 => 257 case 55 => 263
    case 56 => 269 case 57 => 271 case 58 => 277 case 59 => 281 case 60 => 283 case 61 => 293 case 62 => 307 case _ => 311
  }

  predicate Passes(n: nat, p: nat)
    requires p > 0
  {
    n == p || n % p != 0
  }

  // No small prime divides n, except n itself.
  predicate PassesTest(n: nat) {
    n >= 2 && Passes(n, 2) && Passes(n, 3) && Passes(n, 5) && Passes(n, 7) && Passes(n, 11) && Passes(n, 13) && Passes(n, 17)
  }

  lemma FactorOf(n: nat, p: nat, k: nat)
    requires p > 0 && n == p * k
    ensures n % p == 0
  {
    var q, r := n / p, n % p;
    assert n == p * q + r;
    Multiples(p, q, k);
    Multiples(p, k, q);
  }

  lemma Multiples(p: nat, a: nat, b: nat)
    ensures a < b ==> p * a + p <= p * b
  {
    if a < b {
      var d := b - a - 1;
      assert p * b == p * a + p * (d + 1) == p * a + p * d + p;
    }
  }

  lemma Divides(n: nat, c: nat, p: nat)
    requires c > 0 && p > 0 && n % c == 0 && c % p == 0
    ensures n % p == 0
  {
    var j, k := n / c, c / p;
    assert n == c * j && c == p * k;
    assert p * k * j == p * (k * j);
    FactorOf(n, p, k * j);
  }

  // A number below 19 * 19 with a proper divisor has one below 19.
  lemma SmallDivisor(n: nat, d: nat) returns (c: nat)
    requires n < 361 && 2 <= d < n && n % d == 0
    ensures 2 <= c < 19 && c < n && n % c == 0
  {
    c := d;
    if d >= 19 {
      c := n / d;
      assert n == d * c;
      FactorBounds(d, c);
      FactorOf(n, c, d);
    }
  }

  lemma FactorBounds(d: nat, e: nat)
    requires d >= 19 && d < d * e < 361
    ensures 2 <= e < 19
  {
    assert d * e == 19 * e + (d - 19) * e;
  }

  lemma SmallFactor(c: nat) returns (p: nat)
    requires 2 <= c < 19
    ensures 0 < p <= c && c % p == 0
    ensures p == 2 || p == 3 || p == 5 || p == 7 || p == 11 || p == 13 || p == 17
  {
    p := if c % 2 == 0 then 2 else if c % 3 == 0 then 3 else c;
  }

  lemma PassedIsPrime(n: nat)
    requires n < 361 && PassesTest(n)
    ensures IsPrime(n)
  {
    forall d | 2 <= d < n ensures n % d != 0 {
      if n % d == 0 {
        var c := SmallDivisor(n, d);
        var p := SmallFactor(c);
        Divides(n, c, p);
      }
    }
  }

  lemma NotPassedIsComposite(n: nat)
    requires !PassesTest(n)
    ensures !IsPrime(n)
  {
    if n >= 2 {
      var p := if !Passes(n, 2) then 2 else if !Passes(n, 3) then 3 else if !Passes(n, 5) then 5 else if !Passes(n, 7) then 7
        else if !Passes(n, 11) then 11 else if !Passes(n, 13) then 13 else 17;
      assert n != p && n % p == 0;
    }
  }

  /** They are primes, and there are no others between them or before the first. */
  lemma PrimesInOrder(t: nat)
    requires t < 63
    ensures Prime(0) == 2 && IsPrime(Prime(t)) && IsPrime(Prime(t + 1)) && Prime(t) < Prime(t + 1)
    ensures forall n :: Prime(t) < n < Prime(t + 1) ==> !IsPrime(n)
  {
    PrimesPass(t);
    PassedIsPrime(Prime(t));
    PassedIsPrime(Prime(t + 1));
    forall n | Prime(t) < n < Prime(t + 1) ensures !IsPrime(n) {
      NonePassMeans(Prime(t) + 1, Prime(t + 1), n);
      NotPassedIsComposite(n);
    }
  }

  // No number from a up to b passes the test.
  predicate NonePass(a: nat, b: nat)
    decreases b - a
  {
    a < b ==> !PassesTest(a) && NonePass(a + 1, b)
  }

  lemma {:induction false} NonePassMeans(a: nat, b: nat, n: nat)
    requires NonePass(a, b) && a <= n < b
    ensures !PassesTest(n)
    decreases b - a
  {
    if a < n {
      NonePassMeans(a + 1, b, n);
    }
  }

  predicate NextTo(t: nat)
    requires t < 63
  {
    Prime(t) < Prime(t + 1) < 361 && PassesTest(Prime(t)) && PassesTest(Prime(t + 1)) &&
    NonePass(Prime(t) + 1, Prime(t + 1))
  }

  lemma PrimesPass(t: nat)
    requires t < 63
    ensures NextTo(t)
  {
    if t < 8 {
      PrimesPass1(t);
    } else if t < 16 {
      PrimesPass2(t);
    } else if t < 24 {
      PrimesPass3(t);
    } else if t < 32 {
      PrimesPass4(t);
    } else if t < 40 {
      PrimesPass5(t);
    } else if t < 48 {
      PrimesPass6(t);
    } else if t < 56 {
      PrimesPass7(t);
    } else {
      PrimesPass8(t);
    }
  }

  lemma PrimesPass1(t: nat)
    requires 0 <= t < 8
    ensures NextTo(t)
  {
    if t == 0 {
      assert NonePass(3, 3) && PassesTest(2) && PassesTest(3);
    } else if t == 1 {
      assert NonePass(4, 5) && PassesTest(3) && PassesTest(5);
    } else if t == 2 {
      assert NonePass(6, 7) && PassesTest(5) && PassesTest(7);
    } else if t == 3 {
      assert NonePass(8, 11) && PassesTest(7) && PassesTest(11);
    } else if t == 4 {
      assert NonePass(12, 13) && PassesTest(11) && PassesTest(13);
    } else if t == 5 {
      assert NonePass(14, 17) && PassesTest(13) && PassesTest(17);
    } else if t == 6 {
      assert NonePass(18, 19) && PassesTest(17) && PassesTest(19);
    } else {
      assert NonePass(20, 23) && PassesTest(19) && PassesTest(23);
    }
  }

  lemma PrimesPass2(t: nat)
    requires 8 <= t < 16
    ensures NextTo(t)
  {
    if t == 8 {
      assert NonePass(24, 29) && PassesTest(23) && PassesTest(29);
    } else if t == 9 {
      assert NonePass(30, 31) && PassesTest(29) && PassesTest(31);
    } else if t == 10 {
      assert NonePass(32, 37) && PassesTest(31) && PassesTest(37);
    } else if t == 11 {
      assert NonePass(38, 41) && PassesTest(37) && PassesTest(41);
    } else if t == 12 {
      assert NonePass(42, 43) && PassesTest(41) && PassesTest(43);
    } else if t == 13 {
      assert NonePass(44, 47) && PassesTest(43) && PassesTest(47);
    } else if t == 14 {
      assert NonePass(48, 53) && PassesTest(47) && PassesTest(53);
    } else {
      assert NonePass(54, 59) && PassesTest(53) && PassesTest(59);
    }
  }

  lemma PrimesPass3(t: nat)
    requires 16 <= t < 24
    ensures NextTo(t)
  {
    if t == 16 {
      assert NonePass(60, 61) && PassesTest(59) && PassesTest(61);
    } else if t == 17 {
      assert NonePass(62, 67) && PassesTest(61) && PassesTest(67);
    } else if t == 18 {
      assert NonePass(68, 71) && PassesTest(67) && PassesTest(71);
    } else if t == 19 {
      assert NonePass(72, 73) && PassesTest(71) && PassesTest(73);
    } else if t == 20 {
      assert NonePass(74, 79) && PassesTest(73) && PassesTest(79);
    } else if t == 21 {
      assert NonePass(80, 83) && PassesTest(79) && PassesTest(83);
    } else if t == 22 {
      assert NonePass(84, 89) && PassesTest(83) && PassesTest(89);
    } else {
      assert NonePass(90, 97) && PassesTest(89) && PassesTest(97);
    }
  }

  lemma PrimesPass4(t: nat)
    requires 24 <= t < 32
    ensures NextTo(t)
  {
    if t == 24 {
      assert NonePass(98, 101) && PassesTest(97) && PassesTest(101);
    } else if t == 25 {
      assert NonePass(102, 103) && PassesTest(101) && PassesTest(103);
    } else if t == 26 {
      assert NonePass(104, 107) && PassesTest(103) && PassesTest(107);
    } else if t == 27 {
      assert NonePass(108, 109) && PassesTest(107) && PassesTest(109);
    } else if t == 28 {
      assert NonePass(110, 113) && PassesTest(109) && PassesTest(113);
    } else if t == 29 {
      assert NonePass(114, 127) && PassesTest(113) && PassesTest(127);
    } else if t == 30 {
      assert NonePass(128, 131) && PassesTest(127) && PassesTest(131);
    } else {
      assert NonePass(132, 137) && PassesTest(131) && PassesTest(137);
    }
  }

  lemma PrimesPass5(t: nat)
    requires 32 <= t < 40
    ensures NextTo(t)
  {
    if t == 32 {
      assert NonePass(138, 139) && PassesTest(137) && PassesTest(139);
    } else if t == 33 {
      assert NonePass(140, 149) && PassesTest(139) && PassesTest(149);
    } else if t == 34 {
      assert NonePass(150, 151) && PassesTest(149) && PassesTest(151);
    } else if t == 35 {
      assert NonePass(152, 157) && PassesTest(151) && PassesTest(157);
    } else if t == 36 {
      assert NonePass(158, 163) && PassesTest(157) && PassesTest(163);
    } else if t == 37 {
      assert NonePass(164, 167) && PassesTest(163) && PassesTest(167);
    } else if t == 38 {
      assert NonePass(168, 173) && PassesTest(167) && PassesTest(173);
    } else {
      assert NonePass(174, 179) && PassesTest(173) && PassesTest(179);
    }
  }

  lemma PrimesPass6(t: nat)
    requires 40 <= t < 48
    ensures NextTo(t)
  {
    if t == 40 {
      assert NonePass(180, 181) && PassesTest(179) && PassesTest(181);
    } else if t == 41 {
      assert NonePass(182, 191) && PassesTest(181) && PassesTest(191);
    } else if t == 42 {
      assert NonePass(192, 193) && PassesTest(191) && PassesTest(193);
    } else if t == 43 {
      assert NonePass(194, 197) && PassesTest(193) && PassesTest(197);
    } else if t == 44 {
      assert NonePass(198, 199) && PassesTest(197) && PassesTest(199);
    } else if t == 45 {
      assert NonePass(200, 211) && PassesTest(199) && PassesTest(211);
    } else if t == 46 {
      assert NonePass(212, 223) && PassesTest(211) && PassesTest(223);
    } else {
      assert NonePass(224, 227) && PassesTest(223) && PassesTest(227);
    }
  }

  lemma PrimesPass7(t: nat)
    requires 48 <= t < 56
    ensures NextTo(t)
  {
    if t == 48 {
      assert NonePass(228, 229) && PassesTest(227) && PassesTest(229);
    } else if t == 49 {
      assert NonePass(230, 233) && PassesTest(229) && PassesTest(233);
    } else if t == 50 {
      assert NonePass(234, 239) && PassesTest(233) && PassesTest(239);
    } else if t == 51 {
      assert NonePass(240, 241) && PassesTest(239) && PassesTest(241);
    } else if t == 52 {
      assert NonePass(242, 251) && PassesTest(241) && PassesTest(251);
    } else if t == 53 {
      assert NonePass(252, 257) && PassesTest(251) && PassesTest(257);
    } else if t == 54 {
      assert NonePass(258, 263) && PassesTest(257) && PassesTest(263);
    } else {
      assert NonePass(264, 269) && PassesTest(263) && PassesTest(269);
    }
  }

  lemma PrimesPass8(t: nat)
    requires 56 <= t < 63
    ensures NextTo(t)
  {
    if t == 56 {
      assert NonePass(270, 271) && PassesTest(269) && PassesTest(271);
    } else if t == 57 {
      assert NonePass(272, 277) && PassesTest(271) && PassesTest(277);
    } else if t == 58 {
      assert NonePass(278, 281) && PassesTest(277) && PassesTest(281);
    } else if t == 59 {
      assert NonePass(282, 283) && PassesTest(281) && PassesTest(283);
    } else if t == 60 {
      assert NonePass(284, 293) && PassesTest(283) && PassesTest(293);
    } else if t == 61 {
      assert NonePass(294, 307) && PassesTest(293) && PassesTest(307);
    } else {
      assert NonePass(308, 311) && PassesTest(307) && PassesTest(311);
    }
  }

  // ----- roots -----

  /** The integer part of the cube root of a prime below 343. */
  function CubePart(p: nat): nat {
    if p < 8 then 1 else if p < 27 then 2 else if p < 64 then 3 else if p < 125 then 4 else if p < 216 then 5 else 6
  }

  /** The integer part of the square root of a prime below 25. */
  function SquarePart(p: nat): nat {
    if p < 4 then 1 else if p < 9 then 2 else if p < 16 then 3 else 4
  }

  // k holds the first 32 bits of the fractional part of the cube root of p.
  predicate IsCubeRoot(p: nat, k: Word) {
    var x := 0x1_0000_0000 * CubePart(p) + k;
    x * x * x <= p * 0x1_0000_0000_0000_0000_0000_0000 < (x + 1) * (x + 1) * (x + 1)
  }

  predicate IsSquareRoot(p: nat, k: Word) {
    var x := 0x1_0000_0000 * SquarePart(p) + k;
    x * x <= p * 0x1_0000_0000_0000_0000 < (x + 1) * (x + 1)
  }

  /** The round constants are the first 32 bits of the fractional parts of the cube roots of the first 64
      primes. */
  lemma RoundConstants(t: nat)
    requires t < 64
    ensures IsCubeRoot(Prime(t), KAt(t))
  {
    if t < 4 {
      RoundConstants1(t);
    } else if t < 8 {
      RoundConstants2(t);
    } else if t < 12 {
      RoundConstants3(t);
    } else if t < 16 {
      RoundConstants4(t);
    } else if t < 20 {
      RoundConstants5(t);
    } else if t < 24 {
      RoundConstants6(t);
    } else if t < 28 {
      RoundConstants7(t);
    } else if t < 32 {
      RoundConstants8(t);
    } else if t < 36 {
      RoundConstants9(t);
    } else if t < 40 {
      RoundConstants10(t);
    } else if t < 44 {
      RoundConstants11(t);
    } else if t < 48 {
      RoundConstants12(t);
    } else if t < 52 {
      RoundConstants13(t);
    } else if t < 56 {
      RoundConstants14(t);
    } else if t < 60 {
      RoundConstants15(t);
    } else {
      RoundConstants16(t);
    }
  }

  lemma RoundConstants1(t: nat)
    requires 0 <= t < 4
    ensures IsCubeRoot(Prime(t), KAt(t))
  {
    if t == 0 {
      assert IsCubeRoot(2, 0x428a2f98);
    } else if t == 1 {
      assert IsCubeRoot(3, 0x71374491);
    } else if t == 2 {
      assert IsCubeRoot(5, 0xb5c0fbcf);
    } else {
      assert IsCubeRoot(7, 0xe9b5dba5);
    }
  }

  lemma RoundConstants2(t: nat)
    requires 4 <= t < 8
    ensures IsCubeRoot(Prime(t), KAt(t))
  {
    if t == 4 {
      assert IsCubeRoot(11, 0x3956c25b);
    } else if t == 5 {
      assert IsCubeRoot(13, 0x59f111f1);
    } else if t == 6 {
      assert IsCubeRoot(17, 0x923f82a4);
    } else {
      assert IsCubeRoot(19, 0xab1c5ed5);
    }
  }

  lemma RoundConstants3(t: nat)
    requires 8 <= t < 12
    ensures IsCubeRoot(Prime(t), KAt(t))
  {
    if t == 8 {
      assert IsCubeRoot(23, 0xd807aa98);
    } else if t == 9 {
      assert IsCubeRoot(29, 0x12835b01);
    } else if t == 10 {
      assert IsCubeRoot(31, 0x243185be);
    } else {
      assert IsCubeRoot(37, 0x550c7dc3);
    }
  }

  lemma RoundConstants4(t: nat)
    requires 12 <= t < 16
    ensures IsCubeRoot(Prime(t), KAt(t))
  {
    if t == 12 {
      assert IsCubeRoot(41, 0x72be5d74);
    } else if t == 13 {
      assert IsCubeRoot(43, 0x80deb1fe);
    } else if t == 14 {
      assert IsCubeRoot(47, 0x9bdc06a7);
    } else {
      assert IsCubeRoot(53, 0xc19bf174);
    }
  }

  lemma RoundConstants5(t: nat)
    requires 16 <= t < 20
    ensures IsCubeRoot(Prime(t), KAt(t))
  {
    if t == 16 {
      assert IsCubeRoot(59, 0xe49b69c1);
    } else if t == 17 {
      assert IsCubeRoot(61, 0xefbe4786);
    } else if t == 18 {
      assert IsCubeRoot(67, 0x0fc19dc6);
    } else {
      assert IsCubeRoot(71, 0x240ca1cc);
    }
  }

  lemma RoundConstants6(t: nat)
    requires 20 <= t < 24
    ensures IsCubeRoot(Prime(t), KAt(t))
  {
    if t == 20 {
      assert IsCubeRoot(73, 0x2de92c6f);
    } else if t == 21 {
      assert IsCubeRoot(79, 0x4a7484aa);
    } else if t == 22 {
      assert IsCubeRoot(83, 0x5cb0a9dc);
    } else {
      assert IsCubeRoot(89, 0x76f988da);
    }
  }

  lemma RoundConstants7(t: nat)
    requires 24 <= t < 28
    ensures IsCubeRoot(Prime(t), KAt(t))
  {
    if t == 24 {
      assert IsCubeRoot(97, 0x983e5152);
    } else if t == 25 {
      assert IsCubeRoot(101, 0xa831c66d);
    } else if t == 26 {
      assert IsCubeRoot(103, 0xb00327c8);
    } else {
      assert IsCubeRoot(107, 0xbf597fc7);
    }
  }

  lemma RoundConstants8(t: nat)
    requires 28 <= t < 32
    ensures IsCubeRoot(Prime(t), KAt(t))
  {
    if t == 28 {
      assert IsCubeRoot(109, 0xc6e00bf3);
    } else if t == 29 {
      assert IsCubeRoot(113, 0xd5a79147);
    } else if t == 30 {
      assert IsCubeRoot(127, 0x06ca6351);
    } else {
      assert IsCubeRoot(131, 0x14292967);
    }
  }

  lemma RoundConstants9(t: nat)
    requires 32 <= t < 36
    ensures IsCubeRoot(Prime(t), KAt(t))
  {
    if t == 32 {
      assert IsCubeRoot(137, 0x27b70a85);
    } else if t == 33 {
      assert IsCubeRoot(139, 0x2e1b2138);
    } else if t == 34 {
      assert IsCubeRoot(149, 0x4d2c6dfc);
    } else {
      assert IsCubeRoot(151, 0x53380d13);
    }
  }

  lemma RoundConstants10(t: nat)
    requires 36 <= t < 40
    ensures IsCubeRoot(Prime(t), KAt(t))
  {
    if t == 36 {
      assert IsCubeRoot(157, 0x650a7354);
    } else if t == 37 {
      assert IsCubeRoot(163, 0x766a0abb);
    } else if t == 38 {
      assert IsCubeRoot(167, 0x81c2c92e);
    } else {
      assert IsCubeRoot(173, 0x92722c85);
    }
  }

  lemma RoundConstants11(t: nat)
    requires 40 <= t < 44
    ensures IsCubeRoot(Prime(t), KAt(t))
  {
    if t == 40 {
      assert IsCubeRoot(179, 0xa2bfe8a1);
    } else if t == 41 {
      assert IsCubeRoot(181, 0xa81a664b);
    } else if t == 42 {
      assert IsCubeRoot(191, 0xc24b8b70);
    } else {
      assert IsCubeRoot(193, 0xc76c51a3);
    }
  }

  lemma RoundConstants12(t: nat)
    requires 44 <= t < 48
    ensures IsCubeRoot(Prime(t), KAt(t))
  {
    if t == 44 {
      assert IsCubeRoot(197, 0xd192e819);
    } else if t == 45 {
      assert IsCubeRoot(199, 0xd6990624);
    } else if t == 46 {
      assert IsCubeRoot(211, 0xf40e3585);
    } else {
      assert IsCubeRoot(223, 0x106aa070);
    }
  }

  lemma RoundConstants13(t: nat)
    requires 48 <= t < 52
    ensures IsCubeRoot(Prime(t), KAt(t))
  {
    if t == 48 {
      assert IsCubeRoot(227, 0x19a4c116);
    } else if t == 49 {
      assert IsCubeRoot(229, 0x1e376c08);
    } else if t == 50 {
      assert IsCubeRoot(233, 0x2748774c);
    } else {
      assert IsCubeRoot(239, 0x34b0bcb5);
    }
  }

  lemma RoundConstants14(t: nat)
    requires 52 <= t < 56
    ensures IsCubeRoot(Prime(t), KAt(t))
  {
    if t == 52 {
      assert IsCubeRoot(241, 0x391c0cb3);
    } else if t == 53 {
      assert IsCubeRoot(251, 0x4ed8aa4a);
    } else if t == 54 {
      assert IsCubeRoot(257, 0x5b9cca4f);
    } else {
      assert IsCubeRoot(263, 0x682e6ff3);
    }
  }

  lemma RoundConstants15(t: nat)
    requires 56 <= t < 60
    ensures IsCubeRoot(Prime(t), KAt(t))
  {
    if t == 56 {
      assert IsCubeRoot(269, 0x748f82ee);
    } else if t == 57 {
      assert IsCubeRoot(271, 0x78a5636f);
    } else if t == 58 {
      assert IsCubeRoot(277, 0x84c87814);
    } else {
      assert IsCubeRoot(281, 0x8cc70208);
    }
  }

  lemma RoundConstants16(t: nat)
    requires 60 <= t < 64
    ensures IsCubeRoot(Prime(t), KAt(t))
  {
    if t == 60 {
      assert IsCubeRoot(283, 0x90befffa);
    } else if t == 61 {
      assert IsCubeRoot(293, 0xa4506ceb);
    } else if t == 62 {
      assert IsCubeRoot(307, 0xbef9a3f7);
    } else {
      assert IsCubeRoot(311, 0xc67178f2);
    }
  }

  /** The initial hash value is made of the first 32 bits of the fractional parts of the square roots of
      the first 8 primes. */
  lemma InitialHash()
    ensures IsSquareRoot(Prime(0), H0.a) && IsSquareRoot(Prime(1), H0.b) && IsSquareRoot(Prime(2), H0.c)
    ensures IsSquareRoot(Prime(3), H0.d) && IsSquareRoot(Prime(4), H0.e) && IsSquareRoot(Prime(5), H0.f)
    ensures IsSquareRoot(Prime(6), H0.g) && IsSquareRoot(Prime(7), H0.h)
  {
  }

  /** There is only one such word for each prime. */
  lemma RootsAreUnique(p: nat, k: Word, l: Word)
    ensures IsCubeRoot(p, k) && IsCubeRoot(p, l) ==> k == l
    ensures IsSquareRoot(p, k) && IsSquareRoot(p, l) ==> k == l
  {
    var c, d := 0x1_0000_0000 * CubePart(p), 0x1_0000_0000 * SquarePart(p);
    if k < l {
      CubeGrows(c + k + 1, c + l);
      SquareGrows(d + k + 1, d + l);
    } else if l < k {
      CubeGrows(c + l + 1, c + k);
      SquareGrows(d + l + 1, d + k);
    }
  }

  lemma SquareGrows(x: nat, y: nat)
    requires x <= y
    ensures x * x <= y * y
  {
  }

  lemma CubeGrows(x: nat, y: nat)
    requires x <= y
    ensures x * x * x <= y * y * y
  {
    SquareGrows(x, y);
    assert (x * x) * x <= (y * y) * x <= (y * y) * y;
  }
}
