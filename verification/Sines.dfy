// The table of MD5 is what RFC 1321, section 3.4, says it is: the integer parts of 2^32 times the absolute
// values of the sines of 1 to 64 radians.
module Sines {
  import opened Words
  import opened Md5

  // ----- the sine and the cosine of one, by their power series -----

  // The terms of the series 1 - 1/3! + 1/5! - ... and of the series 1 - 1/2! + 1/4! - ...
  function SinTerm(n: nat): real {
    if n == 0 then 1.0 else -SinTerm(n - 1) / (2 * n * (2 * n + 1)) as real
  }

  function CosTerm(n: nat): real {
    if n == 0 then 1.0 else -CosTerm(n - 1) / ((2 * n - 1) * (2 * n)) as real
  }

  // The sums of the first n terms.
  function SinSum(n: nat): real {
    if n == 0 then 0.0 else SinSum(n - 1) + SinTerm(n - 1)
  }

  function CosSum(n: nat): real {
    if n == 0 then 0.0 else CosSum(n - 1) + CosTerm(n - 1)
  }

  /** s and c are the sine and the cosine of one: what the alternating sums close in on. */
  ghost predicate SineCosine(s: real, c: real) {
    && (forall n: nat :: SinSum(2 * n) <= s <= SinSum(2 * n + 1))
    && (forall n: nat :: CosSum(2 * n) <= c <= CosSum(2 * n + 1))
  }

  /** The sine of n, by the addition theorem: sin(n + 2) + sin n = 2 cos 1 sin(n + 1). */
  function Sin(n: nat, s: real, c: real): real {
    if n == 0 then 0.0 else if n == 1 then s else 2.0 * c * Sin(n - 1, s, c) - Sin(n - 2, s, c)
  }

  // ----- fixed-point values -----

  const SCALE: int := 0x1_0000_0000_0000_0000_0000_0000_0000_0000
  const UNIT: int := 0x1_0000_0000_0000_0000_0000_0000

  // Twice the cosine of one, and the sines, scaled by 2^128.
  const TWICECOS: int := 0x114a280fb5068b923848cdb2ed0e37a53

  function Scaled1(n: nat): int {
    match n
    case 0 => 0x00000000000000000000000000000000
    case 1 => 0xd76aa47848677020c6e9e909c50f3c33
    case 2 => 0xe8c7b7568da22efd5c240c4004e4ddcb
    case 3 => 0x242070db6daab69e3902e84683150696
    case 4 => -0xc1bdceeee0f5738674c02ad072286c9e
    case 5 => -0xf57c0faf04c999135789f2ab1de2fd1c
    case 6 => -0x4787c62ac28b00e989105113d288512e
    case 7 => 0xa83046136850421dd444208fd7789680
    case 8 => 0xfd469501467bd74fb15853828466f0a7
    case 9 => 0x698098d830be42487274a8291c67aa40
    case 10 => -0x8b44f7af9a7a92ce7fb22be024e20009
    case 11 => -0xffff5bb1749f56ad6387c28327e3ce80
    case 12 => -0x895cd7bebb2d2a4e0f2853fa36d7529a
    case 13 => 0x6b90112207141869f4a73ece8a8d7c05
    case 14 => 0xfd987193e2f224ea5bb0ee037bc3014c
    case _ => 0xa679438e761742e95c9a4e9399953772
  }

  function Scaled2(n: nat): int {
    match n
    case 16 => -0x49b408217c83df90508b20b008b36eb6
    case 17 => -0xf61e256214415b768a021d600d76425d
    case 18 => -0xc040b34098f1339dabd109367ef9e51e
    case 19 => 0x265e5a51eb099d08e4babcc6307733ec
    case 20 => 0xe9b6c7aae9e6ff24afc0510a4786fdd8
    case 21 => 0xd62f105d86bf656afcd82f211a74622b
    case 22 => -0x02441453edd73e7abed1d0efcabeab5c
    case 23 => -0xd8a1e68123e80fd8ad1e71e4b30d2ab4
    case 24 => -0xe7d3fbc8c8a074802cf40dd3544dabd2
    case 25 => -0x21e1cde63d0139ed8f4376deb8eaeb5f
    case 26 => 0xc33707d6192c1b727f314f991b611133
    case 27 => 0xf4d50d872dd17eeb0becdcfb3a8b5159
    case 28 => 0x455a14ed1453563f922cc06d843458b0
    case 29 => -0xa9e3e905364f354b0641ab715994376f
    case 30 => -0xfcefa3f8e481e55d994fb58c1a2b2cff
    case _ => -0x676f02d903f202feb00c68ec9052eca5
  }

  function Scaled3(n: nat): int {
    match n
    case 32 => 0x8d2a4c8a132b2d72b25f0b53450236f9
    case 33 => 0xfffa39420b11bd78e243abdb19026899
    case 34 => 0x8771f681c3ed06027e9cc568b2af5654
    case 35 => -0x6d9d6122332f9e85effcf62c7f80baa6
    case 36 => -0xfde5380c670e1cbd4b69e3c255cdf666
    case 37 => -0xa4beea447f487554f2db8a35b813b763
    case 38 => 0x4bdecfa91e6a73ad08d1086736a9fb56
    case 39 => 0xf6bb4b6020374db6811846fde07024d8
    case 40 => 0xbebfbc7013f7fc8a62e1c0b33d1c5e25
    case 41 => -0x289b7ec6eba38fe95293548056054578
    case 42 => -0xeaa127fa607f68357e3b0e29d788f451
    case 43 => -0xd4ef30853a8897721babc0a015027dcb
    case 44 => 0x04881d05676c1046351bf69eaa794e07
    case 45 => 0xd9d4d039ecd8170700e3e757f8da4c44
    case 46 => 0xe6db99e510c58592e2920ca41dd6838b
    case _ => 0x1fa27cf8daf6f636ead9b588b01998b5
  }

  function Scaled4(n: nat): int {
    match n
    case 48 => -0xc4ac5665627c066c59f19bf8b6f2cb76
    case 49 => -0xf4292244133eb583fafe816601e97c57
    case 50 => -0x432aff97f37f2151d2e56b1d1ac85724
    case 51 => 0xab9423a71284117ea9599873e5aeaa37
    case 52 => 0xfc93a0392526353b3161dbadc7ef85d0
    case 53 => 0x655b59c3b1e2c1620aff457533e52454
    case 54 => -0x8f0ccc922e3e4cf7a0895dbffc226098
    case 55 => -0xffeff47d95035ed118d5683df37f05ff
    case 56 => -0x85845dd128c8d20113dc42630841aa0a
    case 57 => 0x6fa87e4f750e8134fd18e9f169832e31
    case 58 => 0xfe2ce6e09db26f9764138d791967ca09
    case 59 => 0xa3014314c866594e617751aeb25bb42a
    case 60 => -0x4e0811a11b83099a70468e546a95d074
    case 61 => -0xf7537e82453f50849ed120cba4358105
    case 62 => -0xbd3af235f1627bf0cdab28308e18c72d
    case _ => 0x2ad7d2bb99881a808dbf14868d14afdd
  }

  function Scaled(n: nat): int {
    if n < 16 then Scaled1(n) else if n < 32 then Scaled2(n) else if n < 48 then Scaled3(n)
    else if n < 64 then Scaled4(n) else 0xeb86d391860ec3dbe6b444b1da027f99
  }

  // The fixed-point values follow the addition theorem, up to rounding.
  predicate Follows(x: int, y: int, z: int) {
    -2 * SCALE <= TWICECOS * y - SCALE * (x + z) <= 2 * SCALE && -SCALE <= y <= SCALE
  }

  lemma ScaledFollow1(n: nat)
    requires 0 <= n < 8
    ensures Follows(Scaled(n), Scaled(n + 1), Scaled(n + 2))
  {
    if n == 0 {
      assert Follows(Scaled(0), Scaled(1), Scaled(2));
    } else if n == 1 {
      assert Follows(Scaled(1), Scaled(2), Scaled(3));
    } else if n == 2 {
      assert Follows(Scaled(2), Scaled(3), Scaled(4));
    } else if n == 3 {
      assert Follows(Scaled(3), Scaled(4), Scaled(5));
    } else if n == 4 {
      assert Follows(Scaled(4), Scaled(5), Scaled(6));
    } else if n == 5 {
      assert Follows(Scaled(5), Scaled(6), Scaled(7));
    } else if n == 6 {
      assert Follows(Scaled(6), Scaled(7), Scaled(8));
    } else {
      assert Follows(Scaled(7), Scaled(8), Scaled(9));
    }
  }

  lemma ScaledFollow2(n: nat)
    requires 8 <= n < 16
    ensures Follows(Scaled(n), Scaled(n + 1), Scaled(n + 2))
  {
    if n == 8 {
      assert Follows(Scaled(8), Scaled(9), Scaled(10));
    } else if n == 9 {
      assert Follows(Scaled(9), Scaled(10), Scaled(11));
    } else if n == 10 {
      assert Follows(Scaled(10), Scaled(11), Scaled(12));
    } else if n == 11 {
      assert Follows(Scaled(11), Scaled(12), Scaled(13));
    } else if n == 12 {
      assert Follows(Scaled(12), Scaled(13), Scaled(14));
    } else if n == 13 {
      assert Follows(Scaled(13), Scaled(14), Scaled(15));
    } else if n == 14 {
      assert Follows(Scaled(14), Scaled(15), Scaled(16));
    } else {
      assert Follows(Scaled(15), Scaled(16), Scaled(17));
    }
  }

  lemma ScaledFollow3(n: nat)
    requires 16 <= n < 24
    ensures Follows(Scaled(n), Scaled(n + 1), Scaled(n + 2))
  {
    if n == 16 {
      assert Follows(Scaled(16), Scaled(17), Scaled(18));
    } else if n == 17 {
      assert Follows(Scaled(17), Scaled(18), Scaled(19));
    } else if n == 18 {
      assert Follows(Scaled(18), Scaled(19), Scaled(20));
    } else if n == 19 {
      assert Follows(Scaled(19), Scaled(20), Scaled(21));
    } else if n == 20 {
      assert Follows(Scaled(20), Scaled(21), Scaled(22));
    } else if n == 21 {
      assert Follows(Scaled(21), Scaled(22), Scaled(23));
    } else if n == 22 {
      assert Follows(Scaled(22), Scaled(23), Scaled(24));
    } else {
      assert Follows(Scaled(23), Scaled(24), Scaled(25));
    }
  }

  lemma ScaledFollow4(n: nat)
    requires 24 <= n < 32
    ensures Follows(Scaled(n), Scaled(n + 1), Scaled(n + 2))
  {
    if n == 24 {
      assert Follows(Scaled(24), Scaled(25), Scaled(26));
    } else if n == 25 {
      assert Follows(Scaled(25), Scaled(26), Scaled(27));
    } else if n == 26 {
      assert Follows(Scaled(26), Scaled(27), Scaled(28));
    } else if n == 27 {
      assert Follows(Scaled(27), Scaled(28), Scaled(29));
    } else if n == 28 {
      assert Follows(Scaled(28), Scaled(29), Scaled(30));
    } else if n == 29 {
      assert Follows(Scaled(29), Scaled(30), Scaled(31));
    } else if n == 30 {
      assert Follows(Scaled(30), Scaled(31), Scaled(32));
    } else {
      assert Follows(Scaled(31), Scaled(32), Scaled(33));
    }
  }

  lemma ScaledFollow5(n: nat)
    requires 32 <= n < 40
    ensures Follows(Scaled(n), Scaled(n + 1), Scaled(n + 2))
  {
    if n == 32 {
      assert Follows(Scaled(32), Scaled(33), Scaled(34));
    } else if n == 33 {
      assert Follows(Scaled(33), Scaled(34), Scaled(35));
    } else if n == 34 {
      assert Follows(Scaled(34), Scaled(35), Scaled(36));
    } else if n == 35 {
      assert Follows(Scaled(35), Scaled(36), Scaled(37));
    } else if n == 36 {
      assert Follows(Scaled(36), Scaled(37), Scaled(38));
    } else if n == 37 {
      assert Follows(Scaled(37), Scaled(38), Scaled(39));
    } else if n == 38 {
      assert Follows(Scaled(38), Scaled(39), Scaled(40));
    } else {
      assert Follows(Scaled(39), Scaled(40), Scaled(41));
    }
  }

  lemma ScaledFollow6(n: nat)
    requires 40 <= n < 48
    ensures Follows(Scaled(n), Scaled(n + 1), Scaled(n + 2))
  {
    if n == 40 {
      assert Follows(Scaled(40), Scaled(41), Scaled(42));
    } else if n == 41 {
      assert Follows(Scaled(41), Scaled(42), Scaled(43));
    } else if n == 42 {
      assert Follows(Scaled(42), Scaled(43), Scaled(44));
    } else if n == 43 {
      assert Follows(Scaled(43), Scaled(44), Scaled(45));
    } else if n == 44 {
      assert Follows(Scaled(44), Scaled(45), Scaled(46));
    } else if n == 45 {
      assert Follows(Scaled(45), Scaled(46), Scaled(47));
    } else if n == 46 {
      assert Follows(Scaled(46), Scaled(47), Scaled(48));
    } else {
      assert Follows(Scaled(47), Scaled(48), Scaled(49));
    }
  }

  lemma ScaledFollow7(n: nat)
    requires 48 <= n < 56
    ensures Follows(Scaled(n), Scaled(n + 1), Scaled(n + 2))
  {
    if n == 48 {
      assert Follows(Scaled(48), Scaled(49), Scaled(50));
    } else if n == 49 {
      assert Follows(Scaled(49), Scaled(50), Scaled(51));
    } else if n == 50 {
      assert Follows(Scaled(50), Scaled(51), Scaled(52));
    } else if n == 51 {
      assert Follows(Scaled(51), Scaled(52), Scaled(53));
    } else if n == 52 {
      assert Follows(Scaled(52), Scaled(53), Scaled(54));
    } else if n == 53 {
      assert Follows(Scaled(53), Scaled(54), Scaled(55));
    } else if n == 54 {
      assert Follows(Scaled(54), Scaled(55), Scaled(56));
    } else {
      assert Follows(Scaled(55), Scaled(56), Scaled(57));
    }
  }

  lemma ScaledFollow8(n: nat)
    requires 56 <= n < 63
    ensures Follows(Scaled(n), Scaled(n + 1), Scaled(n + 2))
  {
    if n == 56 {
      assert Follows(Scaled(56), Scaled(57), Scaled(58));
    } else if n == 57 {
      assert Follows(Scaled(57), Scaled(58), Scaled(59));
    } else if n == 58 {
      assert Follows(Scaled(58), Scaled(59), Scaled(60));
    } else if n == 59 {
      assert Follows(Scaled(59), Scaled(60), Scaled(61));
    } else if n == 60 {
      assert Follows(Scaled(60), Scaled(61), Scaled(62));
    } else if n == 61 {
      assert Follows(Scaled(61), Scaled(62), Scaled(63));
    } else {
      assert Follows(Scaled(62), Scaled(63), Scaled(64));
    }
  }

  lemma ScaledFollow(n: nat)
    requires n < 63
    ensures Follows(Scaled(n), Scaled(n + 1), Scaled(n + 2))
  {
    hide Scaled, Follows;
    if n < 8 {
      ScaledFollow1(n);
    } else if n < 16 {
      ScaledFollow2(n);
    } else if n < 24 {
      ScaledFollow3(n);
    } else if n < 32 {
      ScaledFollow4(n);
    } else if n < 40 {
      ScaledFollow5(n);
    } else if n < 48 {
      ScaledFollow6(n);
    } else if n < 56 {
      ScaledFollow7(n);
    } else {
      ScaledFollow8(n);
    }
  }

  // ----- the first sine and the cosine -----

  lemma SinSums()
    ensures SinSum(18) == 8695044195440662442699982866274228962149.0 / 10333147966386144929666651337523200000000.0
    ensures SinSum(19) == 11581798868326962373676377177877272977582469.0 / 13763753091226345046315979581580902400000000.0
  {
    assert SinTerm(0) == 1.0 / 1.0;
    assert SinSum(1) == 1.0 / 1.0;
    assert SinTerm(1) == -1.0 / 6.0;
    assert SinSum(2) == 5.0 / 6.0;
    assert SinTerm(2) == 1.0 / 120.0;
    assert SinSum(3) == 101.0 / 120.0;
    assert SinTerm(3) == -1.0 / 5040.0;
    assert SinSum(4) == 4241.0 / 5040.0;
    assert SinTerm(4) == 1.0 / 362880.0;
    assert SinSum(5) == 305353.0 / 362880.0;
    assert SinTerm(5) == -1.0 / 39916800.0;
    assert SinSum(6) == 33588829.0 / 39916800.0;
    assert SinTerm(6) == 1.0 / 6227020800.0;
    assert SinSum(7) == 209594293.0 / 249080832.0;
    assert SinTerm(7) == -1.0 / 1307674368000.0;
    assert SinSum(8) == 1100370038249.0 / 1307674368000.0;
    assert SinTerm(8) == 1.0 / 355687428096000.0;
    assert SinSum(9) == 23023126954133.0 / 27360571392000.0;
    assert SinTerm(9) == -1.0 / 121645100408832000.0;
    assert SinSum(10) == 102360822438075317.0 / 121645100408832000.0;
    assert SinTerm(10) == 1.0 / 51090942171709440000.0;
    assert SinSum(11) == 42991545423991633141.0 / 51090942171709440000.0;
    assert SinTerm(11) == -1.0 / 25852016738884976640000.0;
    assert SinSum(12) == 4350744396907953273869.0 / 5170403347776995328000.0;
    assert SinTerm(12) == 1.0 / 15511210043330985984000000.0;
    assert SinSum(13) == 13052233190723859821607001.0 / 15511210043330985984000000.0;
    assert SinTerm(13) == -1.0 / 10888869450418352160768000000.0;
    assert SinSum(14) == 9162667699888149594768114701.0 / 10888869450418352160768000000.0;
    assert SinTerm(14) == 1.0 / 8841761993739701954543616000000.0;
    assert SinSum(15) == 7440086172309177470951709137213.0 / 8841761993739701954543616000000.0;
    assert SinTerm(15) == -1.0 / 8222838654177922817725562880000000.0;
    assert SinSum(16) == 364172638960396581472899447242531.0 / 432780981798838043038187520000000.0;
    assert SinTerm(16) == 1.0 / 8683317618811886495518194401280000000.0;
    assert SinSum(17) == 1461351965620279402134450901894828397.0 / 1736663523762377299103638880256000000.0;
    assert SinTerm(17) == -1.0 / 10333147966386144929666651337523200000000.0;
    assert SinSum(18) == 8695044195440662442699982866274228962149.0 / 10333147966386144929666651337523200000000.0;
    assert SinTerm(18) == 1.0 / 13763753091226345046315979581580902400000000.0;
    assert SinSum(19) == 11581798868326962373676377177877272977582469.0 / 13763753091226345046315979581580902400000000.0;
  }

  lemma CosSums()
    ensures CosSum(18) == 159514962089003222313242436031601809697.0 / 295232799039604140847618609643520000000.0
    ensures CosSum(19) == 200988852232144060114685469399818280218221.0 / 371993326789901217467999448150835200000000.0
  {
    assert CosTerm(0) == 1.0 / 1.0;
    assert CosSum(1) == 1.0 / 1.0;
    assert CosTerm(1) == -1.0 / 2.0;
    assert CosSum(2) == 1.0 / 2.0;
    assert CosTerm(2) == 1.0 / 24.0;
    assert CosSum(3) == 13.0 / 24.0;
    assert CosTerm(3) == -1.0 / 720.0;
    assert CosSum(4) == 389.0 / 720.0;
    assert CosTerm(4) == 1.0 / 40320.0;
    assert CosSum(5) == 4357.0 / 8064.0;
    assert CosTerm(5) == -1.0 / 3628800.0;
    assert CosSum(6) == 1960649.0 / 3628800.0;
    assert CosTerm(6) == 1.0 / 479001600.0;
    assert CosSum(7) == 258805669.0 / 479001600.0;
    assert CosTerm(7) == -1.0 / 87178291200.0;
    assert CosSum(8) == 47102631757.0 / 87178291200.0;
    assert CosTerm(8) == 1.0 / 20922789888000.0;
    assert CosSum(9) == 11304631621681.0 / 20922789888000.0;
    assert CosTerm(9) == -1.0 / 6402373705728000.0;
    assert CosSum(10) == 691843455246877.0 / 1280474741145600.0;
    assert CosTerm(10) == 1.0 / 2432902008176640000.0;
    assert CosSum(11) == 1314502564969066301.0 / 2432902008176640000.0;
    assert CosTerm(11) == -1.0 / 1124000727777607680000.0;
    assert CosSum(12) == 607300185015708631061.0 / 1124000727777607680000.0;
    assert CosTerm(12) == 1.0 / 620448401733239439360000.0;
    assert CosSum(13) == 335229702128671164345673.0 / 620448401733239439360000.0;
    assert CosTerm(13) == -1.0 / 403291461126605635584000000.0;
    assert CosSum(14) == 217899306383636256824687449.0 / 403291461126605635584000000.0;
    assert CosTerm(14) == 1.0 / 304888344611713860501504000000.0;
    assert CosSum(15) == 32946375125205802031892742289.0 / 60977668922342772100300800000.0;
    assert CosTerm(15) == -1.0 / 265252859812191058636308480000000.0;
    assert CosSum(16) == 848027998784883070051677094421.0 / 1569543549184562477137920000000.0;
    assert CosTerm(16) == 1.0 / 263130836933693530167218012160000000.0;
    assert CosSum(17) == 142170197940288076928023561525491809.0 / 263130836933693530167218012160000000.0;
    assert CosTerm(17) == -1.0 / 295232799039604140847618609643520000000.0;
    assert CosSum(18) == 159514962089003222313242436031601809697.0 / 295232799039604140847618609643520000000.0;
    assert CosTerm(18) == 1.0 / 371993326789901217467999448150835200000000.0;
    assert CosSum(19) == 200988852232144060114685469399818280218221.0 / 371993326789901217467999448150835200000000.0;
  }

  lemma SumsAround(s: real, c: real, n: nat)
    requires SineCosine(s, c)
    ensures SinSum(2 * n) <= s <= SinSum(2 * n + 1) && CosSum(2 * n) <= c <= CosSum(2 * n + 1)
  {
    hide SinSum, CosSum;
  }

  lemma FirstSine(s: real, c: real)
    requires SineCosine(s, c)
    ensures Near(s * SCALE as real, Scaled(1) as real, 8.0)
  {
    hide SineCosine, SinSum, CosSum;
    SumsAround(s, c, 9);
    SinSums();
  }

  lemma TwiceCosine(s: real, c: real)
    requires SineCosine(s, c)
    ensures Near(2.0 * c * SCALE as real, TWICECOS as real, 2.0)
  {
    hide SineCosine, SinSum, CosSum;
    SumsAround(s, c, 9);
    CosSums();
  }

  // ----- all sines -----

  // What the fixed-point value of the sine of n may be off by.
  function Margin(n: nat): (e: real)
    ensures e >= 16.0
  {
    if n == 0 then 16.0 else 2.0 * Margin(n - 1)
  }

  predicate Near(x: real, y: real, e: real) {
    y - e <= x <= y + e
  }

  // Factors that are close have close products.
  lemma Closer(k: real, x: real, y: real, e: real)
    requires 0.0 <= k <= 1.125 && Near(x, y, e) && 0.0 <= e
    ensures Near(k * x, k * y, 1.125 * e)
  {
    var d := x - y;
    assert k * x == k * y + k * d;
    Bounded(d, k, e, 1.125);
  }

  lemma Bounded(d: real, v: real, e: real, f: real)
    requires -e <= d <= e && -f <= v <= f
    ensures -(e * f) <= d * v <= e * f
  {
    assert (e - d) * (f - v) >= 0.0 && (e + d) * (f + v) >= 0.0;
    assert (e - d) * (f + v) >= 0.0 && (e + d) * (f - v) >= 0.0;
  }

  // The product of the cosine with a fixed-point value.
  lemma TimesCosine(k: real, p: int, q: int, r: int)
    requires Near(k * SCALE as real, TWICECOS as real, 2.0) && Follows(p, q, r)
    ensures Near(k * q as real, p as real + r as real, 4.0)
  {
    var g, v, s := TWICECOS as real / SCALE as real, q as real, SCALE as real;
    Bounded(k - g, v, 2.0 / s, s);
    assert k * v == g * v + (k - g) * v;
    Rounded(p, q, r);
  }

  lemma Rounded(p: int, q: int, r: int)
    requires Follows(p, q, r)
    ensures Near(TWICECOS as real / SCALE as real * q as real, p as real + r as real, 2.0)
  {
    assert (TWICECOS * q) as real == TWICECOS as real * q as real;
    assert (SCALE * (p + r)) as real == SCALE as real * (p as real + r as real);
  }

  // One step of the addition theorem, for exact values x, y and fixed-point values p, q, r.
  lemma StepNear(k: real, x: real, y: real, p: int, q: int, r: int, e: real)
    requires Near(k * SCALE as real, TWICECOS as real, 2.0) && e >= 16.0
    requires Near(x, p as real, e) && Near(y, q as real, 2.0 * e) && Follows(p, q, r)
    ensures Near(k * y - x, r as real, 4.0 * e)
  {
    hide Follows;
    CosineRange(k);
    Closer(k, y, q as real, 2.0 * e);
    TimesCosine(k, p, q, r);
    AddUp(k * y, k * q as real, p as real, r as real, x, e);
  }

  lemma CosineRange(k: real)
    requires Near(k * SCALE as real, TWICECOS as real, 2.0)
    ensures 1.0 <= k <= 1.125
  {
  }

  lemma AddUp(u: real, v: real, p: real, r: real, x: real, e: real)
    requires e >= 16.0 && Near(u, v, 2.25 * e) && Near(v, p + r, 4.0) && Near(x, p, e)
    ensures Near(u - x, r, 4.0 * e)
  {
  }

  // The scaled sine of n is close to its fixed-point value.
  predicate SinIs(n: nat, s: real, c: real) {
    Near(Times(Sin(n, s, c), SCALE as real), Scaled(n) as real, Margin(n))
  }

  lemma SinNear(n: nat, s: real, c: real)
    requires n <= 64 && SineCosine(s, c)
    ensures SinIs(n, s, c)
  {
    if n >= 2 {
      SinNear(n - 1, s, c);
      SinNear(n - 2, s, c);
      hide SinIs, SineCosine;
      SinStep(n - 2, s, c);
    } else if n == 1 {
      FirstSine(s, c);
    }
  }

  function Times(x: real, f: real): real { x * f }

  lemma SinStep(n: nat, s: real, c: real)
    requires n < 63 && SineCosine(s, c) && SinIs(n, s, c) && SinIs(n + 1, s, c)
    ensures SinIs(n + 2, s, c)
  {
    hide Scaled, SineCosine, Follows, Sin, Times;
    TwiceCosine(s, c);
    ScaledFollow(n);
    var x, y := Times(Sin(n, s, c), SCALE as real), Times(Sin(n + 1, s, c), SCALE as real);
    assert Margin(n + 1) == 2.0 * Margin(n) && Margin(n + 2) == 4.0 * Margin(n);
    StepNear(2.0 * c, x, y, Scaled(n), Scaled(n + 1), Scaled(n + 2), Margin(n));
    Addition(n, s, c, SCALE as real);
  }

  lemma Addition(n: nat, s: real, c: real, f: real)
    ensures Times(Sin(n + 2, s, c), f) == 2.0 * c * Times(Sin(n + 1, s, c), f) - Times(Sin(n, s, c), f)
  {
    Distribute(2.0 * c, Sin(n, s, c), Sin(n + 1, s, c), f);
  }

  lemma Distribute(k: real, x: real, y: real, s: real)
    ensures (k * y - x) * s == k * (y * s) - x * s
  {
  }

  // ----- the table -----

  function Abs(x: int): int { if x < 0 then -x else x }

  // The table tells the scaled values, with room for the margin.
  predicate Tells(k: int, v: int) {
    UNIT * k + 0x20_0000_0000_0000_0000 <= Abs(v) <= UNIT * (k + 1) - 0x20_0000_0000_0000_0001
  }

  lemma Table1(t: nat)
    requires 0 <= t < 8
    ensures Tells(SineAt(t), Scaled(t + 1))
  {
    if t == 0 {
      assert Tells(SineAt(0), Scaled(1));
    } else if t == 1 {
      assert Tells(SineAt(1), Scaled(2));
    } else if t == 2 {
      assert Tells(SineAt(2), Scaled(3));
    } else if t == 3 {
      assert Tells(SineAt(3), Scaled(4));
    } else if t == 4 {
      assert Tells(SineAt(4), Scaled(5));
    } else if t == 5 {
      assert Tells(SineAt(5), Scaled(6));
    } else if t == 6 {
      assert Tells(SineAt(6), Scaled(7));
    } else {
      assert Tells(SineAt(7), Scaled(8));
    }
  }

  lemma Table2(t: nat)
    requires 8 <= t < 16
    ensures Tells(SineAt(t), Scaled(t + 1))
  {
    if t == 8 {
      assert Tells(SineAt(8), Scaled(9));
    } else if t == 9 {
      assert Tells(SineAt(9), Scaled(10));
    } else if t == 10 {
      assert Tells(SineAt(10), Scaled(11));
    } else if t == 11 {
      assert Tells(SineAt(11), Scaled(12));
    } else if t == 12 {
      assert Tells(SineAt(12), Scaled(13));
    } else if t == 13 {
      assert Tells(SineAt(13), Scaled(14));
    } else if t == 14 {
      assert Tells(SineAt(14), Scaled(15));
    } else {
      assert Tells(SineAt(15), Scaled(16));
    }
  }

  lemma Table3(t: nat)
    requires 16 <= t < 24
    ensures Tells(SineAt(t), Scaled(t + 1))
  {
    if t == 16 {
      assert Tells(SineAt(16), Scaled(17));
    } else if t == 17 {
      assert Tells(SineAt(17), Scaled(18));
    } else if t == 18 {
      assert Tells(SineAt(18), Scaled(19));
    } else if t == 19 {
      assert Tells(SineAt(19), Scaled(20));
    } else if t == 20 {
      assert Tells(SineAt(20), Scaled(21));
    } else if t == 21 {
      assert Tells(SineAt(21), Scaled(22));
    } else if t == 22 {
      assert Tells(SineAt(22), Scaled(23));
    } else {
      assert Tells(SineAt(23), Scaled(24));
    }
  }

  lemma Table4(t: nat)
    requires 24 <= t < 32
    ensures Tells(SineAt(t), Scaled(t + 1))
  {
    if t == 24 {
      assert Tells(SineAt(24), Scaled(25));
    } else if t == 25 {
      assert Tells(SineAt(25), Scaled(26));
    } else if t == 26 {
      assert Tells(SineAt(26), Scaled(27));
    } else if t == 27 {
      assert Tells(SineAt(27), Scaled(28));
    } else if t == 28 {
      assert Tells(SineAt(28), Scaled(29));
    } else if t == 29 {
      assert Tells(SineAt(29), Scaled(30));
    } else if t == 30 {
      assert Tells(SineAt(30), Scaled(31));
    } else {
      assert Tells(SineAt(31), Scaled(32));
    }
  }

  lemma Table5(t: nat)
    requires 32 <= t < 40
    ensures Tells(SineAt(t), Scaled(t + 1))
  {
    if t == 32 {
      assert Tells(SineAt(32), Scaled(33));
    } else if t == 33 {
      assert Tells(SineAt(33), Scaled(34));
    } else if t == 34 {
      assert Tells(SineAt(34), Scaled(35));
    } else if t == 35 {
      assert Tells(SineAt(35), Scaled(36));
    } else if t == 36 {
      assert Tells(SineAt(36), Scaled(37));
    } else if t == 37 {
      assert Tells(SineAt(37), Scaled(38));
    } else if t == 38 {
      assert Tells(SineAt(38), Scaled(39));
    } else {
      assert Tells(SineAt(39), Scaled(40));
    }
  }

  lemma Table6(t: nat)
    requires 40 <= t < 48
    ensures Tells(SineAt(t), Scaled(t + 1))
  {
    if t == 40 {
      assert Tells(SineAt(40), Scaled(41));
    } else if t == 41 {
      assert Tells(SineAt(41), Scaled(42));
    } else if t == 42 {
      assert Tells(SineAt(42), Scaled(43));
    } else if t == 43 {
      assert Tells(SineAt(43), Scaled(44));
    } else if t == 44 {
      assert Tells(SineAt(44), Scaled(45));
    } else if t == 45 {
      assert Tells(SineAt(45), Scaled(46));
    } else if t == 46 {
      assert Tells(SineAt(46), Scaled(47));
    } else {
      assert Tells(SineAt(47), Scaled(48));
    }
  }

  lemma Table7(t: nat)
    requires 48 <= t < 56
    ensures Tells(SineAt(t), Scaled(t + 1))
  {
    if t == 48 {
      assert Tells(SineAt(48), Scaled(49));
    } else if t == 49 {
      assert Tells(SineAt(49), Scaled(50));
    } else if t == 50 {
      assert Tells(SineAt(50), Scaled(51));
    } else if t == 51 {
      assert Tells(SineAt(51), Scaled(52));
    } else if t == 52 {
      assert Tells(SineAt(52), Scaled(53));
    } else if t == 53 {
      assert Tells(SineAt(53), Scaled(54));
    } else if t == 54 {
      assert Tells(SineAt(54), Scaled(55));
    } else {
      assert Tells(SineAt(55), Scaled(56));
    }
  }

  lemma Table8(t: nat)
    requires 56 <= t < 64
    ensures Tells(SineAt(t), Scaled(t + 1))
  {
    if t == 56 {
      assert Tells(SineAt(56), Scaled(57));
    } else if t == 57 {
      assert Tells(SineAt(57), Scaled(58));
    } else if t == 58 {
      assert Tells(SineAt(58), Scaled(59));
    } else if t == 59 {
      assert Tells(SineAt(59), Scaled(60));
    } else if t == 60 {
      assert Tells(SineAt(60), Scaled(61));
    } else if t == 61 {
      assert Tells(SineAt(61), Scaled(62));
    } else if t == 62 {
      assert Tells(SineAt(62), Scaled(63));
    } else {
      assert Tells(SineAt(63), Scaled(64));
    }
  }

  lemma Table(t: nat)
    requires t < 64
    ensures Tells(SineAt(t), Scaled(t + 1))
  {
    hide Scaled, SineAt, Tells;
    if t < 8 {
      Table1(t);
    } else if t < 16 {
      Table2(t);
    } else if t < 24 {
      Table3(t);
    } else if t < 32 {
      Table4(t);
    } else if t < 40 {
      Table5(t);
    } else if t < 48 {
      Table6(t);
    } else if t < 56 {
      Table7(t);
    } else {
      Table8(t);
    }
  }

  // The margin doubles with each step.
  lemma MarginGrows(n: nat)
    ensures Margin(n + 8) == 256.0 * Margin(n)
  {
    assert Margin(n + 2) == 2.0 * Margin(n + 1);
    assert Margin(n + 4) == 2.0 * Margin(n + 3);
    assert Margin(n + 6) == 2.0 * Margin(n + 5);
  }

  lemma MarginRises(n: nat, m: nat)
    requires n <= m
    ensures Margin(n) <= Margin(m)
  {
    if n < m {
      MarginRises(n, m - 1);
    }
  }

  lemma MarginEnd(n: nat)
    requires n <= 64
    ensures Margin(n) <= 0x10_0000_0000_0000_0000 as real
  {
    MarginRises(n, 64);
    MarginGrows(0);
    MarginGrows(8);
    MarginGrows(16);
    MarginGrows(24);
    MarginGrows(32);
    MarginGrows(40);
    MarginGrows(48);
    MarginGrows(56);
  }

  /** Entry t of the table is the integer part of 2^32 times the absolute value of the sine of t + 1. */
  lemma SineTable(t: nat, s: real, c: real)
    requires t < 64 && SineCosine(s, c)
    ensures var y := Sin(t + 1, s, c);
      SineAt(t) as real <= 4294967296.0 * (if y < 0.0 then -y else y) < SineAt(t) as real + 1.0
  {
    hide Scaled, SineAt, Sin;
    SinNear(t + 1, s, c);
    MarginEnd(t + 1);
    Table(t);
  }
}
