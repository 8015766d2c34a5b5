/** What the CRC is, apart from its loop: the remainder of a division of polynomials over the
    two-element field (section 3.2.9 of IEEE 802.3). A polynomial is the sequence of its
    coefficients, the highest power first; bytes are sent with their lowest bit first. */
module CrcDivision {
  import opened Bytes
  import opened Crc

  /** The exponents of the generating polynomial. */
  const GENERATOR: seq<nat> := [32, 26, 23, 22, 16, 12, 11, 10, 8, 7, 5, 4, 2, 1, 0]

  function Generator(): (g: seq<bool>)
    ensures |g| == 33
  {
    seq(33, i requires 0 <= i < 33 => (32 - i) in GENERATOR)
  }

  /** The sum of two polynomials, the shorter one aligned with the highest powers of the other. */
  function Plus(p: seq<bool>, q: seq<bool>): (r: seq<bool>)
    requires |q| <= |p|
    ensures |r| == |p|
  {
    seq(|p|, i requires 0 <= i < |p| => if i < |q| then p[i] != q[i] else p[i])
  }

  /** Long division: the remainder modulo the generator. */
  function Remainder(p: seq<bool>): (r: seq<bool>)
    requires |p| >= 32
    ensures |r| == 32
    decreases |p|
  {
    if |p| == 32 then p else Remainder((if p[0] then Plus(p, Generator()) else p)[1..])
  }

  function Zeros(n: nat): (p: seq<bool>)
    ensures |p| == n
  {
    seq(n, _ => false)
  }

  function Ones(n: nat): (p: seq<bool>)
    ensures |p| == n
  {
    seq(n, _ => true)
  }

  /** The bits of some bytes in the order they are sent. */
  function BitsOf(data: seq<Byte>): (p: seq<bool>)
    ensures |p| == 8 * |data|
  {
    if data == [] then [] else Bits(data[0], 8) + BitsOf(data[1..])
  }

  /** The lowest `n` bits of a register as coefficients: the lowest bit belongs to the
      highest power. */
  function LowCoefficients(w: bv32, n: nat): (p: seq<bool>)
    ensures |p| == n
  {
    if n == 0 then [] else [!Even(w)] + LowCoefficients(Half(w), n - 1)
  }

  /** A register as a polynomial. */
  function Coefficients(w: bv32): (p: seq<bool>)
    ensures |p| == 32
  {
    LowCoefficients(w, 32)
  }

  function Halved(w: bv32, n: nat): (r: bv32) {
    if n == 0 then w else Half(Halved(w, n - 1))
  }

  lemma {:induction false} HalvedFirst(w: bv32, n: nat)
    ensures Halved(Half(w), n) == Half(Halved(w, n))
  {
    hide Half;
    if n > 0 {
      HalvedFirst(w, n - 1);
    }
  }

  lemma HalfIsMonotone(a: bv32, b: bv32)
    requires a <= b
    ensures Half(a) <= Half(b)
  {
  }

  lemma {:induction false} HalvedIsMonotone(a: bv32, b: bv32, n: nat)
    requires a <= b
    ensures Halved(a, n) <= Halved(b, n)
  {
    hide Half;
    if n > 0 {
      HalvedIsMonotone(a, b, n - 1);
      HalfIsMonotone(Halved(a, n - 1), Halved(b, n - 1));
    }
  }

  lemma {:induction false} HalvedAdds(w: bv32, n: nat, k: nat)
    ensures Halved(w, n + k) == Halved(Halved(w, n), k)
  {
    hide Half;
    if k > 0 {
      HalvedAdds(w, n, k - 1);
    }
  }

  lemma EightHalves(w: bv32)
    ensures Half(Half(Half(Half(Half(Half(Half(Half(w)))))))) == HighOf(w)
  {
  }

  lemma HalvedByEight(w: bv32)
    ensures Halved(w, 8) == HighOf(w)
  {
    hide Half, HighOf;
    EightHalves(w);
    assert Halved(w, 0) == w;
    assert Halved(w, 2) == Half(Half(Halved(w, 0)));
    assert Halved(w, 4) == Half(Half(Halved(w, 2)));
    assert Halved(w, 6) == Half(Half(Halved(w, 4)));
  }

  lemma HalvedAway(w: bv32)
    ensures Halved(w, 32) == 0
  {
    hide Half;
    HalvedIsMonotone(w, 0xFFFF_FFFF, 32);
    HalvedByEight(0xFFFF_FFFF);
    HalvedByEight(0x00FF_FFFF);
    HalvedByEight(0x0000_FFFF);
    HalvedByEight(0x0000_00FF);
    HalvedAdds(0xFFFF_FFFF, 8, 8);
    HalvedAdds(0xFFFF_FFFF, 16, 8);
    HalvedAdds(0xFFFF_FFFF, 24, 8);
  }

  lemma LastBit(a: bv32, b: bv32)
    requires Half(a) == Half(b) && Even(a) == Even(b)
    ensures a == b
  {
  }

  lemma {:induction false} SameLowCoefficients(a: bv32, b: bv32, n: nat)
    requires LowCoefficients(a, n) == LowCoefficients(b, n) && Halved(a, n) == Halved(b, n)
    ensures a == b
    decreases n
  {
    hide Half, Even;
    if n > 0 {
      assert LowCoefficients(a, n)[1..] == LowCoefficients(Half(a), n - 1);
      assert LowCoefficients(b, n)[1..] == LowCoefficients(Half(b), n - 1);
      assert LowCoefficients(a, n)[0] == !Even(a) && LowCoefficients(b, n)[0] == !Even(b);
      HalvedFirst(a, n - 1);
      HalvedFirst(b, n - 1);
      SameLowCoefficients(Half(a), Half(b), n - 1);
      LastBit(a, b);
    }
  }

  /** A register is known by its coefficients. */
  lemma SameCoefficients(a: bv32, b: bv32)
    requires Coefficients(a) == Coefficients(b)
    ensures a == b
  {
    hide Halved, LowCoefficients;
    HalvedAway(a);
    HalvedAway(b);
    SameLowCoefficients(a, b, 32);
  }

  lemma EvenOfXor(a: bv32, b: bv32)
    ensures Even(Xor(a, b)) == (Even(a) == Even(b))
  {
  }

  lemma {:induction false} LowCoefficientsOfXor(a: bv32, b: bv32, n: nat)
    ensures LowCoefficients(Xor(a, b), n) == Plus(LowCoefficients(a, n), LowCoefficients(b, n))
    decreases n
  {
    hide Xor, Half, Even;
    if n > 0 {
      EvenOfXor(a, b);
      HalfOfXor(a, b);
      LowCoefficientsOfXor(Half(a), Half(b), n - 1);
    }
  }

  lemma CoefficientsOfXor(a: bv32, b: bv32)
    ensures Coefficients(Xor(a, b)) == Plus(Coefficients(a), Coefficients(b))
  {
    hide Xor;
    LowCoefficientsOfXor(a, b, 32);
  }

  lemma {:induction false} LastCoefficient(w: bv32, n: nat)
    ensures LowCoefficients(w, n + 1) == LowCoefficients(w, n) + [!Even(Halved(w, n))]
    decreases n
  {
    hide Half, Even;
    if n > 0 {
      LastCoefficient(Half(w), n - 1);
      HalvedFirst(w, n - 1);
    }
  }

  lemma FirstAndLast(p: seq<bool>, q: seq<bool>, first: bool, last: bool)
    requires |p| > 0 && p + [last] == [first] + q
    ensures q == p[1..] + [last] && p[0] == first
  {
    assert ([first] + q)[1..] == q && (p + [last])[1..] == p[1..] + [last];
    assert (p + [last])[0] == first;
  }

  /** Halving multiplies by x, and loses the highest power. */
  lemma CoefficientsOfHalf(w: bv32)
    ensures Coefficients(Half(w)) == Coefficients(w)[1..] + [false]
    ensures Coefficients(w)[0] == !Even(w)
  {
    hide Half, Halved, Even;
    LastCoefficient(w, 32);
    assert LowCoefficients(w, 33) == [!Even(w)] + LowCoefficients(Half(w), 32);
    HalvedAway(w);
    NoBits();
    FirstAndLast(Coefficients(w), Coefficients(Half(w)), !Even(w), false);
    NoBits();
  }

  lemma NoBits()
    ensures Even(0) && Half(0) == 0
  {
  }

  lemma TwoCoefficients(w: bv32, n: nat)
    ensures LowCoefficients(w, n + 2) == [!Even(w), !Even(Half(w))] + LowCoefficients(Half(Half(w)), n)
  {
    hide Half, Even;
    assert LowCoefficients(w, n + 2) == [!Even(w)] + LowCoefficients(Half(w), n + 1);
  }

  lemma FourCoefficients(w: bv32, n: nat)
    ensures var h1 := Half(w); var h2 := Half(h1); var h3 := Half(h2);
      LowCoefficients(w, n + 4) == [!Even(w), !Even(h1), !Even(h2), !Even(h3)] + LowCoefficients(Half(h3), n)
  {
    hide Half, Even, LowCoefficients;
    TwoCoefficients(w, n + 2);
    TwoCoefficients(Half(Half(w)), n);
  }

  /** The next eight coefficients. */
  lemma EightCoefficients(w: bv32, n: nat)
    ensures LowCoefficients(w, n + 8) == LowBits(w) + LowCoefficients(HighOf(w), n)
  {
    hide Half, Even, LowBits, LowCoefficients, HighOf;
    EightHalves(w);
    EightEvens(w);
    FourCoefficients(w, n + 4);
    FourCoefficients(Half(Half(Half(Half(w)))), n);
  }

  lemma EightEvens(w: bv32)
    ensures
      var h1 := Half(w); var h2 := Half(h1); var h3 := Half(h2); var h4 := Half(h3);
      var h5 := Half(h4); var h6 := Half(h5); var h7 := Half(h6);
      LowBits(w) == [!Even(w), !Even(h1), !Even(h2), !Even(h3), !Even(h4), !Even(h5), !Even(h6), !Even(h7)]
  {
  }

  lemma ByteByByte(w: bv32)
    ensures var b1 := HighOf(w); var b2 := HighOf(b1); var b3 := HighOf(b2);
      Coefficients(w) == LowBits(w) + LowBits(b1) + LowBits(b2) + LowBits(b3)
  {
    hide LowBits, LowCoefficients, HighOf;
    var b1 := HighOf(w);
    var b2 := HighOf(b1);
    var b3 := HighOf(b2);
    EightCoefficients(w, 24);
    EightCoefficients(b1, 16);
    EightCoefficients(b2, 8);
    EightCoefficients(b3, 0);
    Nothing(HighOf(b3));
  }

  lemma Nothing(w: bv32)
    ensures LowCoefficients(w, 0) == []
  {
  }

  lemma GeneratorBits()
    ensures Generator()
      == [true, false, false, false, false, false, true, false, false, true, true, false, false, false, false, false,
          true, false, false, false, true, true, true, false, true, true, false, true, true, false, true, true, true]
  {
  }

  lemma PolynomialBytes()
    ensures LowBits(POLYNOMIAL) == [false, false, false, false, false, true, false, false]
    ensures LowBits(HighOf(POLYNOMIAL)) == [true, true, false, false, false, false, false, true]
    ensures LowBits(HighOf(HighOf(POLYNOMIAL))) == [false, false, false, true, true, true, false, true]
    ensures LowBits(HighOf(HighOf(HighOf(POLYNOMIAL)))) == [true, false, true, true, false, true, true, true]
  {
    assert HighOf(POLYNOMIAL) == 0x00ED_B883 && HighOf(0x00ED_B883) == 0x0000_EDB8 && HighOf(0x0000_EDB8) == 0xED;
  }

  /** The constant of the loop is the generator without its highest power. */
  lemma PolynomialIsGenerator()
    ensures Coefficients(POLYNOMIAL) == Generator()[1..] && Generator()[0]
  {
    hide Coefficients, Generator, LowBits, HighOf;
    ByteByByte(POLYNOMIAL);
    GeneratorBits();
    PolynomialBytes();
  }

  /** One step multiplies by x modulo the generator. */
  lemma StepIsMultiplication(w: bv32)
    ensures Coefficients(Step(w)) == Remainder(Coefficients(w) + [false])
  {
    hide Coefficients, Step, Xor, Half, Even;
    StepIs(w);
    CoefficientsOfHalf(w);
    CoefficientsOfXor(Half(w), POLYNOMIAL);
    PolynomialIsGenerator();
    var p := Coefficients(w) + [false];
    assert p[1..] == Coefficients(Half(w));
    if p[0] {
      assert Plus(p, Generator())[1..] == Plus(p[1..], Generator()[1..]);
    }
  }

  /** Division goes on with what one step leaves. */
  lemma StepDivides(w: bv32, rest: seq<bool>)
    requires |rest| >= 32
    ensures Remainder(Plus([false] + rest, Coefficients(w))) == Remainder(Plus(rest, Coefficients(Step(w))))
  {
    hide Coefficients, Step, Xor, Half, Even;
    StepIs(w);
    CoefficientsOfHalf(w);
    CoefficientsOfXor(Half(w), POLYNOMIAL);
    PolynomialIsGenerator();
    var p := Plus([false] + rest, Coefficients(w));
    if p[0] {
      assert Plus(p, Generator())[1..] == Plus(rest, Coefficients(Step(w)));
    } else {
      assert p[1..] == Plus(rest, Coefficients(Step(w)));
    }
  }

  lemma {:induction false} StepsDivide(w: bv32, n: nat, rest: seq<bool>)
    requires |rest| >= 32
    ensures Remainder(Plus(Zeros(n) + rest, Coefficients(w))) == Remainder(Plus(rest, Coefficients(Steps(w, n))))
    decreases n
  {
    hide Coefficients, Step, Remainder, Plus;
    if n == 0 {
      assert Zeros(n) + rest == rest;
    } else {
      assert Zeros(n) + rest == [false] + (Zeros(n - 1) + rest);
      StepDivides(w, Zeros(n - 1) + rest);
      StepsDivide(Step(w), n - 1, rest);
    }
  }

  lemma ByteCoefficients(x: Byte)
    ensures Coefficients(Word(x)) == Bits(x, 8) + Zeros(24)
  {
    hide LowBits, Combine, Coefficients, HighOf;
    LowBitsOfCombine(Bits(x, 8));
    ByteByByte(Word(x));
    NothingAbove(Word(x));
  }

  lemma NothingAbove(w: bv32)
    requires w & 0xFF == w
    ensures var b1 := HighOf(w); var b2 := HighOf(b1); var b3 := HighOf(b2);
      LowBits(b1) == Zeros(8) && LowBits(b2) == Zeros(8) && LowBits(b3) == Zeros(8)
  {
    assert HighOf(w) == 0;
    assert LowBits(0) == Zeros(8);
  }

  /** Taking a byte into the register takes its bits out of what is left to divide. */
  lemma ByteGoesIn(w: bv32, x: Byte, rest: seq<bool>)
    requires |rest| >= 32
    ensures Plus(Bits(x, 8) + rest, Coefficients(w)) == Plus(Zeros(8) + rest, Coefficients(Xor(w, Word(x))))
  {
    hide Coefficients, Word, Xor, Bits;
    CoefficientsOfXor(w, Word(x));
    ByteCoefficients(x);
  }

  /** Taking data into the register is dividing by the generator. */
  lemma {:induction false} UpdateDivides(w: bv32, data: seq<Byte>)
    ensures Remainder(Plus(BitsOf(data) + Zeros(32), Coefficients(w))) == Coefficients(Update(w, data))
    decreases |data|
  {
    hide Coefficients, Steps, Word, Xor, Plus;
    if data == [] {
      assert BitsOf(data) + Zeros(32) == Zeros(32);
      PlusZeros(Coefficients(w));
    } else {
      var rest := BitsOf(data[1..]) + Zeros(32);
      assert BitsOf(data) + Zeros(32) == Bits(data[0], 8) + rest;
      ByteGoesIn(w, data[0], rest);
      StepsDivide(Xor(w, Word(data[0])), 8, rest);
      UpdateDivides(Steps(Xor(w, Word(data[0])), 8), data[1..]);
    }
  }

  lemma PlusZeros(p: seq<bool>)
    requires |p| == 32
    ensures Plus(Zeros(32), p) == p
  {
  }

  lemma OnesRegister()
    ensures Coefficients(0xFFFF_FFFF) == Ones(32)
  {
    hide Coefficients;
    ByteByByte(0xFFFF_FFFF);
  }

  /** crc32 is the frame check sequence of IEEE 802.3: complement the first 32 bits of the
      data with 32 zeros behind them, divide by the generator, complement the remainder. */
  lemma CrcIsRemainder(data: seq<Byte>)
    ensures Coefficients(Crc32(data)) == Plus(Remainder(Plus(BitsOf(data) + Zeros(32), Ones(32))), Ones(32))
  {
    hide Coefficients, Update, Remainder, Plus;
    OnesRegister();
    UpdateDivides(0xFFFF_FFFF, data);
    CoefficientsOfXor(Update(0xFFFF_FFFF, data), 0xFFFF_FFFF);
    assert Crc32(data) == Xor(Update(0xFFFF_FFFF, data), 0xFFFF_FFFF);
  }

  /** The trailer of a frame sends the CRC with its highest power first. */
  lemma TrailerBits(w: bv32)
    ensures BitsOf(Pack(w)) == Coefficients(w)
  {
    hide Coefficients, LowBits, Bits, FromBits;
    ByteByByte(w);
    ShiftsInTurn(w);
    var b := Pack(w);
    assert BitsOf(b) == Bits(b[0], 8) + BitsOf(b[1..]);
    assert BitsOf(b[1..]) == Bits(b[1], 8) + BitsOf(b[2..]) by {
      assert b[1..][1..] == b[2..];
    }
    assert BitsOf(b[2..]) == Bits(b[2], 8) + BitsOf(b[3..]) by {
      assert b[2..][1..] == b[3..];
    }
    assert BitsOf(b[3..]) == Bits(b[3], 8);
    BitsOfNumber(LowBits(w));
    BitsOfNumber(LowBits(w >> 8));
    BitsOfNumber(LowBits(w >> 16));
    BitsOfNumber(LowBits(w >> 24));
  }

  lemma ShiftsInTurn(w: bv32)
    ensures w >> 8 == HighOf(w) && w >> 16 == HighOf(HighOf(w)) && w >> 24 == HighOf(HighOf(HighOf(w)))
  {
  }

  function Complemented(w: bv32): (r: bv32) {
    Xor(w, 0xFFFF_FFFF)
  }

  lemma CrcComplements(data: seq<Byte>)
    ensures Crc32(data) == Complemented(Update(0xFFFF_FFFF, data))
  {
    hide Update;
  }

  lemma ComplementedIn(w: bv32)
    ensures Xor(w, Complemented(w)) == 0xFFFF_FFFF
  {
  }

  lemma JoinTrailer(w: bv32)
    ensures Join(Pack(w)) == w
  {
    hide LowByte, Word, Above;
    var b := Pack(w);
    assert b[1..] == [b[1], b[2], b[3]] && b[1..][1..] == [b[2], b[3]] && b[1..][1..][1..] == [b[3]];
    assert Join([b[3]]) == Above(Word(b[3]), Join([]));
    assert Join([b[2], b[3]]) == Above(Word(b[2]), Join([b[3]]));
    assert Join([b[1], b[2], b[3]]) == Above(Word(b[1]), Join([b[2], b[3]]));
    WordOfByte(w);
    WordOfByte(w >> 8);
    WordOfByte(w >> 16);
    WordOfByte(w >> 24);
    PartsAbove(w);
  }

  lemma PartsAbove(w: bv32)
    ensures Above(w & 0xFF, Above((w >> 8) & 0xFF, Above((w >> 16) & 0xFF, Above((w >> 24) & 0xFF, 0)))) == w
  {
  }

  lemma PartsJoined(w0: bv32, w1: bv32, w2: bv32, w3: bv32)
    requires Masked(w0, 0xFF) == w0 && Masked(w1, 0xFF) == w1 && Masked(w2, 0xFF) == w2 && Masked(w3, 0xFF) == w3
    ensures Above(w0, Above(w1, Above(w2, Above(w3, 0)))) == FromParts(w0, w1, w2, w3)
  {
  }

  lemma UnpackIsJoin(b: seq<Byte>)
    requires |b| == 4
    ensures Unpack(b) == Join(b)
  {
    hide Word, Above, FromParts, Masked;
    assert b[1..] == [b[1], b[2], b[3]] && b[1..][1..] == [b[2], b[3]] && b[1..][1..][1..] == [b[3]];
    assert Join([b[3]]) == Above(Word(b[3]), Join([]));
    assert Join([b[2], b[3]]) == Above(Word(b[2]), Join([b[3]]));
    assert Join([b[1], b[2], b[3]]) == Above(Word(b[1]), Join([b[2], b[3]]));
    ByteOfWord(b[0]);
    ByteOfWord(b[1]);
    ByteOfWord(b[2]);
    ByteOfWord(b[3]);
    PartsJoined(Word(b[0]), Word(b[1]), Word(b[2]), Word(b[3]));
  }

  /** Every trailer is that of the word it unpacks to. */
  lemma PackInverts(b: seq<Byte>)
    requires |b| == 4
    ensures Pack(Unpack(b)) == b
  {
    hide Pack, Unpack, Join;
    UnpackIsJoin(b);
    JoinTrailer(Unpack(b));
    JoinInjective(Pack(Unpack(b)), b);
  }

  lemma StepsOfOnes()
    ensures Steps(0xFFFF_FFFF, 32) == 0xDEBB_20E3
  {
    assert Steps(0xFFFF_FFFF, 8) == 0x2DFD_1072;
    assert Steps(0x2DFD_1072, 8) == 0xBE26_ED00;
    assert Steps(0xBE26_ED00, 8) == 0x00BE_26ED;
    assert Steps(0x00BE_26ED, 8) == 0xDEBB_20E3;
    StepsAppend(0xFFFF_FFFF, 8, 24);
    StepsAppend(0x2DFD_1072, 8, 16);
    StepsAppend(0xBE26_ED00, 8, 8);
  }

  /** Every payload leaves the same residue once its own trailer is taken in. */
  lemma FrameResidue(data: seq<Byte>)
    ensures Crc32(data + Pack(Crc32(data))) == 0x2144_DF1C
  {
    hide Xor, Steps, Join, Update, Pack;
    var r := Update(0xFFFF_FFFF, data);
    CrcComplements(data);
    CrcComplements(data + Pack(Complemented(r)));
    UpdateAppend(0xFFFF_FFFF, data, Pack(Complemented(r)));
    UpdateIsJoin(r, Pack(Complemented(r)));
    JoinTrailer(Complemented(r));
    ComplementedIn(r);
    StepsOfOnes();
  }
}
