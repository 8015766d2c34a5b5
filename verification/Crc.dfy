/** The bitwise CRC-32 of the link framing (the frame check sequence polynomial of section
    3.2.9 of IEEE 802.3, bit-reversed). */
module Crc {
  import opened Bytes

  const POLYNOMIAL: bv32 := 0xEDB8_8320

  /** One step of the inner loop. */
  function Step(crc: bv32): (r: bv32) {
    if crc & 1 == 1 then (crc >> 1) ^ POLYNOMIAL else crc >> 1
  }

  function Xor(a: bv32, b: bv32): (r: bv32) {
    a ^ b
  }

  function Steps(crc: bv32, n: nat): (r: bv32)
    decreases n
  {
    if n == 0 then crc else Steps(Step(crc), n - 1)
  }

  /** The polynomial's highest bit tells which branch a step took. */
  lemma StepInjective(a: bv32, b: bv32)
    ensures Step(a) == Step(b) ==> a == b
  {
  }

  lemma {:induction false} StepsInjective(a: bv32, b: bv32, n: nat)
    ensures Steps(a, n) == Steps(b, n) ==> a == b
    decreases n
  {
    if n > 0 {
      StepsInjective(Step(a), Step(b), n - 1);
      StepInjective(a, b);
    }
  }

  function Bit(b: bool): (w: bv32) {
    if b then 1 else 0
  }

  function Digit(b: bool): (d: nat)
    ensures d < 2
  {
    if b then 1 else 0
  }

  /** The lowest `k` bits of a number, the lowest first. */
  function Bits(x: nat, k: nat): (b: seq<bool>)
    ensures |b| == k
  {
    if k == 0 then [] else [x % 2 == 1] + Bits(x / 2, k - 1)
  }

  function FromBits(b: seq<bool>): (x: nat)
    ensures x < Power2(|b|)
  {
    if b == [] then 0 else Digit(b[0]) + 2 * FromBits(b[1..])
  }

  function Power2(k: nat): (p: nat) {
    if k == 0 then 1 else 2 * Power2(k - 1)
  }

  lemma {:induction false} BitsOfNumber(b: seq<bool>)
    ensures Bits(FromBits(b), |b|) == b
  {
    if b != [] {
      BitsOfNumber(b[1..]);
    }
  }

  lemma {:induction false} NumberOfBits(x: nat, k: nat)
    requires x < Power2(k)
    ensures FromBits(Bits(x, k)) == x
  {
    if k > 0 {
      NumberOfBits(x / 2, k - 1);
      assert Bits(x, k)[1..] == Bits(x / 2, k - 1);
    }
  }

  function Combine(b0: bool, b1: bool, b2: bool, b3: bool, b4: bool, b5: bool, b6: bool, b7: bool): (w: bv32) {
    Bit(b0) | (Bit(b1) << 1) | (Bit(b2) << 2) | (Bit(b3) << 3)
    | (Bit(b4) << 4) | (Bit(b5) << 5) | (Bit(b6) << 6) | (Bit(b7) << 7)
  }

  /** A byte as a word. */
  function Word(x: Byte): (w: bv32) {
    var b := Bits(x, 8);
    Combine(b[0], b[1], b[2], b[3], b[4], b[5], b[6], b[7])
  }

  function LowBits(w: bv32): (b: seq<bool>)
    ensures |b| == 8
  {
    [w & 1 != 0, w & 2 != 0, w & 4 != 0, w & 8 != 0, w & 16 != 0, w & 32 != 0, w & 64 != 0, w & 128 != 0]
  }

  /** The lowest byte of a word. */
  function LowByte(w: bv32): (x: Byte) {
    assert Power2(8) == 256;
    FromBits(LowBits(w))
  }

  lemma CombineBits(b0: bool, b1: bool, b2: bool, b3: bool, b4: bool, b5: bool, b6: bool, b7: bool)
    ensures var w := Combine(b0, b1, b2, b3, b4, b5, b6, b7);
      && w & 0xFF == w
      && (w & 1 != 0) == b0 && (w & 2 != 0) == b1 && (w & 4 != 0) == b2 && (w & 8 != 0) == b3
      && (w & 16 != 0) == b4 && (w & 32 != 0) == b5 && (w & 64 != 0) == b6 && (w & 128 != 0) == b7
  {
  }

  lemma CombineOfWord(w: bv32)
    ensures Combine(w & 1 != 0, w & 2 != 0, w & 4 != 0, w & 8 != 0, w & 16 != 0, w & 32 != 0, w & 64 != 0,
                    w & 128 != 0) == w & 0xFF
  {
  }

  lemma LowBitsOfCombine(b: seq<bool>)
    requires |b| == 8
    ensures var w := Combine(b[0], b[1], b[2], b[3], b[4], b[5], b[6], b[7]); LowBits(w) == b && w & 0xFF == w
  {
    hide Combine;
    CombineBits(b[0], b[1], b[2], b[3], b[4], b[5], b[6], b[7]);
    assert b == [b[0], b[1], b[2], b[3], b[4], b[5], b[6], b[7]];
  }

  lemma ByteBits(x: Byte)
    ensures FromBits(Bits(x, 8)) == x
  {
    assert Power2(8) == 256;
    NumberOfBits(x, 8);
  }

  lemma ByteOfWord(x: Byte)
    ensures LowByte(Word(x)) == x && Masked(Word(x), 0xFF) == Word(x)
  {
    hide Combine, Bits, FromBits, LowBits;
    LowBitsOfCombine(Bits(x, 8));
    ByteBits(x);
  }

  lemma WordOfByte(w: bv32)
    ensures Word(LowByte(w)) == w & 0xFF
  {
    hide Combine, Bits, FromBits;
    BitsOfNumber(LowBits(w));
    CombineOfWord(w);
  }

  /** The loop over the bytes. */
  function Update(crc: bv32, data: seq<Byte>): (r: bv32)
    decreases |data|
  {
    if data == [] then crc else Update(Steps(Xor(crc, Word(data[0])), 8), data[1..])
  }

  function Crc32(data: seq<Byte>): (r: bv32) {
    Update(0xFFFF_FFFF, data) ^ 0xFFFF_FFFF
  }

  lemma OneStep(crc: bv32, n: nat)
    ensures Steps(crc, n) == if n == 0 then crc else Steps(Step(crc), n - 1)
  {
  }

  /** crc32 of pcs_client.py. */
  method ComputeCrc32(data: seq<Byte>) returns (crc: bv32)
    ensures crc == Crc32(data)
  {
    hide Steps, Step, Word, Xor;
    crc := 0xFFFF_FFFF;
    for i := 0 to |data|
      invariant Update(0xFFFF_FFFF, data) == Update(crc, data[i..])
    {
      assert data[i..][1..] == data[i + 1..];
      crc := Xor(crc, Word(data[i]));
      ghost var start := crc;
      for j := 0 to 8
        invariant Steps(start, 8) == Steps(crc, 8 - j)
      {
        OneStep(crc, 8 - j);
        crc := Step(crc);
      }
      OneStep(crc, 0);
    }
    crc := crc ^ 0xFFFF_FFFF;
  }

  lemma {:induction false} UpdateInjective(a: bv32, b: bv32, data: seq<Byte>)
    ensures Update(a, data) == Update(b, data) ==> a == b
    decreases |data|
  {
    hide Steps, Word, Xor;
    if data != [] {
      var x := Word(data[0]);
      UpdateInjective(Steps(Xor(a, x), 8), Steps(Xor(b, x), 8), data[1..]);
      StepsInjective(Xor(a, x), Xor(b, x), 8);
      XorCancels(a, b, x);
    }
  }

  lemma XorCancels(a: bv32, b: bv32, x: bv32)
    ensures Xor(a, x) == Xor(b, x) ==> a == b
    ensures Xor(x, a) == Xor(x, b) ==> a == b
  {
  }

  lemma {:induction false} UpdateAppend(crc: bv32, a: seq<Byte>, b: seq<Byte>)
    ensures Update(crc, a + b) == Update(Update(crc, a), b)
    decreases |a|
  {
    if a == [] {
      assert a + b == b;
    } else {
      assert (a + b)[1..] == a[1..] + b;
      UpdateAppend(Steps(Xor(crc, Word(a[0])), 8), a[1..], b);
    }
  }

  function Half(bits: bv32): (r: bv32) {
    bits >> 1
  }

  predicate Even(bits: bv32) {
    bits & 1 == 0
  }

  lemma StepIs(crc: bv32)
    ensures Step(crc) == if Even(crc) then Half(crc) else Xor(Half(crc), POLYNOMIAL)
  {
  }

  lemma HalfOfXor(a: bv32, b: bv32)
    ensures Half(Xor(a, b)) == Xor(Half(a), Half(b))
  {
  }

  lemma EvenXor(a: bv32, b: bv32)
    requires Even(b)
    ensures Even(Xor(a, b)) == Even(a)
  {
  }

  lemma XorCommutes(a: bv32, b: bv32)
    ensures Xor(a, b) == Xor(b, a)
  {
  }

  lemma XorAssociates(a: bv32, b: bv32, c: bv32)
    ensures Xor(Xor(a, b), c) == Xor(a, Xor(b, c))
  {
  }

  lemma XorSwaps(a: bv32, b: bv32, c: bv32)
    ensures Xor(Xor(a, b), c) == Xor(Xor(a, c), b)
  {
    hide Xor;
    XorAssociates(a, b, c);
    XorCommutes(b, c);
    XorAssociates(a, c, b);
  }

  /** Bits that a step does not look at are only shifted. */
  lemma StepShifts(crc: bv32, bits: bv32)
    requires Even(bits)
    ensures Step(Xor(crc, bits)) == Xor(Step(crc), Half(bits))
  {
    hide Even, Xor, Half, Step;
    StepIs(crc);
    StepIs(Xor(crc, bits));
    HalfOfXor(crc, bits);
    EvenXor(crc, bits);
    XorSwaps(Half(crc), Half(bits), POLYNOMIAL);
  }

  function Half8(bits: bv32, k: nat): (r: bv32)
    requires k <= 8
  {
    if k == 0 then bits else Half(Half8(bits, k - 1))
  }

  lemma Evens(bits: bv32)
    requires bits & 0xFF == 0
    ensures
      var h1 := Half(bits); var h2 := Half(h1); var h3 := Half(h2); var h4 := Half(h3);
      var h5 := Half(h4); var h6 := Half(h5); var h7 := Half(h6);
      && Even(bits) && Even(h1) && Even(h2) && Even(h3) && Even(h4) && Even(h5) && Even(h6) && Even(h7)
      && Half(h7) == bits >> 8
  {
  }

  lemma HalvesAreEven(bits: bv32, k: nat)
    requires bits & 0xFF == 0 && k < 8
    ensures Even(Half8(bits, k)) && Half8(bits, 8) == bits >> 8
  {
    hide Half, Even;
    Evens(bits);
    assert Half8(bits, 1) == Half(bits);
    assert Half8(bits, 2) == Half(Half(bits));
    assert Half8(bits, 3) == Half(Half8(bits, 2));
    assert Half8(bits, 4) == Half(Half8(bits, 3));
    assert Half8(bits, 5) == Half(Half8(bits, 4));
    assert Half8(bits, 6) == Half(Half8(bits, 5));
    assert Half8(bits, 7) == Half(Half8(bits, 6));
    assert Half8(bits, 8) == Half(Half8(bits, 7));
  }

  lemma StepShiftsHalf(crc: bv32, bits: bv32, k: nat)
    requires k < 8 && Even(Half8(bits, k))
    ensures Step(Xor(crc, Half8(bits, k))) == Xor(Step(crc), Half8(bits, k + 1))
  {
    hide Step, Xor, Half, Even;
    StepShifts(crc, Half8(bits, k));
  }

  lemma {:induction false} StepsShiftFrom(crc: bv32, bits: bv32, k: nat)
    requires k <= 8 && forall j :: k <= j < 8 ==> Even(Half8(bits, j))
    ensures Steps(Xor(crc, Half8(bits, k)), 8 - k) == Xor(Steps(crc, 8 - k), Half8(bits, 8))
    decreases 8 - k
  {
    hide Step, Xor, Half8, Even;
    if k < 8 {
      StepShiftsHalf(crc, bits, k);
      StepsShiftFrom(Step(crc), bits, k + 1);
    }
  }

  /** Eight steps only shift the bits above the lowest eight. */
  lemma StepsShift(crc: bv32, bits: bv32)
    requires bits & 0xFF == 0
    ensures Steps(Xor(crc, bits), 8) == Xor(Steps(crc, 8), bits >> 8)
  {
    hide Step, Xor, Steps, Even;
    forall k | 0 <= k < 8
      ensures Even(Half8(bits, k))
    {
      HalvesAreEven(bits, k);
    }
    HalvesAreEven(bits, 0);
    StepsShiftFrom(crc, bits, 0);
  }

  /** Up to four bytes in one word, the first one lowest. */
  function Join(data: seq<Byte>): (w: bv32) {
    if data == [] then 0 else Above(Word(data[0]), Join(data[1..]))
  }

  function Above(low: bv32, high: bv32): (w: bv32) {
    low ^ (high << 8)
  }

  function Masked(w: bv32, mask: bv32): (r: bv32) {
    w & mask
  }

  /** The bits above `n` bytes. */
  function UpperBits(n: nat): (mask: bv32) {
    if n == 0 then 0xFFFF_FFFF
    else if n == 1 then 0xFFFF_FF00
    else if n == 2 then 0xFFFF_0000
    else if n == 3 then 0xFF00_0000
    else 0
  }

  /** The word of `n` bytes leaves the upper bits free. */
  predicate Short(w: bv32, n: nat) {
    Masked(w, UpperBits(n)) == 0
  }

  function LowOf(w: bv32): (low: bv32) {
    w & 0xFF
  }

  function HighOf(w: bv32): (high: bv32) {
    w >> 8
  }

  lemma AboveMasked(low: bv32, high: bv32, mask: bv32, shifted: bv32)
    requires Masked(low, 0xFF) == low && Masked(high, mask) == 0 && shifted == mask << 8
    ensures Masked(Above(low, high), shifted) == 0
  {
  }

  lemma LowPart(low: bv32, high: bv32)
    requires low & 0xFF == low
    ensures LowOf(Above(low, high)) == low
  {
  }

  lemma HighPart(low: bv32, high: bv32)
    requires low & 0xFF == low && (high << 8) >> 8 == high
    ensures HighOf(Above(low, high)) == high
  {
    assert (low ^ (high << 8)) >> 8 == (low >> 8) ^ ((high << 8) >> 8);
    assert low >> 8 == 0;
  }

  lemma ShiftedBack(high: bv32)
    requires high & 0xFF00_0000 == 0
    ensures (high << 8) >> 8 == high
  {
  }

  lemma ShiftedIsEven(high: bv32)
    ensures (high << 8) & 0xFF == 0
  {
  }

  lemma FourFree(w: bv32)
    requires Masked(w, 0xFFFF_FFFF) == 0
    ensures Masked(w, 0xFF00_0000) == 0
  {
  }

  lemma ThreeFree(w: bv32)
    requires Masked(w, 0xFFFF_FF00) == 0
    ensures Masked(w, 0xFF00_0000) == 0
  {
  }

  lemma TwoFree(w: bv32)
    requires Masked(w, 0xFFFF_0000) == 0
    ensures Masked(w, 0xFF00_0000) == 0
  {
  }

  lemma AboveParts(low: bv32, high: bv32)
    requires Masked(low, 0xFF) == low && Masked(high, 0xFF00_0000) == 0
    ensures LowOf(Above(low, high)) == low && HighOf(Above(low, high)) == high
    ensures (high << 8) & 0xFF == 0 && (high << 8) >> 8 == high
  {
    hide Above, LowOf, HighOf;
    ShiftedBack(high);
    ShiftedIsEven(high);
    LowPart(low, high);
    HighPart(low, high);
  }

  lemma ShortAbove(low: bv32, high: bv32, n: nat)
    requires n <= 3 && Masked(low, 0xFF) == low && Short(high, n)
    ensures Short(Above(low, high), n + 1)
    ensures (high << 8) & 0xFF == 0 && (high << 8) >> 8 == high
    ensures LowOf(Above(low, high)) == low && HighOf(Above(low, high)) == high
  {
    hide Above, LowOf, HighOf, Masked;
    if n == 0 {
      FourFree(high);
      AboveMasked(low, high, 0xFFFF_FFFF, 0xFFFF_FF00);
    } else if n == 1 {
      ThreeFree(high);
      AboveMasked(low, high, 0xFFFF_FF00, 0xFFFF_0000);
    } else if n == 2 {
      TwoFree(high);
      AboveMasked(low, high, 0xFFFF_0000, 0xFF00_0000);
    } else {
      AboveMasked(low, high, 0xFF00_0000, 0);
    }
    AboveParts(low, high);
  }

  lemma {:induction false} JoinIsShort(data: seq<Byte>)
    requires |data| <= 4
    ensures Short(Join(data), |data|)
  {
    if data != [] {
      hide Word, Short, Above, LowOf, HighOf;
      JoinIsShort(data[1..]);
      ByteOfWord(data[0]);
      ShortAbove(Word(data[0]), Join(data[1..]), |data| - 1);
    } else {
      assert Masked(0, 0xFFFF_FFFF) == 0;
    }
  }

  lemma {:induction false} StepsAppend(crc: bv32, n: nat, k: nat)
    ensures Steps(crc, n + k) == Steps(Steps(crc, n), k)
    decreases n
  {
    hide Step;
    if n > 0 {
      StepsAppend(Step(crc), n - 1, k);
    }
  }

  function Up(high: bv32): (w: bv32) {
    high << 8
  }

  lemma XorAbove(crc: bv32, low: bv32, high: bv32)
    ensures Xor(crc, Above(low, high)) == Xor(Xor(crc, low), Up(high))
  {
  }

  lemma StepsLower(crc: bv32, high: bv32, n: nat)
    requires n <= 3 && Short(high, n)
    ensures Steps(Xor(crc, Up(high)), 8) == Xor(Steps(crc, 8), high)
  {
    hide Steps, Xor, Short, Above, LowOf, HighOf, Masked;
    NoLowByte();
    ShortAbove(0, high, n);
    StepsShift(crc, high << 8);
  }

  lemma NoLowByte()
    ensures Masked(0, 0xFF) == 0
  {
  }

  /** Taking up to four bytes in is taking the word they form in at once. */
  lemma {:induction false} UpdateIsJoin(crc: bv32, data: seq<Byte>)
    requires |data| <= 4
    ensures Update(crc, data) == Steps(Xor(crc, Join(data)), 8 * |data|)
    decreases |data|
  {
    if data == [] {
      assert Xor(crc, 0) == crc;
    } else {
      FirstByteIn(crc, data);
      UpdateIsJoin(Steps(Xor(crc, Word(data[0])), 8), data[1..]);
    }
  }

  lemma FirstByteIn(crc: bv32, data: seq<Byte>)
    requires 0 < |data| <= 4
    ensures Steps(Xor(crc, Join(data)), 8 * |data|)
      == Steps(Xor(Steps(Xor(crc, Word(data[0])), 8), Join(data[1..])), 8 * |data[1..]|)
  {
    hide Step, Steps, Word, Short, Above, Xor, Up;
    var low, high := Word(data[0]), Join(data[1..]);
    JoinIsShort(data[1..]);
    XorAbove(crc, low, high);
    StepsLower(Xor(crc, low), high, |data| - 1);
    StepsAppend(Xor(crc, Join(data)), 8, 8 * (|data| - 1));
  }

  lemma AboveInjective(low: bv32, high: bv32, low2: bv32, high2: bv32, n: nat)
    requires Masked(low, 0xFF) == low && Masked(low2, 0xFF) == low2 && n <= 3 && Short(high, n) && Short(high2, n)
    requires Above(low, high) == Above(low2, high2)
    ensures low == low2 && high == high2
  {
    hide Above, LowOf, HighOf, Short, Masked;
    ShortAbove(low, high, n);
    ShortAbove(low2, high2, n);
  }

  lemma {:induction false} JoinInjective(a: seq<Byte>, b: seq<Byte>)
    requires |a| == |b| <= 4 && Join(a) == Join(b)
    ensures a == b
  {
    if a != [] {
      hide Word, Short, Above, LowOf, HighOf;
      ByteOfWord(a[0]);
      ByteOfWord(b[0]);
      JoinIsShort(a[1..]);
      JoinIsShort(b[1..]);
      AboveInjective(Word(a[0]), Join(a[1..]), Word(b[0]), Join(b[1..]), |a| - 1);
      JoinInjective(a[1..], b[1..]);
      assert a == [a[0]] + a[1..] && b == [b[0]] + b[1..];
    }
  }

  /** Two different payloads of the same length that agree outside four consecutive bytes
      never have the same CRC. */
  lemma BurstChangesCrc(before: seq<Byte>, a: seq<Byte>, b: seq<Byte>, after: seq<Byte>)
    requires |a| == |b| <= 4 && a != b
    ensures Crc32(before + a + after) != Crc32(before + b + after)
  {
    hide Xor, Steps, Join, Update;
    var start := Update(0xFFFF_FFFF, before);
    UpdateAppend(0xFFFF_FFFF, before + a, after);
    UpdateAppend(0xFFFF_FFFF, before, a);
    UpdateAppend(0xFFFF_FFFF, before + b, after);
    UpdateAppend(0xFFFF_FFFF, before, b);
    if Crc32(before + a + after) == Crc32(before + b + after) {
      Complement(Update(0xFFFF_FFFF, before + a + after), Update(0xFFFF_FFFF, before + b + after));
      UpdateInjective(Update(start, a), Update(start, b), after);
      UpdateIsJoin(start, a);
      UpdateIsJoin(start, b);
      StepsInjective(Xor(start, Join(a)), Xor(start, Join(b)), 8 * |a|);
      XorCancels(Join(a), Join(b), start);
      JoinInjective(a, b);
      assert false;
    }
  }

  lemma Complement(a: bv32, b: bv32)
    ensures a ^ 0xFFFF_FFFF == b ^ 0xFFFF_FFFF ==> a == b
  {
  }

  /** struct.pack("<I", w). */
  function Pack(w: bv32): (b: seq<Byte>)
    ensures |b| == 4
  {
    [LowByte(w), LowByte(w >> 8), LowByte(w >> 16), LowByte(w >> 24)]
  }

  function Unpack(b: seq<Byte>): (w: bv32)
    requires |b| == 4
  {
    FromParts(Word(b[0]), Word(b[1]), Word(b[2]), Word(b[3]))
  }

  function FromParts(w0: bv32, w1: bv32, w2: bv32, w3: bv32): (w: bv32) {
    w0 | (w1 << 8) | (w2 << 16) | (w3 << 24)
  }

  lemma UnpackInverts(w: bv32)
    ensures Unpack(Pack(w)) == w
  {
    hide LowByte, Word;
    WordOfByte(w);
    WordOfByte(w >> 8);
    WordOfByte(w >> 16);
    WordOfByte(w >> 24);
    FourParts(w);
  }

  lemma FourParts(w: bv32)
    ensures (w & 0xFF) | (((w >> 8) & 0xFF) << 8) | (((w >> 16) & 0xFF) << 16) | (((w >> 24) & 0xFF) << 24) == w
  {
  }
}
