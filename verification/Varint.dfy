/** Base-128 varints and zigzag, as nanopb writes and reads them. */
module Varint {
  import opened Arithmetic
  import opened Bytes
  import opened Options
  import opened ProtoStream

  const WORD32 := 0x1_0000_0000
  const WORD64 := 0x1_0000_0000_0000_0000
  const HALF64 := 0x8000_0000_0000_0000

  /** The shortest base-128 form: groups of seven bits, the lowest first, all but the last
      with the high bit set. */
  function Base128(n: nat): (b: seq<Byte>)
    ensures |b| > 0
  {
    if n < 128 then [n] else [128 + n % 128] + Base128(n / 128)
  }

  /** How many values the groups from the k-th of ten on hold within 64 bits. */
  function Limit(k: nat): (m: nat)
    requires k <= 9
    ensures m >= 2 && (k < 9 ==> m >= 256)
    decreases 9 - k
  {
    if k == 9 then 2 else 128 * Limit(k + 1)
  }

  lemma LimitIs()
    ensures Limit(0) == WORD64
  {
    assert Limit(5) == 128 * 128 * 128 * 128 * Limit(9);
    assert Limit(0) == 128 * 128 * 128 * 128 * 128 * Limit(5);
  }

  lemma {:induction false} Base128Length(n: nat, k: nat)
    requires k <= 9 && n < Limit(k)
    ensures |Base128(n)| <= 10 - k
  {
    if n >= 128 {
      Base128Length(n / 128, k + 1);
    }
  }

  lemma Base128Of64Bits(n: nat)
    requires n < WORD64
    ensures |Base128(n)| <= 10
  {
    LimitIs();
    Base128Length(n, 0);
  }

  datatype Parsed<T> = Parsed(value: T, rest: seq<Byte>)

  /** pb_decode_varint, from the byte with index `k` on: the tenth byte may hold one bit
      only. */
  function Read64(b: seq<Byte>, k: nat): (r: Option<Parsed<nat>>)
    ensures r.Some? ==> |r.value.rest| < |b|
  {
    if b == [] || (k >= 9 && b[0] >= 2) then
      None
    else if b[0] < 128 then
      Some(Parsed(b[0], b[1..]))
    else
      match Read64(b[1..], k + 1)
      case None => None
      case Some(Parsed(high, rest)) => Some(Parsed(b[0] - 128 + 128 * high, rest))
  }

  /** pb_decode_varint32_eof, from the byte with index `k` on. What stands behind the 32
      bits must be zero, or the sign extension of a value whose bit 31, `sign`, is set. */
  function Read32(b: seq<Byte>, k: nat, sign: bool): (r: Option<Parsed<nat>>)
    ensures r.Some? ==> |r.value.rest| < |b|
  {
    if b == [] then
      None
    else if k < 4 then
      if b[0] < 128 then
        Some(Parsed(b[0], b[1..]))
      else
        match Read32(b[1..], k + 1, sign)
        case None => None
        case Some(Parsed(high, rest)) => Some(Parsed(b[0] - 128 + 128 * high, rest))
    else if k == 4 then
      if b[0] / 16 % 8 != 0 && b[0] / 8 % 16 != 15 then
        None
      else if b[0] < 128 then
        Some(Parsed(b[0] % 16, b[1..]))
      else
        match Read32(b[1..], 5, b[0] / 8 % 2 == 1)
        case None => None
        case Some(Parsed(_, rest)) => Some(Parsed(b[0] % 16, rest))
    else if k >= 10 || (b[0] % 128 != 0 && !(sign && b[0] == (if k < 9 then 0xFF else 1))) then
      None
    else if b[0] < 128 then
      Some(Parsed(0, b[1..]))
    else
      Read32(b[1..], k + 1, sign)
  }

  /** Decoding inverts the shortest form. */
  lemma {:induction false} Read64Inverts(n: nat, k: nat, rest: seq<Byte>)
    requires k <= 9 && n < Limit(k)
    ensures Read64(Base128(n) + rest, k) == Some(Parsed(n, rest))
  {
    hide Limit, Read64, Base128;
    LimitStep(k);
    Base128Step(n);
    if n < 128 {
      Read64Last(n, rest, k);
    } else {
      Quotient(n, if k < 9 then Limit(k + 1) else 1);
      Read64Inverts(n / 128, k + 1, rest);
      Read64First(128 + n % 128, Base128(n / 128) + rest, k);
      assert Base128(n) + rest == [128 + n % 128] + (Base128(n / 128) + rest);
    }
  }

  lemma Base128Step(n: nat)
    ensures Base128(n) == if n < 128 then [n] else [128 + n % 128] + Base128(n / 128)
  {
  }

  lemma Quotient(n: nat, m: nat)
    ensures n < 128 * m ==> n / 128 < m
    ensures n == n % 128 + 128 * (n / 128)
  {
  }

  lemma Read64Last(byte: Byte, rest: seq<Byte>, k: nat)
    requires byte < 128 && (k >= 9 ==> byte < 2)
    ensures Read64([byte] + rest, k) == Some(Parsed(byte, rest))
  {
    assert ([byte] + rest)[1..] == rest;
  }

  lemma LimitStep(k: nat)
    requires k <= 9
    ensures k < 9 ==> Limit(k) == 128 * Limit(k + 1)
    ensures Limit(9) == 2
  {
  }

  lemma Read64First(byte: Byte, more: seq<Byte>, k: nat)
    requires byte >= 128 && k < 9
    ensures Read64([byte] + more, k) == match Read64(more, k + 1)
                                        case None => None
                                        case Some(Parsed(high, rest)) => Some(Parsed(byte - 128 + 128 * high, rest))
  {
    assert ([byte] + more)[1..] == more;
  }

  lemma RoundTrip64(n: nat, rest: seq<Byte>)
    requires n < WORD64
    ensures Read64(Base128(n) + rest, 0) == Some(Parsed(n, rest))
  {
    LimitIs();
    Read64Inverts(n, 0, rest);
  }

  /** No byte string that decodes to a value is shorter than its shortest form. */
  lemma {:induction false} ShortestForm(b: seq<Byte>, k: nat)
    requires Read64(b, k).Some?
    ensures |Base128(Read64(b, k).value.value)| <= |b| - |Read64(b, k).value.rest|
  {
    if b[0] >= 128 {
      ShortestForm(b[1..], k + 1);
    }
  }

  lemma {:induction false} Read64Bound(b: seq<Byte>, k: nat)
    requires k <= 9 && Read64(b, k).Some?
    ensures Read64(b, k).value.value < Limit(k)
  {
    if b[0] >= 128 {
      Read64Bound(b[1..], k + 1);
    }
  }

  /** How many values the bits of a 32-bit word from group `k` on have. */
  function LowBits(k: nat): (m: nat)
    requires k <= 4
    ensures m > 0
    decreases 4 - k
  {
    if k == 4 then 16 else 128 * LowBits(k + 1)
  }

  lemma LowBitsOfSum(low: nat, high: nat, other: nat, m: nat)
    requires m > 0 && low < 128 && other < m && high % m == other
    ensures (low + 128 * high) % (128 * m) == low + 128 * other
  {
    var q := high / m;
    assert high == q * m + other;
    assert low + 128 * high == q * (128 * m) + (low + 128 * other);
    Remainder(q, 128 * m, low + 128 * other);
  }

  lemma LowFourBits(low: nat, high: nat)
    ensures (low + 128 * high) % 16 == low % 16
  {
  }

  ghost predicate LowPart(n: nat, part: nat, m: nat) {
    m > 0 && part < m && n % m == part
  }

  /** Whatever the 32-bit decoder accepts, the 64-bit decoder accepts too; it uses the same
      bytes and agrees on the low 32 bits. */
  lemma {:induction false} DecodersAgree(b: seq<Byte>, k: nat, sign: bool)
    requires Read32(b, k, sign).Some?
    ensures Read64(b, k).Some? && Read64(b, k).value.rest == Read32(b, k, sign).value.rest
    ensures k <= 4 ==> LowPart(Read64(b, k).value.value, Read32(b, k, sign).value.value, LowBits(k))
  {
    hide LowBits, LowPart;
    if b[0] < 128 {
      LowPartOfByte(b[0], k);
    } else if k < 4 {
      DecodersAgree(b[1..], k + 1, sign);
      LowPartGrows(b[0] - 128, Read64(b[1..], k + 1).value.value, Read32(b[1..], k + 1, sign).value.value, k);
    } else if k == 4 {
      DecodersAgree(b[1..], 5, b[0] / 8 % 2 == 1);
      LowPartOfFifth(b[0], Read64(b[1..], 5).value.value);
    } else {
      DecodersAgree(b[1..], k + 1, sign);
    }
  }

  lemma Read32Bounded(b: seq<Byte>)
    ensures Read32(b, 0, false).Some? ==> Read32(b, 0, false).value.value < WORD32
  {
    if Read32(b, 0, false).Some? {
      DecodersAgree(b, 0, false);
      Units(0);
    }
  }

  lemma LowPartOfByte(byte: Byte, k: nat)
    requires byte < 128
    ensures k < 4 ==> LowPart(byte, byte, LowBits(k))
    ensures k == 4 ==> LowPart(byte, byte % 16, LowBits(4))
  {
    if k < 4 {
      Remainder(0, LowBits(k), byte);
    }
  }

  lemma LowPartGrows(low: nat, high: nat, other: nat, k: nat)
    requires k < 4 && low < 128 && LowPart(high, other, LowBits(k + 1))
    ensures LowPart(low + 128 * high, low + 128 * other, LowBits(k))
  {
    LowBitsOfSum(low, high, other, LowBits(k + 1));
  }

  lemma LowPartOfFifth(byte: Byte, high: nat)
    requires byte >= 128
    ensures LowPart(byte - 128 + 128 * high, byte % 16, LowBits(4))
  {
    LowFourBits(byte - 128, high);
  }

  lemma {:induction false} Read32Inverts(n: nat, k: nat, sign: bool, rest: seq<Byte>)
    requires k <= 4 && n < LowBits(k)
    ensures Read32(Base128(n) + rest, k, sign) == Some(Parsed(n, rest))
  {
    var b := Base128(n) + rest;
    if n < 128 {
      assert b == [n] + rest && b[1..] == rest;
    } else {
      assert b[1..] == Base128(n / 128) + rest;
      Read32Inverts(n / 128, k + 1, sign, rest);
    }
  }

  lemma RoundTrip32(n: nat, rest: seq<Byte>)
    requires n < WORD32
    ensures Read32(Base128(n) + rest, 0, false) == Some(Parsed(n, rest))
  {
    Read32Inverts(n, 0, false, rest);
  }

  /** pb_encode_varint_32: the value is in two 32-bit halves. */
  method EncodeSplit(low: nat, high: nat) returns (buffer: seq<Byte>)
    requires low < WORD32 && high < WORD32
    ensures buffer == Base128(low + WORD32 * high) && |buffer| <= 10
  {
    hide Base128, LowBits, Whole;
    ghost var n := low + WORD32 * high;
    Base128Of64Bits(n);
    buffer := [];
    var l: nat, h, byte: Byte := low / 128, high, low % 128;
    WholeAtFirst(low, high);
    while |buffer| < 4 && (l != 0 || h != 0)
      invariant byte < 128 && |buffer| <= 4 && byte + 128 * l < LowBits(|buffer|)
      invariant Base128(n) == buffer + Base128(Whole(byte, l, |buffer|, h))
    {
      NextGroup(byte, l, |buffer|, h);
      buffer := buffer + [byte + 128];
      byte := l % 128;
      l := l / 128;
    }
    WholeAtLast(byte, l, |buffer|, h);
    if h != 0 {
      buffer := EncodeHigh(buffer, byte + h % 8 * 16, h / 8);
    } else {
      LastGroup(byte);
      buffer := buffer + [byte];
    }
  }

  /** What is left to encode after `k` groups of the lower half. */
  ghost function Whole(byte: Byte, l: nat, k: nat, h: nat): (n: nat)
    requires k <= 4
  {
    byte + 128 * l + LowBits(k) * h
  }

  lemma WholeAtFirst(low: nat, high: nat)
    requires low < WORD32
    ensures Whole(low % 128, low / 128, 0, high) == low + WORD32 * high
    ensures low % 128 + 128 * (low / 128) < LowBits(0)
  {
    hide LowBits;
    Units(0);
  }

  lemma NextGroup(byte: Byte, l: nat, k: nat, h: nat)
    requires byte < 128 && k < 4 && byte + 128 * l < LowBits(k) && (l != 0 || h != 0)
    ensures Base128(Whole(byte, l, k, h)) == [byte + 128] + Base128(Whole(l % 128, l / 128, k + 1, h))
    ensures l % 128 + 128 * (l / 128) < LowBits(k + 1)
  {
    hide Base128, LowBits;
    Units(k);
    HighPart(LowBits(k + 1), h);
    Group(byte, l, LowBits(k + 1) * h);
  }

  lemma WholeAtLast(byte: Byte, l: nat, k: nat, h: nat)
    requires byte < 128 && k <= 4 && byte + 128 * l < LowBits(k) && (k == 4 || (l == 0 && h == 0))
    ensures Whole(byte, l, k, h) == if h == 0 then byte else byte + h % 8 * 16 + 128 * (h / 8)
    ensures h != 0 ==> byte + h % 8 * 16 < 128
  {
    hide LowBits;
    Units(k);
  }

  /** The second loop of pb_encode_varint_32: only the upper half is left. */
  method EncodeHigh(start: seq<Byte>, first: Byte, high: nat) returns (buffer: seq<Byte>)
    requires first < 128
    ensures buffer == start + Base128(first + 128 * high)
  {
    hide Base128;
    buffer := start;
    var h: nat, byte: Byte := high, first;
    while h != 0
      invariant byte < 128 && start + Base128(first + 128 * high) == buffer + Base128(byte + 128 * h)
    {
      Group(byte, h, 0);
      buffer := buffer + [byte + 128];
      byte := h % 128;
      h := h / 128;
    }
    LastGroup(byte);
    buffer := buffer + [byte];
  }

  lemma Units(k: nat)
    requires k <= 4
    ensures LowBits(0) == WORD32 && LowBits(4) == 16 && LowBits(k) >= 16
    ensures k < 4 ==> LowBits(k) == 128 * LowBits(k + 1) && LowBits(k + 1) > 0
  {
    assert LowBits(0) == 128 * 128 * 128 * 128 * LowBits(4);
  }

  lemma LastGroup(byte: nat)
    requires byte < 128
    ensures Base128(byte) == [byte]
  {
  }

  lemma HighPart(unit: nat, h: nat)
    requires unit > 0
    ensures 128 * unit * h == 128 * (unit * h) && (h > 0 ==> unit * h > 0)
  {
  }

  /** One group of the shortest form of a value that needs more. */
  lemma Group(byte: nat, l: nat, more: nat)
    requires byte < 128 && l + more > 0
    ensures Base128(byte + 128 * l + 128 * more) == [byte + 128] + Base128(l % 128 + 128 * (l / 128) + more)
  {
    var n := byte + 128 * (l + more);
    assert n % 128 == byte && n / 128 == l + more;
  }

  /** The loops have read some groups, worth `result`; the rest is worth `scale` times what
      is still to be read. */
  ghost predicate Continues(whole: Option<Parsed<nat>>, result: nat, scale: nat, rest: Option<Parsed<nat>>) {
    match rest
    case None => whole == None
    case Some(p) => whole == Some(Parsed(result + scale * p.value, p.rest))
  }

  lemma ContinuesGroup(whole: Option<Parsed<nat>>, result: nat, scale: nat, b: seq<Byte>, k: nat)
    requires Continues(whole, result, scale, Read64(b, k))
    ensures if b == [] || (k >= 9 && b[0] >= 2) then whole == None
            else if b[0] < 128 then whole == Some(Parsed(result + scale * b[0], b[1..]))
            else Continues(whole, result + scale * (b[0] - 128), 128 * scale, Read64(b[1..], k + 1))
  {
    if b != [] && b[0] >= 128 && Read64(b[1..], k + 1).Some? {
      GroupProduct(scale, b[0] - 128, Read64(b[1..], k + 1).value.value);
    }
  }

  lemma GroupProduct(scale: nat, low: nat, high: nat)
    ensures scale * (low + 128 * high) == scale * low + 128 * scale * high
  {
    Distributes(low, 128 * high, scale);
  }

  lemma ContinuesFromStart64(b: seq<Byte>)
    ensures Continues(Read64(b, 0), 0, 1, Read64(b[0..], 0))
  {
    assert b[0..] == b;
  }

  /** A stream was read as a function of its bytes says. */
  ghost predicate Reads<T>(whole: Option<Parsed<T>>, r: Option<T>, left: seq<Byte>) {
    match whole
    case None => r == None
    case Some(p) => r == Some(p.value) && left == p.rest
  }

  /** pb_decode_varint. */
  method Decode64(stream: IStream) returns (r: Option<nat>)
    requires stream.Valid()
    modifies stream
    ensures stream.Valid() && stream.End() == old(stream.End())
    ensures Reads(Read64(old(stream.Left()), 0), r, stream.Left())
  {
    hide Read64, Continues;
    var i: nat, scale: nat, result: nat := 0, 1, 0;
    ghost var b := stream.Left();
    ContinuesFromStart64(b);
    while true
      invariant stream.Valid() && stream.End() == old(stream.End())
      invariant 0 <= i <= |b| && 0 <= result && 0 < scale && stream.Left() == b[i..]
      invariant Continues(Read64(b, 0), result, scale, Read64(b[i..], i))
      decreases |b| - i
    {
      ContinuesGroup(Read64(b, 0), result, scale, b[i..], i);
      assert i < |b| ==> b[i..][1..] == b[i + 1..];
      var byte := stream.ReadByte();
      if byte == None || (7 * i >= 63 && byte.value >= 2) {
        return None;
      }
      result := result + scale * (byte.value as int % 128);
      i, scale := i + 1, 128 * scale;
      if byte.value < 128 {
        return Some(result);
      }
    }
  }

  lemma ContinuesGroup32(whole: Option<Parsed<nat>>, result: nat, scale: nat, b: seq<Byte>, k: nat)
    requires Continues(whole, result, scale, Read32(b, k, false)) && k < 4
    ensures if b == [] then whole == None
            else if b[0] < 128 then whole == Some(Parsed(result + scale * b[0], b[1..]))
            else Continues(whole, result + scale * (b[0] - 128), 128 * scale, Read32(b[1..], k + 1, false))
  {
    if b != [] && b[0] >= 128 && Read32(b[1..], k + 1, false).Some? {
      GroupProduct(scale, b[0] - 128, Read32(b[1..], k + 1, false).value.value);
    }
  }

  lemma ContinuesFromStart(b: seq<Byte>)
    ensures Continues(Read32(b, 0, false), 0, 1, Read32(b[0..], 0, false)) && Scale(0) == 1
  {
    assert b[0..] == b;
  }

  /** What the group with index `k` counts. */
  function Scale(k: nat): (p: nat) {
    if k == 0 then 1 else 128 * Scale(k - 1)
  }

  lemma PowerStep(k: nat)
    ensures Scale(k + 1) == 128 * Scale(k) && Scale(4) == 0x1000_0000
  {
    assert Scale(4) == 128 * 128 * 128 * 128 * Scale(0);
  }

  lemma GroupFits(result: nat, scale: nat, group: nat)
    requires result < scale && group < 128
    ensures result + scale * group < 128 * scale
  {
    assert scale * group <= scale * 127;
  }

  /** The bytes behind the fifth add nothing. */
  ghost predicate Passes(whole: Option<Parsed<nat>>, result: nat, rest: Option<Parsed<nat>>) {
    match rest
    case None => whole == None
    case Some(p) => whole == Some(Parsed(result, p.rest))
  }

  /** pb_decode_varint32. */
  method Decode32(stream: IStream) returns (r: Option<nat>)
    requires stream.Valid()
    modifies stream
    ensures stream.Valid() && stream.End() == old(stream.End())
    ensures Reads(Read32(old(stream.Left()), 0, false), r, stream.Left())
  {
    hide Read32, Continues, Scale;
    var i: nat, scale: nat, result: nat := 0, 1, 0;
    ghost var b := stream.Left();
    ContinuesFromStart(b);
    while i < 4
      invariant stream.Valid() && stream.End() == old(stream.End())
      invariant 0 <= i <= |b| && i <= 4 && scale == Scale(i) && 0 <= result < scale && stream.Left() == b[i..]
      invariant Continues(Read32(b, 0, false), result, scale, Read32(b[i..], i, false))
    {
      PowerStep(i);
      ContinuesGroup32(Read32(b, 0, false), result, scale, b[i..], i);
      assert i < |b| ==> b[i..][1..] == b[i + 1..];
      var byte := stream.ReadByte();
      if byte == None {
        return None;
      }
      GroupFits(result, scale, byte.value as int % 128);
      result := result + scale * (byte.value as int % 128);
      i, scale := i + 1, 128 * scale;
      if byte.value < 128 {
        return Some(result);
      }
    }
    PowerStep(0);
    r := DecodeTail(stream, result, Read32(b, 0, false));
  }

  lemma FifthByte(whole: Option<Parsed<nat>>, low: nat, b: seq<Byte>)
    requires Continues(whole, low, 0x1000_0000, Read32(b, 4, false))
    ensures if b == [] || (b[0] / 16 % 8 != 0 && b[0] / 8 % 16 != 15) then whole == None
            else if b[0] < 128 then whole == Some(Parsed(low + 0x1000_0000 * (b[0] as int % 16), b[1..]))
            else Passes(whole, low + 0x1000_0000 * (b[0] as int % 16), Read32(b[1..], 5, b[0] / 8 % 2 == 1))
  {
  }

  lemma ExtensionByte(whole: Option<Parsed<nat>>, result: nat, b: seq<Byte>, k: nat, sign: bool)
    requires k >= 5 && Passes(whole, result, Read32(b, k, sign))
    ensures if b == [] || k >= 10 || (b[0] % 128 != 0 && !(sign && b[0] == (if k < 9 then 0xFF else 1)))
      then whole == None
            else if b[0] < 128 then whole == Some(Parsed(result, b[1..]))
            else Passes(whole, result, Read32(b[1..], k + 1, sign))
  {
  }

  /** The part of the loop of pb_decode_varint32 that handles bit 28 and above. */
  method DecodeTail(stream: IStream, low: nat, ghost whole: Option<Parsed<nat>>) returns (r: Option<nat>)
    requires stream.Valid() && low < 0x1000_0000
    requires Continues(whole, low, 0x1000_0000, Read32(stream.Left(), 4, false))
    modifies stream
    ensures stream.Valid() && stream.End() == old(stream.End())
    ensures Reads(whole, r, stream.Left())
  {
    hide Read32;
    FifthByte(whole, low, stream.Left());
    var byte := stream.ReadByte();
    if byte == None || (byte.value / 16 % 8 != 0 && byte.value / 8 % 16 != 15) {
      return None;
    }
    var result: nat := low + 0x1000_0000 * (byte.value as int % 16);
    ghost var sign := byte.value / 8 % 2 == 1;
    SignBit(low, byte.value);
    if byte.value < 128 {
      return Some(result);
    }
    r := ReadExtension(stream, result, sign, whole);
  }

  lemma SignBit(low: nat, byte: Byte)
    requires low < 0x1000_0000
    ensures low + 0x1000_0000 * (byte as int % 16) >= 0x8000_0000 <==> byte / 8 % 2 == 1
  {
  }

  /** The bytes behind the fifth, which only extend the sign. */
  method ReadExtension(stream: IStream, result: nat, ghost sign: bool, ghost whole: Option<Parsed<nat>>)
    returns (r: Option<nat>)
    requires stream.Valid() && (result >= 0x8000_0000 <==> sign)
    requires Passes(whole, result, Read32(stream.Left(), 5, sign))
    modifies stream
    ensures stream.Valid() && stream.End() == old(stream.End())
    ensures Reads(whole, r, stream.Left())
  {
    hide Read32;
    var bitpos, more := 35, true;
    ghost var i := 5;
    while more
      invariant stream.Valid() && stream.End() == old(stream.End())
      invariant 5 <= i && bitpos == 7 * i
      invariant if more then Passes(whole, result, Read32(stream.Left(), i, sign))
        else whole == Some(Parsed(result, stream.Left()))
      decreases stream.bytesLeft, more
    {
      ExtensionByte(whole, result, stream.Left(), i, sign);
      var byte := stream.ReadByte();
      if byte == None {
        return None;
      }
      var signExtension := if bitpos < 63 then 0xFF else 1;
      var validExtension := byte.value % 128 == 0 || (result / 0x8000_0000 != 0 && byte.value == signExtension);
      if bitpos >= 64 || !validExtension {
        return None;
      }
      bitpos, i := bitpos + 7, i + 1;
      more := byte.value >= 128;
    }
    r := Some(result);
  }

  /** ~(((uint64_t)value & mask) << 1) for a negative value, and value << 1 for the others. */
  function ZigZag(value: int): (n: nat)
    requires -HALF64 <= value < HALF64
    ensures n < WORD64
  {
    if value < 0 then
      WORD64 - 1 - (value + WORD64) % HALF64 * 2 % WORD64
    else
      value * 2 % WORD64
  }

  function UnZigZag(n: nat): (value: int)
    requires n < WORD64
    ensures -HALF64 <= value < HALF64
  {
    if n % 2 == 1 then Signed64(WORD64 - 1 - n / 2) else Signed64(n / 2)
  }

  /** The conversion of an unsigned 64-bit word to a signed one. */
  function Signed64(n: nat): (value: int)
    requires n < WORD64
    ensures -HALF64 <= value < HALF64
  {
    if n < HALF64 then n else n - WORD64
  }

  lemma ZigZagInverts(value: int)
    requires -HALF64 <= value < HALF64
    ensures UnZigZag(ZigZag(value)) == value
    ensures ZigZag(value) == if value < 0 then -2 * value - 1 else 2 * value
  {
    if value < 0 {
      assert (value + WORD64) % HALF64 == value + HALF64;
    }
  }
}
