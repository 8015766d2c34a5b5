/** What pb_decode accepts: whatever bytes arrive, the message it fills is one of the
    schema's type, within all declared sizes. */
module ProtoAccepted {
  import opened Arithmetic
  import opened Bytes
  import opened Options
  import opened ProtoDecode
  import opened ProtoRoundTrip
  import opened ProtoSchema
  import opened Varint

  /** A schema whose sizes are those of C types: arrays and byte strings are counted by
      pb_size_t, and a string has room for its terminator. */
  predicate SizesFit(d: Desc)
    decreases d
  {
    forall i :: 0 <= i < |d.fields| ==> FieldSizesFit(d.fields[i])
  }

  predicate FieldSizesFit(f: Field)
    decreases f
  {
    && (f.htype.Repeated? ==> f.htype.arraySize <= PB_SIZE_MAX)
    && match f.ltype
       case TVarint(size) => IntSize(size)
       case TUVarint(size) => IntSize(size)
       case TSVarint(size) => IntSize(size)
       case TString(dataSize) => dataSize > 0
       case TFixedBytes(length) => length <= PB_SIZE_MAX
       case TMessage(desc) => SizesFit(desc)
       case _ => true
  }

  /** No array or string is larger than declared, whether it is present or not. */
  predicate WithinSizes(l: LType, v: Value)
    decreases v
  {
    match (l, v)
    case (TBytes(capacity), Octets(bytes)) => |bytes| <= capacity
    case (TString(dataSize), Text(chars)) => |chars| < dataSize
    case (TMessage(desc), Message(slots)) =>
      |slots| == |desc.fields| && forall i :: 0 <= i < |slots| ==> SlotWithinSizes(desc.fields[i], slots[i])
    case _ => true
  }

  predicate SlotWithinSizes(f: Field, s: Slot)
    decreases s
  {
    match s
    case One(v) => WithinSizes(f.ltype, v)
    case Opt(_, v) => WithinSizes(f.ltype, v)
    case Arm(_, v) => WithinSizes(f.ltype, v)
    case Many(values) =>
      && f.htype.Repeated? && |values| <= f.htype.arraySize
      && forall i :: 0 <= i < |values| ==> WithinSizes(f.ltype, values[i])
  }

  /** A value of its type that keeps to all sizes, with defaults in all absent fields. */
  predicate Fits(l: LType, v: Value) {
    Typed(l, v) && WithinSizes(l, v) && Present(l, v) == v
  }

  predicate SlotFits(f: Field, s: Slot) {
    SlotTyped(f, s) && SlotWithinSizes(f, s) && PresentSlot(f, s) == s
  }

  predicate SlotsFit(fields: seq<Field>, slots: seq<Slot>) {
    && |slots| == |fields| && OneChosen(fields, slots)
    && forall i :: 0 <= i < |slots| ==> SlotFits(fields[i], slots[i])
  }

  lemma MessageFits(d: Desc, slots: seq<Slot>)
    ensures Fits(TMessage(d), Message(slots)) <==> SlotsFit(d.fields, slots)
  {
    hide SlotTyped, SlotWithinSizes, OneChosen;
  }

  /** What keeps to its sizes can be encoded. */
  lemma {:induction false} FittingIsEncodable(l: LType, v: Value)
    requires Fits(l, v)
    ensures Encodable(l, v)
    decreases v
  {
    if l.TMessage? {
      forall i | 0 <= i < |v.slots|
        ensures SlotEncodable(l.desc.fields[i], v.slots[i])
      {
        FittingSlotIsEncodable(l.desc.fields[i], v.slots[i]);
      }
    }
  }

  lemma {:induction false} FittingSlotIsEncodable(f: Field, s: Slot)
    requires SlotFits(f, s)
    ensures SlotEncodable(f, s)
    decreases s
  {
    match s
    case One(v) => FittingIsEncodable(f.ltype, v);
    case Opt(has, v) =>
      if has {
        FittingIsEncodable(f.ltype, v);
      }
    case Arm(chosen, v) =>
      if chosen {
        FittingIsEncodable(f.ltype, v);
      }
    case Many(values) =>
      forall i | 0 <= i < |values|
        ensures Encodable(f.ltype, values[i])
      {
        FittingIsEncodable(f.ltype, values[i]);
      }
  }

  lemma {:induction false} DefaultFits(f: Field)
    requires FieldSizesFit(f)
    ensures Fits(f.ltype, Default(f.ltype)) && SlotFits(f, DefaultSlot(f))
    decreases f
  {
    if f.ltype.TMessage? {
      DefaultsFit(f.ltype.desc);
    }
  }

  lemma {:induction false} DefaultsFit(d: Desc)
    requires SizesFit(d)
    ensures SlotsFit(d.fields, Default(TMessage(d)).slots) && Fits(TMessage(d), Default(TMessage(d)))
    decreases d
  {
    forall i | 0 <= i < |d.fields|
      ensures SlotFits(d.fields[i], DefaultSlot(d.fields[i]))
    {
      DefaultFits(d.fields[i]);
    }
    MessageFits(d, Default(TMessage(d)).slots);
  }

  /** The numbers that stand for a value of a varint type: the value itself, its zigzag
      form, or its two's complement, of which types below 64 bits look at 32 bits only. */
  predicate StandsFor(l: LType, n: nat, v: Value) {
    match (l, v)
    case (TUVarint(_), Unsigned(m)) => m == n
    case (TSVarint(_), Signed(i)) => n == if i >= 0 then 2 * i else -2 * i - 1
    case (TVarint(size), Signed(i)) => (n - i) % (if size == 8 then WORD64 else WORD32) == 0
    case _ => false
  }

  /** pb_dec_varint accepts a number if and only if it stands for a value of the field's
      type, and stores that value. */
  lemma VarintIsAccepted(l: LType, n: nat, v: Value)
    requires n < WORD64 && (l.TVarint? || l.TUVarint? || l.TSVarint?)
    ensures VarintValue(l, n) == Some(v) <==> Typed(l, v) && StandsFor(l, n, v)
  {
    match l
    case TUVarint(size) =>
      if IntSize(size) && n < Values(size) {
        Remainder(0, Values(size), n);
      }
    case TSVarint(size) => ZigZagIsAccepted(size, n, v);
    case TVarint(size) => SignedIsAccepted(size, n, v);
    case _ =>
  }

  lemma ZigZagIsAccepted(size: nat, n: nat, v: Value)
    requires n < WORD64
    ensures VarintValue(TSVarint(size), n) == Some(v) <==> Typed(TSVarint(size), v) && StandsFor(TSVarint(size), n, v)
  {
    var i := UnZigZag(n);
    assert n == if i >= 0 then 2 * i else -2 * i - 1;
    FittingCast(i, size);
  }

  /** The cast leaves a number alone exactly when it fits. */
  lemma FittingCast(i: int, size: nat)
    ensures IntSize(size) ==> (SignedCast(i, size) == i <==> FitsSigned(i, size))
  {
    if FitsSigned(i, size) {
      CastIs(i, size);
    }
  }

  /** Only one number of a signed range leaves the same remainder. */
  lemma OnlyRemainder(n: int, m: nat, i: int, j: int)
    requires 0 < m && i - j < m && j - i < m && (n - i) % m == 0 && (n - j) % m == 0
    ensures i == j
  {
    var x := (n - j) / m - (n - i) / m;
    assert n - i == (n - i) / m * m && n - j == (n - j) / m * m;
    Distributes((n - j) / m, -((n - i) / m), m);
    assert x * m == i - j;
    ProductAwayFromZero(x, m);
  }

  lemma CastStandsFor(n: nat)
    requires n < WORD64
    ensures (n - Signed64(n)) % WORD64 == 0 && (n - SignedCast(n, 4)) % WORD32 == 0
  {
  }

  lemma SignedIsAccepted(size: nat, n: nat, v: Value)
    requires n < WORD64
    ensures VarintValue(TVarint(size), n) == Some(v) <==> Typed(TVarint(size), v) && StandsFor(TVarint(size), n, v)
  {
    hide SignedCast, Signed64;
    var i := if size == 8 then Signed64(n) else SignedCast(n, 4);
    FittingCast(i, size);
    CastStandsFor(n);
    if Typed(TVarint(size), v) && StandsFor(TVarint(size), n, v) {
      OnlyRemainder(n, if size == 8 then WORD64 else WORD32, i, v.i);
    }
  }

  lemma {:induction false} LittleEndianFits(b: seq<Byte>)
    requires |b| <= 8
    ensures FromLittleEndian(b) < Power256(|b|)
  {
    if b != [] {
      LittleEndianFits(b[1..]);
    }
  }

  lemma ScalarFits(l: LType, b: seq<Byte>)
    requires Packable(l) && DecodeScalar(l, b).Some?
    ensures Fits(l, DecodeScalar(l, b).value.value)
  {
    var v := DecodeScalar(l, b).value.value;
    if l.TFixed32? {
      LittleEndianFits(b[..4]);
      assert Power256(4) == WORD32;
    } else if l.TFixed64? {
      LittleEndianFits(b[..8]);
      assert Power256(8) == WORD64;
    } else if !l.TBool? {
      hide Read64, VarintValue, Typed;
      Read64Bounded(b);
      VarintIsAccepted(l, Read64(b, 0).value.value, v);
    }
  }

  lemma StringFits(l: LType, size: nat, b: seq<Byte>)
    requires DecodeString(l, size, b).Some? && (l.TFixedBytes? ==> l.length <= PB_SIZE_MAX)
    ensures Fits(l, DecodeString(l, size, b).value.value)
  {
    if l.TString? {
      UpToNulIs(b[..size]);
    }
  }

  /** A string ends in front of its first NUL byte. */
  lemma {:induction false} UpToNulIs(b: seq<Byte>)
    ensures var r := UpToNul(b); |r| <= |b| && r == b[..|r|] && 0 !in r && (|r| < |b| ==> b[|r|] == 0)
  {
    if b != [] && b[0] != 0 {
      UpToNulIs(b[1..]);
    }
  }

  lemma {:induction false} PackedFits(f: Field, arraySize: nat, b: seq<Byte>, values: seq<Value>)
    requires Packable(f.ltype) && f.htype == Repeated(arraySize) && arraySize <= PB_SIZE_MAX
    requires SlotFits(f, Many(values)) && DecodePacked(f.ltype, arraySize, b, values).Some?
    ensures SlotFits(f, Many(DecodePacked(f.ltype, arraySize, b, values).value))
    decreases |b|
  {
    hide DecodeScalar, Typed, WithinSizes;
    if b != [] {
      ScalarFits(f.ltype, b);
      var more := DecodeScalar(f.ltype, b).value;
      PackedFits(f, arraySize, more.rest, values + [more.value]);
    }
  }

  /** Storing a field leaves one field chosen of each union: the one stored last. */
  lemma StoredFits(fields: seq<Field>, slots: seq<Slot>, i: nat, s: Slot)
    requires SlotsFit(fields, slots) && i < |fields| && SlotFits(fields[i], s)
    requires s.Arm? ==> s.chosen
    requires forall j :: 0 <= j < |fields| ==> FieldSizesFit(fields[j])
    ensures SlotsFit(fields, Stored(fields, slots, i, s))
  {
    hide FieldSizesFit, WithinSizes, Typed;
    forall j | 0 <= j < |fields|
      ensures SlotFits(fields[j], DefaultSlot(fields[j]))
    {
      DefaultFits(fields[j]);
    }
    var now := Stored(fields, slots, i, s);
    forall j | 0 <= j < |fields|
      ensures SlotFits(fields[j], now[j])
    {
      assert SlotFits(fields[j], slots[j]) && SlotFits(fields[j], DefaultSlot(fields[j]));
    }
  }

  lemma {:induction false} BasicFits(f: Field, wireType: nat, b: seq<Byte>, was: Value)
    requires FieldSizesFit(f) && Fits(f.ltype, was) && DecodeBasic(f.ltype, wireType, b, was).Some?
    ensures Fits(f.ltype, DecodeBasic(f.ltype, wireType, b, was).value.value)
    decreases |b|, 0
  {
    hide DecodeScalar, Typed, WithinSizes, DecodeString;
    var l := f.ltype;
    if Packable(l) {
      ScalarFits(l, b);
    } else if l.TMessage? {
      var payload := Substream(b).value.value;
      MessageFits(l.desc, was.slots);
      FieldsFit(l.desc, payload, was.slots, {});
      MessageFits(l.desc, DecodeMessage(l.desc, payload, was.slots).value);
    } else {
      var read := Read32(b, 0, false).value;
      StringFits(l, read.value, read.rest);
    }
  }

  lemma {:induction false} StaticFits(f: Field, wireType: nat, b: seq<Byte>, s: Slot)
    requires FieldSizesFit(f) && SlotFits(f, s) && DecodeStatic(f, wireType, b, s).Some?
    ensures var r := DecodeStatic(f, wireType, b, s).value.value; SlotFits(f, r) && (r.Arm? ==> r.chosen)
    decreases |b|, 1
  {
    hide DecodeBasic, Typed, WithinSizes, DecodePacked;
    DefaultFits(f);
    match s
    case One(v) => BasicFits(f, wireType, b, v);
    case Opt(_, v) => BasicFits(f, wireType, b, v);
    case Arm(chosen, v) => BasicFits(f, wireType, b, if chosen then v else Default(f.ltype));
    case Many(values) =>
      if wireType == 2 && Packable(f.ltype) {
        PackedFits(f, f.htype.arraySize, Substream(b).value.value, values);
      } else {
        BasicFits(f, wireType, b, Default(f.ltype));
      }
  }

  lemma {:induction false} FieldsFit(d: Desc, b: seq<Byte>, slots: seq<Slot>, seen: set<nat>)
    requires SizesFit(d) && SlotsFit(d.fields, slots) && DecodeFields(d, b, slots, seen).Some?
    ensures SlotsFit(d.fields, DecodeFields(d, b, slots, seen).value)
    decreases |b|, 2
  {
    hide DecodeStatic, SlotFits, Stored, SkipField, FieldSizesFit, OneChosen;
    if b != [] {
      var Parsed(key, rest) := Read32(b, 0, false).value;
      var i := FindTag(d.fields, key / 8);
      if i == |d.fields| {
        FieldsFit(d, SkipField(rest, key % 8).value, slots, seen);
      } else {
        StaticFits(d.fields[i], key % 8, rest, slots[i]);
        var Parsed(s, more) := DecodeStatic(d.fields[i], key % 8, rest, slots[i]).value;
        StoredFits(d.fields, slots, i, s);
        FieldsFit(d, more, Stored(d.fields, slots, i, s), seen + {i});
      }
    }
  }

  /** Whatever bytes arrive, what is accepted is a value of the message type within all its
      sizes, with one field chosen of each union at most; so it can be encoded again. */
  lemma AcceptedFits(d: Desc, b: seq<Byte>)
    requires SizesFit(d) && Decode(d, b).Some?
    ensures Fits(TMessage(d), Decode(d, b).value) && Encodable(TMessage(d), Decode(d, b).value)
    ensures PB_SIZE_MAX + 1 == Values(2)
  {
    DefaultsFit(d);
    var slots := Default(TMessage(d)).slots;
    FieldsFit(d, b, slots, {});
    MessageFits(d, DecodeMessage(d, b, slots).value);
    FittingIsEncodable(TMessage(d), Decode(d, b).value);
  }

  /** A message that was received and is sent on is received the same again. */
  lemma SentOn(d: Desc, b: seq<Byte>)
    requires WellFormed(d) && SizesFit(d) && Decode(d, b).Some?
    requires |MessageBytes(d, Decode(d, b).value, 0)| < WORD32 - 1
    ensures Decode(d, MessageBytes(d, Decode(d, b).value, 0)) == Decode(d, b)
  {
    hide Decode, Fits, Encodable;
    AcceptedFits(d, b);
    FitsIsTyped(TMessage(d), Decode(d, b).value);
    RoundTrip(d, Decode(d, b).value);
  }

  lemma FitsIsTyped(l: LType, v: Value)
    requires Fits(l, v)
    ensures Typed(l, v) && Present(l, v) == v
  {
  }
}
