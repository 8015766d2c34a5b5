/** The decoder of pb_decode.c, which reads from a stream. Every method does with the stream
    what the function of ProtoDecode says of the bytes that are left in it, and never reads
    past the end that the stream had. */
module ProtoDecoder {
  import opened Bytes
  import opened Options
  import opened ProtoDecode
  import opened ProtoIterator
  import opened ProtoRequired
  import opened ProtoSchema
  import opened ProtoStream
  import opened Varint

  /** How many words each field takes in each descriptor. */
  type Layout = l: Desc -> Words | forall d :: |l(d)| == |d.fields| witness (d: Desc) => seq(|d.fields|, _ => 8)

  ghost predicate Skips(whole: Option<seq<Byte>>, ok: bool, left: seq<Byte>) {
    match whole
    case None => !ok
    case Some(rest) => ok && left == rest
  }

  /** pb_skip_varint. */
  method SkipVarintBytes(stream: IStream) returns (ok: bool)
    requires stream.Valid()
    modifies stream
    ensures stream.Valid() && stream.End() == old(stream.End())
    ensures Skips(SkipVarint(old(stream.Left())), ok, stream.Left())
  {
    while true
      invariant stream.Valid() && stream.End() == old(stream.End())
      invariant SkipVarint(stream.Left()) == SkipVarint(old(stream.Left()))
      decreases stream.bytesLeft
    {
      var byte := stream.Read(1);
      if byte == None {
        return false;
      }
      if byte.value[0] < 128 {
        return true;
      }
    }
  }

  /** pb_skip_field, with pb_skip_string. */
  method Skip(stream: IStream, wireType: nat) returns (ok: bool)
    requires stream.Valid()
    modifies stream
    ensures stream.Valid() && stream.End() == old(stream.End())
    ensures Skips(SkipField(old(stream.Left()), wireType), ok, stream.Left())
  {
    hide Read32;
    var data: Option<seq<Byte>> := None;
    if wireType == 0 {
      ok := SkipVarintBytes(stream);
      return;
    } else if wireType == 1 {
      data := stream.Read(8);
    } else if wireType == 2 {
      var length := Decode32(stream);
      if length.Some? {
        data := stream.Read(length.value);
      }
    } else if wireType == 5 {
      data := stream.Read(4);
    }
    ok := data.Some?;
  }

  /** pb_make_string_substream: what it leaves of the stream lies behind the substream. */
  method MakeSubstream(stream: IStream) returns (sub: IStream?)
    requires stream.Valid()
    modifies stream
    ensures stream.Valid() && stream.End() <= old(stream.End())
    ensures match Substream(old(stream.Left()))
            case None => sub == null
            case Some(Parsed(payload, rest)) =>
              && sub != null && fresh(sub) && sub.Valid() && sub.buffer == stream.buffer && sub.Left() == payload
              && sub.End() + stream.bytesLeft == old(stream.End())
              && stream.buffer[sub.End()..old(stream.End())] == rest
  {
    hide Read32;
    var size := Decode32(stream);
    if size == None || stream.bytesLeft < size.value {
      return null;
    }
    ghost var left := stream.Left();
    sub := new IStream(stream.buffer, stream.position, size.value);
    assert left[..size.value] == sub.Left() && left[size.value..] == stream.buffer[sub.End()..stream.End()];
    stream.bytesLeft := stream.bytesLeft - size.value;
  }

  /** pb_close_string_substream: what was not read of the substream is skipped. */
  method CloseSubstream(stream: IStream, sub: IStream)
    requires sub != stream && sub.Valid() && sub.buffer == stream.buffer
    requires sub.End() + stream.bytesLeft <= |stream.buffer|
    modifies stream, sub
    ensures stream.Valid() && stream.position == old(sub.End()) && stream.bytesLeft == old(stream.bytesLeft)
  {
    if sub.bytesLeft > 0 {
      var skipped := sub.Read(sub.bytesLeft);
    }
    stream.position := sub.position;
  }

  /** The word in four bytes, whatever the byte order of the machine. */
  function FourBytesWord(b: seq<Byte>): (word: nat)
    requires |b| >= 4
    ensures word == FromLittleEndian(b[..4])
  {
    FromFour(b[0], b[1], b[2], b[3]);
    assert b[..4] == [b[0], b[1], b[2], b[3]];
    b[0] + 0x100 * (b[1] as int) + 0x1_0000 * (b[2] as int) + 0x100_0000 * (b[3] as int)
  }

  lemma FirstByte(b: Byte, rest: seq<Byte>)
    ensures FromLittleEndian([b] + rest) == b + 256 * FromLittleEndian(rest)
    ensures rest == [] ==> FromLittleEndian(rest) == 0
  {
    assert ([b] + rest)[1..] == rest;
  }

  lemma FromFour(b0: Byte, b1: Byte, b2: Byte, b3: Byte)
    ensures FromLittleEndian([b0, b1, b2, b3])
      == b0 + 0x100 * (b1 as int) + 0x1_0000 * (b2 as int) + 0x100_0000 * (b3 as int)
  {
    hide FromLittleEndian;
    FirstByte(b3, []);
    FirstByte(b2, [b3]);
    FirstByte(b1, [b2, b3]);
    FirstByte(b0, [b1, b2, b3]);
    assert [b3] + [] == [b3] && [b2] + [b3] == [b2, b3] && [b1] + [b2, b3] == [b1, b2, b3];
    assert [b0] + [b1, b2, b3] == [b0, b1, b2, b3];
  }

  lemma EightBytesWord(b: seq<Byte>)
    requires |b| == 8
    ensures FromLittleEndian(b) == FourBytesWord(b) + WORD32 * FourBytesWord(b[4..])
  {
    SplitLittleEndian(b, 4);
    assert b[4..][..4] == b[4..];
    assert Shift(4) == WORD32;
  }

  function Shift(k: nat): (p: nat) {
    if k == 0 then 1 else 256 * Shift(k - 1)
  }

  lemma Times(a: nat, b: nat, c: nat)
    ensures a * (b * c) == a * b * c
  {
  }

  lemma {:induction false} SplitLittleEndian(b: seq<Byte>, k: nat)
    requires k <= |b|
    ensures FromLittleEndian(b) == FromLittleEndian(b[..k]) + Shift(k) * FromLittleEndian(b[k..])
  {
    if k > 0 {
      SplitLittleEndian(b[1..], k - 1);
      assert b[..k][1..] == b[1..][..k - 1] && b[1..][k - 1..] == b[k..];
      Times(256, Shift(k - 1), FromLittleEndian(b[k..]));
    }
  }

  /** pb_dec_bool, pb_dec_varint, pb_decode_fixed32 and pb_decode_fixed64. */
  method DecodeScalarField(stream: IStream, l: LType) returns (r: Option<Value>)
    requires stream.Valid() && Packable(l)
    modifies stream
    ensures stream.Valid() && stream.End() == old(stream.End())
    ensures Reads(DecodeScalar(l, old(stream.Left())), r, stream.Left())
  {
    hide Read32, Read64, FromLittleEndian, VarintValue, FourBytesWord;
    if l == TBool {
      var n := Decode32(stream);
      r := if n == None then None else Some(Bool(n.value != 0));
    } else if l == TFixed32 {
      var b := stream.Read(4);
      assert b.Some? ==> b.value[..4] == b.value;
      r := if b == None then None else Some(Raw(FourBytesWord(b.value)));
    } else if l == TFixed64 {
      var b := stream.Read(8);
      if b == None {
        return None;
      }
      EightBytesWord(b.value);
      r := Some(Raw(FourBytesWord(b.value) + WORD32 * FourBytesWord(b.value[4..])));
    } else {
      Read64Bounded(stream.Left());
      var n := Decode64(stream);
      r := if n == None then None else VarintValue(l, n.value);
    }
  }

  /** pb_dec_bytes, pb_dec_string and pb_dec_fixed_length_bytes. */
  method DecodeStringField(stream: IStream, l: LType) returns (r: Option<Value>)
    requires stream.Valid() && (l.TBytes? || l.TString? || l.TFixedBytes?)
    modifies stream
    ensures stream.Valid() && stream.End() == old(stream.End())
    ensures Reads(DecodeBasic(l, 2, old(stream.Left()), Default(l)), r, stream.Left())
  {
    hide Read32, UpToNul;
    Read32Bounded(stream.Left());
    var size := Decode32(stream);
    if size == None {
      return None;
    }
    match l
    case TBytes(capacity) =>
      if size.value > PB_SIZE_MAX || size.value > capacity {
        return None;
      }
      var b := stream.Read(size.value);
      r := if b == None then None else Some(Octets(b.value));
    case TString(dataSize) =>
      if size.value == WORD32 - 1 || size.value + 1 > dataSize {
        return None;
      }
      var b := stream.Read(size.value);
      r := if b == None then None else Some(Text(UpToNul(b.value)));
    case TFixedBytes(length) =>
      if size.value > PB_SIZE_MAX {
        return None;
      }
      if size.value == 0 {
        return Some(Octets(seq(length, _ => 0)));
      }
      if size.value != length {
        return None;
      }
      var b := stream.Read(length);
      r := if b == None then None else Some(Octets(b.value));
  }

  /** decode_basic_field; `was` is what the memory of the field holds. */
  method DecodeBasicField(stream: IStream, l: LType, wireType: nat, was: Value, layout: Layout)
    returns (r: Option<Value>)
    requires stream.Valid() && (l.TMessage? ==> WellFormed(l.desc))
    modifies stream
    ensures stream.Valid() && stream.End() <= old(stream.End()) && (r.Some? ==> stream.End() == old(stream.End()))
    ensures Reads(DecodeBasic(l, wireType, old(stream.Left()), was), r, stream.Left())
    decreases stream.bytesLeft, 1
  {
    hide DecodeScalar, DecodeString, WellFormed, Read32, Substream;
    if Packable(l) {
      if wireType != WireType(l) && wireType != PB_WT_PACKED {
        return None;
      }
      r := DecodeScalarField(stream, l);
    } else if wireType != 2 {
      r := None;
    } else if l.TMessage? {
      r := DecodeSubmessage(stream, l.desc, was, layout);
    } else {
      r := DecodeStringField(stream, l);
    }
  }

  /** pb_dec_submessage: the message is merged into what is there. */
  method DecodeSubmessage(stream: IStream, d: Desc, was: Value, layout: Layout) returns (r: Option<Value>)
    requires stream.Valid() && WellFormed(d)
    modifies stream
    ensures stream.Valid() && stream.End() <= old(stream.End()) && (r.Some? ==> stream.End() == old(stream.End()))
    ensures Reads(DecodeBasic(TMessage(d), 2, old(stream.Left()), was), r, stream.Left())
    decreases stream.bytesLeft, 0
  {
    hide Read32, Substream, DecodeMessage, WellFormed;
    ghost var b := stream.Left();
    var sub := MakeSubstream(stream);
    if sub == null || !was.Message? {
      return None;
    }
    ghost var end := sub.End();
    var slots := DecodeInner(sub, d, was.slots, layout);
    CloseSubstream(stream, sub);
    r := if slots == None then None else Some(Message(slots.value));
  }

  /** The loop over a packed array. */
  method DecodePackedArray(stream: IStream, l: LType, arraySize: nat, values: seq<Value>)
    returns (r: Option<seq<Value>>)
    requires stream.Valid() && Packable(l)
    modifies stream
    ensures stream.Valid() && stream.End() <= old(stream.End()) && (r.Some? ==> stream.End() == old(stream.End()))
    ensures match Substream(old(stream.Left()))
            case None => r == None
            case Some(Parsed(payload, rest)) =>
              r == DecodePacked(l, arraySize, payload, values) && (r.Some? ==> stream.Left() == rest)
  {
    hide Read32, Substream, DecodeScalar;
    var sub := MakeSubstream(stream);
    if sub == null {
      return None;
    }
    label Made:
    ghost var payload, end := sub.Left(), sub.End();
    var now := values;
    while sub.bytesLeft > 0 && |now| < arraySize
      invariant sub.Valid() && sub.End() == end && fresh(sub)
      invariant DecodePacked(l, arraySize, payload, values) == DecodePacked(l, arraySize, sub.Left(), now)
      invariant stream.Valid() && stream.End() <= old(stream.End()) && end + stream.bytesLeft == old(stream.End())
      invariant unchanged@Made(stream)
      decreases sub.bytesLeft
    {
      var v := DecodeScalarField(sub, l);
      if v == None {
        return None;
      }
      now := now + [v.value];
    }
    if sub.bytesLeft != 0 {
      return None;
    }
    CloseSubstream(stream, sub);
    r := Some(now);
  }

  /** decode_static_field. */
  method DecodeStaticField(stream: IStream, f: Field, wireType: nat, s: Slot, layout: Layout) returns (r: Option<Slot>)
    requires stream.Valid() && FieldWellFormed(f)
    modifies stream
    ensures stream.Valid() && stream.End() <= old(stream.End()) && (r.Some? ==> stream.End() == old(stream.End()))
    ensures Reads(DecodeStatic(f, wireType, old(stream.Left()), s), r, stream.Left())
    decreases stream.bytesLeft, 2
  {
    hide DecodeBasic, DecodePacked, Substream, WellFormed;
    match (f.htype, s)
    case (Required, One(v)) =>
      var w := DecodeBasicField(stream, f.ltype, wireType, v, layout);
      r := if w == None then None else Some(One(w.value));
    case (Singular, One(v)) =>
      var w := DecodeBasicField(stream, f.ltype, wireType, v, layout);
      r := if w == None then None else Some(One(w.value));
    case (Optional, Opt(_, v)) =>
      var w := DecodeBasicField(stream, f.ltype, wireType, v, layout);
      r := if w == None then None else Some(Opt(true, w.value));
    case (Repeated(arraySize), Many(values)) =>
      if wireType == 2 && Packable(f.ltype) {
        var more := DecodePackedArray(stream, f.ltype, arraySize, values);
        r := if more == None then None else Some(Many(more.value));
      } else if |values| >= arraySize {
        r := None;
      } else {
        var w := DecodeBasicField(stream, f.ltype, wireType, Default(f.ltype), layout);
        r := if w == None then None else Some(Many(values + [w.value]));
      }
    case (Oneof(_), Arm(chosen, v)) =>
      var w := DecodeBasicField(stream, f.ltype, wireType, if chosen then v else Default(f.ltype), layout);
      r := if w == None then None else Some(Arm(true, w.value));
    case _ => r := None;
  }

  /** A field whose key was read: it is decoded, or skipped when its tag is unknown. */
  method DecodeField(stream: IStream, field: FieldIter, d: Desc, tag: nat, wireType: nat, slots: seq<Slot>,
                     bits: seq<bool>,
                     ghost seen: set<nat>, layout: Layout)
    returns (ok: bool, slotsNow: seq<Slot>, bitsNow: seq<bool>, ghost seenNow: set<nat>)
    requires stream.Valid() && WellFormed(d) && Ascending(d.fields) && tag > 0 && |slots| == |d.fields|
    requires field.Valid() && field.fields == d.fields && BitsAre(d.fields, bits, seen)
    requires |bits| == PB_MAX_REQUIRED_FIELDS
    modifies stream, field
    ensures stream.Valid() && stream.End() <= old(stream.End()) && (ok ==> stream.End() == old(stream.End()))
    ensures field.Valid() && BitsAre(d.fields, bitsNow, seenNow) && |bitsNow| == PB_MAX_REQUIRED_FIELDS
    ensures |slotsNow| == |d.fields|
    ensures var i, rest := FindTag(d.fields, tag), old(stream.Left());
      if i == |d.fields| then
        Skips(SkipField(rest, wireType), ok, stream.Left()) && slotsNow == slots && seenNow == seen
      else
        && Reads(DecodeStatic(d.fields[i], wireType, rest, slots[i]), if ok then Some(slotsNow[i]) else None,
                 stream.Left())
        && (ok ==> slotsNow == Stored(d.fields, slots, i, slotsNow[i]) && seenNow == seen + {i})
    decreases stream.bytesLeft, 3
  {
    hide DecodeStatic, SkipField, WellFormed, FindTag, AllSeen, BitsAre, RequiredBefore;
    slotsNow, bitsNow, seenNow := slots, bits, seen;
    var found := field.Find(tag);
    var i := field.index;
    FoundIs(d.fields, tag, i, found);
    if !found {
      ok := Skip(stream, wireType);
    } else {
      MarkOne(d.fields, bits, seen, i);
      seenNow := seen + {i};
      if d.fields[i].htype == Required && field.requiredFieldIndex < PB_MAX_REQUIRED_FIELDS {
        bitsNow := bits[field.requiredFieldIndex := true];
      }
      FieldIn(d, i);
      var stored := DecodeStaticField(stream, d.fields[i], wireType, slots[i], layout);
      ok := stored.Some?;
      if ok {
        slotsNow := Stored(d.fields, slots, i, stored.value);
      }
    }
  }

  lemma NoFields(d: Desc, b: seq<Byte>, slots: seq<Slot>, seen: set<nat>)
    requires |slots| != |d.fields| || b == []
    ensures DecodeFields(d, b, slots, seen)
      == if |slots| == |d.fields| && AllSeen(d.fields, seen) then Some(slots) else None
  {
  }

  /** One turn of the loop of pb_decode_inner: the key, and the field that follows it. */
  method DecodeNext(stream: IStream, field: FieldIter, d: Desc, slots: seq<Slot>, bits: seq<bool>,
                    ghost seen: set<nat>, layout: Layout)
    returns (ok: bool, slotsNow: seq<Slot>, bitsNow: seq<bool>, ghost seenNow: set<nat>)
    requires stream.Valid() && stream.bytesLeft > 0 && WellFormed(d) && Ascending(d.fields) && |slots| == |d.fields|
    requires field.Valid() && field.fields == d.fields && BitsAre(d.fields, bits, seen)
    requires |bits| == PB_MAX_REQUIRED_FIELDS
    modifies stream, field
    ensures stream.Valid() && stream.End() <= old(stream.End()) && (ok ==> stream.End() == old(stream.End()))
    ensures field.Valid() && BitsAre(d.fields, bitsNow, seenNow) && |bitsNow| == PB_MAX_REQUIRED_FIELDS
    ensures |slotsNow| == |d.fields|
    ensures DecodeFields(d, old(stream.Left()), slots, seen)
      == if ok then DecodeFields(d, stream.Left(), slotsNow, seenNow) else None
    ensures ok ==> stream.bytesLeft < old(stream.bytesLeft)
    decreases stream.bytesLeft, 4
  {
    hide DecodeStatic, SkipField, Read32, WellFormed, FindTag, Stored, AllSeen, BitsAre, RequiredBefore;
    ok, slotsNow, bitsNow, seenNow := false, slots, bits, seen;
    var key := Decode32(stream);
    if key == None || key.value / 8 == 0 {
      return;
    }
    ok, slotsNow, bitsNow, seenNow :=
      DecodeField(stream, field, d, key.value / 8, key.value % 8, slots, bits, seen, layout);
  }

  /** pb_decode_inner, on a message that has been set to its defaults or is merged into. */
  method DecodeInner(stream: IStream, d: Desc, message: seq<Slot>, layout: Layout) returns (r: Option<seq<Slot>>)
    requires stream.Valid() && WellFormed(d)
    modifies stream
    ensures stream.Valid() && stream.End() <= old(stream.End()) && (r.Some? ==> stream.End() == old(stream.End()))
    ensures r == DecodeMessage(d, old(stream.Left()), message) && (r.Some? ==> stream.Left() == [])
    decreases stream.bytesLeft, 5
  {
    hide DecodeFields, WellFormed, AllSeen, BitsAre;
    if |message| != |d.fields| {
      NoFields(d, stream.Left(), message, {});
      return None;
    }
    FieldTags(d);
    var field := new FieldIter(d.fields, layout(d));
    var slots := message;
    var bits := seq(PB_MAX_REQUIRED_FIELDS, _ => false);
    ghost var seen: set<nat>, whole := {}, DecodeMessage(d, stream.Left(), message);
    NothingSeen(d.fields);
    while stream.bytesLeft > 0
      invariant stream.Valid() && stream.End() == old(stream.End()) && stream.bytesLeft <= old(stream.bytesLeft)
      invariant field.Valid() && field.fields == d.fields && |slots| == |d.fields| && fresh(field)
      invariant BitsAre(d.fields, bits, seen) && |bits| == PB_MAX_REQUIRED_FIELDS
      invariant whole == DecodeFields(d, stream.Left(), slots, seen)
      decreases stream.bytesLeft
    {
      var ok;
      ok, slots, bits, seen := DecodeNext(stream, field, d, slots, bits, seen, layout);
      if !ok {
        return None;
      }
    }
    var complete := CheckRequired(d.fields, bits);
    AllBits(d.fields, bits, seen);
    NoFields(d, stream.Left(), slots, seen);
    r := if complete then Some(slots) else None;
  }

  lemma FieldIn(d: Desc, i: nat)
    requires WellFormed(d) && i < |d.fields|
    ensures FieldWellFormed(d.fields[i])
  {
  }

  lemma FieldTags(d: Desc)
    requires WellFormed(d)
    ensures Ascending(d.fields)
  {
    forall i | 0 <= i < |d.fields|
      ensures 0 < d.fields[i].tag
    {
      assert FieldWellFormed(d.fields[i]);
    }
  }

  lemma FoundIs(fields: seq<Field>, tag: nat, index: nat, found: bool)
    requires Ascending(fields) && found == exists i :: 0 <= i < |fields| && fields[i].tag == tag
    requires found ==> index < |fields| && fields[index].tag == tag
    ensures FindTag(fields, tag) == if found then index else |fields|
  {
    var k := FindTag(fields, tag);
    if found {
      assert k <= index;
      assert fields[k].tag == tag;
    }
  }
}
