/** pb_encode: writing a message to a stream, or only counting its bytes. */
module ProtoEncoder {
  import opened Arithmetic
  import opened Bytes
  import opened ProtoSchema
  import opened Varint

  class OStream {
    const sizing: bool          // there is no callback: bytes are counted only
    const maxSize: nat
    var bytesWritten: nat
    var written: seq<Byte>      // what the callback got

    constructor (sizing: bool, maxSize: nat)
      ensures this.sizing == sizing && this.maxSize == maxSize && bytesWritten == 0 && written == []
    {
      this.sizing, this.maxSize := sizing, maxSize;
      bytesWritten, written := 0, [];
    }

    ghost predicate Valid()
      reads `bytesWritten
    {
      sizing || bytesWritten <= maxSize
    }

    /** There is room for some more bytes. */
    ghost predicate Room(n: nat)
      reads `bytesWritten
    {
      sizing || bytesWritten + n <= maxSize
    }

    /** pb_write. */
    method Write(buffer: seq<Byte>) returns (ok: bool)
      requires Valid()
      modifies this
      ensures Valid() && ok == old(Room(|buffer|))
      ensures ok ==>
        bytesWritten == old(bytesWritten) + |buffer| && written == old(written) + (if sizing then [] else buffer)
    {
      if |buffer| > 0 && !sizing {
        if bytesWritten + |buffer| > maxSize {
          return false;
        }
        written := written + buffer;
      }
      bytesWritten := bytesWritten + |buffer|;
      ok := true;
    }

    /** pb_write without data, for a stream that only counts. */
    method Count(size: nat)
      requires sizing
      modifies this`bytesWritten
      ensures bytesWritten == old(bytesWritten) + size
    {
      bytesWritten := bytesWritten + size;
    }
  }

  method EncodeVarint(stream: OStream, value: nat) returns (ok: bool)
    requires stream.Valid() && value < WORD64
    modifies stream
    ensures stream.Valid() && ok == old(stream.Room(|Base128(value)|))
    ensures ok ==>
      && stream.bytesWritten == old(stream.bytesWritten) + |Base128(value)|
      && stream.written == old(stream.written) + (if stream.sizing then [] else Base128(value))
  {
    if value <= 0x7F {
      ok := stream.Write([value]);
    } else {
      var buffer := EncodeSplit(value % WORD32, value / WORD32);
      ok := stream.Write(buffer);
    }
  }

  method EncodeTag(stream: OStream, wireType: nat, tag: nat) returns (ok: bool)
    requires stream.Valid() && wireType < 8 && tag <= PB_SIZE_MAX
    modifies stream
    ensures stream.Valid() && ok == old(stream.Room(|Key(tag, wireType)|))
    ensures ok ==>
      && stream.bytesWritten == old(stream.bytesWritten) + |Key(tag, wireType)|
      && stream.written == old(stream.written) + (if stream.sizing then [] else Key(tag, wireType))
  {
    ok := EncodeVarint(stream, tag * 8 + wireType);
  }

  method EncodeString(stream: OStream, buffer: seq<Byte>) returns (ok: bool)
    requires stream.Valid() && |buffer| < WORD64
    modifies stream
    ensures stream.Valid() && ok == old(stream.Room(|WithLength(buffer)|))
    ensures ok ==>
      && stream.bytesWritten == old(stream.bytesWritten) + |WithLength(buffer)|
      && stream.written == old(stream.written) + (if stream.sizing then [] else WithLength(buffer))
  {
    ok := EncodeVarint(stream, |buffer|);
    if ok {
      ok := stream.Write(buffer);
    }
  }

  /** pb_encode_fixed32 and pb_encode_fixed64, on a machine of any byte order. */
  function FixedBytes(word: nat, n: nat): (b: seq<Byte>)
    requires n == 4 || n == 8
    ensures b == LittleEndian(word, n)
  {
    var low := [word % 256, word / 0x100 % 256, word / 0x1_0000 % 256, word / 0x100_0000 % 256];
    LittleEndianIs(word);
    if n == 4 then low else
    var high := word / WORD32;
    LittleEndianIs(high);
    low + [high % 256, high / 0x100 % 256, high / 0x1_0000 % 256, high / 0x100_0000 % 256]
  }

  lemma LittleEndianIs(word: nat)
    ensures LittleEndian(word, 4) == [word % 256, word / 0x100 % 256, word / 0x1_0000 % 256, word / 0x100_0000 % 256]
    ensures LittleEndian(word, 8) == LittleEndian(word, 4) + LittleEndian(word / WORD32, 4)
  {
    FourBytes(word, 0);
    FourBytes(word, 4);
  }

  lemma FourBytes(word: nat, n: nat)
    ensures LittleEndian(word, 4 + n)
      == [word % 256, word / 0x100 % 256, word / 0x1_0000 % 256, word / 0x100_0000 % 256]
        + LittleEndian(word / WORD32, n)
  {
    var a, b, c := word / 0x100, word / 0x1_0000, word / 0x100_0000;
    Shifts(word);
    hide LittleEndian;
    FirstByte(word, 3 + n);
    FirstByte(a, 2 + n);
    FirstByte(b, 1 + n);
    FirstByte(c, n);
  }

  lemma FirstByte(word: nat, n: nat)
    ensures LittleEndian(word, n + 1) == [word % 256] + LittleEndian(word / 0x100, n)
  {
  }

  /** pb_enc_bool, pb_enc_varint and pb_enc_fixed. */
  method EncodeScalar(stream: OStream, l: LType, v: Value) returns (ok: bool)
    requires stream.Valid() && Packable(l) && Typed(l, v)
    modifies stream
    ensures stream.Valid() && ok == old(stream.Room(|ScalarBytes(l, v)|))
    ensures ok ==>
      && stream.bytesWritten == old(stream.bytesWritten) + |ScalarBytes(l, v)|
      && stream.written == old(stream.written) + (if stream.sizing then [] else ScalarBytes(l, v))
  {
    match l
    case TBool => ok := EncodeVarint(stream, if v.b then 1 else 0);
    case TUVarint(_) => ok := EncodeVarint(stream, v.n);
    case TVarint(size) =>
      SignedFits(v.i, size);
      ok := EncodeVarint(stream, if v.i >= 0 then v.i else v.i + WORD64);
    case TSVarint(size) =>
      SignedFits(v.i, size);
      ok := EncodeVarint(stream, ZigZag(v.i));
    case TFixed32 => ok := stream.Write(FixedBytes(v.word, 4));
    case TFixed64 => ok := stream.Write(FixedBytes(v.word, 8));
  }

  lemma SignedFits(i: int, size: nat)
    requires FitsSigned(i, size)
    ensures -HALF64 <= i < HALF64
  {
  }

  /** A value behind its key: encode_basic_field. */
  method EncodeBasicField(stream: OStream, f: Field, v: Value) returns (ok: bool)
    requires stream.Valid() && f.tag <= PB_SIZE_MAX && Typed(f.ltype, v) && FieldWellFormed(f)
    requires |Tagged(f, v)| < WORD32
    modifies stream
    ensures stream.Valid() && ok == (Encodable(f.ltype, v) && old(stream.Room(|Tagged(f, v)|)))
    ensures ok ==>
      && stream.bytesWritten == old(stream.bytesWritten) + |Tagged(f, v)|
      && stream.written == old(stream.written) + (if stream.sizing then [] else Tagged(f, v))
    decreases v, 3
  {
    hide Key, BasicBytes, Encodable;
    ok := EncodeTag(stream, WireType(f.ltype), f.tag);
    if !ok {
      return;
    }
    ok := EncodeValue(stream, f, v);
  }

  lemma LengthInFront(v: Value)
    ensures v.Octets? ==> |WithLength(v.bytes)| >= |v.bytes|
    ensures v.Text? ==> |WithLength(v.chars)| >= |v.chars|
    ensures forall d :: v.Message? ==> |WithLength(MessageBytes(d, v, 0))| >= |MessageBytes(d, v, 0)|
  {
  }

  /** What encode_basic_field writes behind the key. */
  method EncodeValue(stream: OStream, f: Field, v: Value) returns (ok: bool)
    requires stream.Valid() && Typed(f.ltype, v) && FieldWellFormed(f) && |BasicBytes(f.ltype, v)| < WORD32
    modifies stream
    ensures stream.Valid() && ok == (Encodable(f.ltype, v) && old(stream.Room(|BasicBytes(f.ltype, v)|)))
    ensures ok ==>
      && stream.bytesWritten == old(stream.bytesWritten) + |BasicBytes(f.ltype, v)|
      && stream.written == old(stream.written) + (if stream.sizing then [] else BasicBytes(f.ltype, v))
    decreases v, 2
  {
    hide WithLength, ScalarBytes, MessageBytes;
    LengthInFront(v);
    match f.ltype
    case TBytes(capacity) =>
      if |v.bytes| > capacity {
        return false;
      }
      ok := EncodeString(stream, v.bytes);
    case TString(dataSize) =>
      if dataSize == 0 || |v.chars| > dataSize - 1 {
        return false;
      }
      ok := EncodeString(stream, v.chars);
    case TFixedBytes(_) =>
      ok := EncodeString(stream, v.bytes);
    case TMessage(desc) =>
      ok := EncodeSubmessage(stream, desc, v);
    case _ =>
      ok := EncodeScalar(stream, f.ltype, v);
  }

  /** pb_encode_submessage: a first pass finds the size, a second one writes. */
  method EncodeSubmessage(stream: OStream, d: Desc, v: Value) returns (ok: bool)
    requires stream.Valid() && Typed(TMessage(d), v) && WellFormed(d) && |MessageBytes(d, v, 0)| < WORD32
    modifies stream
    ensures stream.Valid() && ok == (Encodable(TMessage(d), v) && old(stream.Room(|WithLength(MessageBytes(d, v, 0))|)))
    ensures ok ==>
      && stream.bytesWritten == old(stream.bytesWritten) + |WithLength(MessageBytes(d, v, 0))|
      && stream.written == old(stream.written) + (if stream.sizing then [] else WithLength(MessageBytes(d, v, 0)))
    decreases v, 1
  {
    var counter := new OStream(true, 0);
    ok := Encode(counter, d, v);
    if !ok {
      return;
    }
    var size := counter.bytesWritten;
    ok := EncodeVarint(stream, size);
    if !ok {
      return;
    }
    if stream.sizing {
      stream.Count(size);
      return true;
    }
    if stream.bytesWritten + size > stream.maxSize {
      return false;
    }
    var substream := new OStream(false, size);
    substream.written := stream.written;
    ok := Encode(substream, d, v);
    stream.bytesWritten := stream.bytesWritten + substream.bytesWritten;
    stream.written := substream.written;
    if substream.bytesWritten != size {
      assert false;   // "submsg size changed"
    }
  }

  /** encode_array. */
  method EncodeArray(stream: OStream, f: Field, s: Slot) returns (ok: bool)
    requires stream.Valid() && f.htype.Repeated? && SlotTyped(f, s) && FieldWellFormed(f) && |FieldBytes(f, s)| < WORD32
    modifies stream
    ensures stream.Valid() && ok == (SlotEncodable(f, s) && old(stream.Room(|FieldBytes(f, s)|)))
    ensures ok ==>
      && stream.bytesWritten == old(stream.bytesWritten) + |FieldBytes(f, s)|
      && stream.written == old(stream.written) + (if stream.sizing then [] else FieldBytes(f, s))
    decreases s, 1
  {
    var count := |s.values|;
    if count == 0 {
      return true;
    }
    if count > f.htype.arraySize {
      return false;
    }
    if Packable(f.ltype) {
      ok := EncodePacked(stream, f, s.values);
    } else {
      ok := EncodeUnpacked(stream, f, s);
    }
  }

  /** The part of encode_array for types that may be packed: the size comes first. */
  method EncodePacked(stream: OStream, f: Field, values: seq<Value>) returns (ok: bool)
    requires stream.Valid() && Packable(f.ltype) && f.tag <= PB_SIZE_MAX
    requires |WithLength(Concat(f.ltype, values))| < WORD32
    requires forall i :: 0 <= i < |values| ==> Typed(f.ltype, values[i])
    modifies stream
    ensures var b := Key(f.tag, 2) + WithLength(Concat(f.ltype, values));
      && stream.Valid() && ok == old(stream.Room(|b|))
      && (ok ==>
            && stream.bytesWritten == old(stream.bytesWritten) + |b|
            && stream.written == old(stream.written) + (if stream.sizing then [] else b))
  {
    hide Key, Concat, Base128;
    ok := EncodeTag(stream, 2, f.tag);
    if !ok {
      return;
    }
    var size := PackedSize(f.ltype, values);
    ok := EncodeVarint(stream, size);
    if !ok {
      return;
    }
    if stream.sizing {
      stream.Count(size);
      return true;
    }
    ok := EncodeScalars(stream, f.ltype, values);
  }

  /** The size of a packed array: four or eight bytes an element, or what a counting stream
      says. */
  method PackedSize(l: LType, values: seq<Value>) returns (size: nat)
    requires Packable(l) && forall i :: 0 <= i < |values| ==> Typed(l, values[i])
    ensures size == |Concat(l, values)|
  {
    if l == TFixed32 {
      size := 4 * |values|;
      FixedSize(l, 4, values);
    } else if l == TFixed64 {
      size := 8 * |values|;
      FixedSize(l, 8, values);
    } else {
      var counter := new OStream(true, 0);
      var ok := EncodeScalars(counter, l, values);
      size := counter.bytesWritten;
    }
  }

  lemma {:induction false} FixedSize(l: LType, n: nat, values: seq<Value>)
    requires (l == TFixed32 && n == 4) || (l == TFixed64 && n == 8)
    requires forall i :: 0 <= i < |values| ==> Typed(l, values[i])
    ensures |Concat(l, values)| == n * |values|
  {
    if values != [] {
      FixedSize(l, n, values[1..]);
    }
  }

  method EncodeScalars(stream: OStream, l: LType, values: seq<Value>) returns (ok: bool)
    requires stream.Valid() && Packable(l) && forall i :: 0 <= i < |values| ==> Typed(l, values[i])
    modifies stream
    ensures stream.Valid() && ok == old(stream.Room(|Concat(l, values)|))
    ensures ok ==>
      && stream.bytesWritten == old(stream.bytesWritten) + |Concat(l, values)|
      && stream.written == old(stream.written) + (if stream.sizing then [] else Concat(l, values))
  {
    hide ScalarBytes, Typed, Packable;
    var i := 0;
    ghost var all, done := Concat(l, values), [];
    while i < |values|
      invariant 0 <= i <= |values| && all == done + Concat(l, values[i..])
      invariant stream.Valid() && old(stream.Room(|done|)) && stream.bytesWritten == old(stream.bytesWritten) + |done|
      invariant stream.written == old(stream.written) + (if stream.sizing then [] else done)
    {
      assert values[i..][1..] == values[i + 1..];
      ok := EncodeScalar(stream, l, values[i]);
      if !ok {
        return;
      }
      done := done + ScalarBytes(l, values[i]);
      i := i + 1;
    }
    ok := true;
  }

  /** The part of encode_array that writes a key in front of every element. */
  method EncodeUnpacked(stream: OStream, f: Field, s: Slot) returns (ok: bool)
    requires stream.Valid() && SlotTyped(f, s) && s.Many? && FieldWellFormed(f) && |EachTagged(f, s, 0)| < WORD32
    modifies stream
    ensures stream.Valid()
    ensures ok
      == ((forall i :: 0 <= i < |s.values| ==> Encodable(f.ltype, s.values[i]))
          && old(stream.Room(|EachTagged(f, s, 0)|)))
    ensures ok ==>
      && stream.bytesWritten == old(stream.bytesWritten) + |EachTagged(f, s, 0)|
      && stream.written == old(stream.written) + (if stream.sizing then [] else EachTagged(f, s, 0))
    decreases s, 0
  {
    hide Tagged, Encodable;
    var i := 0;
    ghost var all, done := EachTagged(f, s, 0), [];
    while i < |s.values|
      invariant 0 <= i <= |s.values| && all == done + EachTagged(f, s, i)
      invariant forall j :: 0 <= j < i ==> Encodable(f.ltype, s.values[j])
      invariant stream.Valid() && old(stream.Room(|done|)) && stream.bytesWritten == old(stream.bytesWritten) + |done|
      invariant stream.written == old(stream.written) + (if stream.sizing then [] else done)
    {
      assert EachTagged(f, s, i) == Tagged(f, s.values[i]) + EachTagged(f, s, i + 1);
      ok := EncodeBasicField(stream, f, s.values[i]);
      if !ok {
        return;
      }
      done := done + Tagged(f, s.values[i]);
      i := i + 1;
    }
    ok := true;
  }

  /** encode_field. */
  method EncodeField(stream: OStream, f: Field, s: Slot) returns (ok: bool)
    requires stream.Valid() && SlotTyped(f, s) && FieldWellFormed(f) && |FieldBytes(f, s)| < WORD32
    modifies stream
    ensures stream.Valid() && ok == (SlotEncodable(f, s) && old(stream.Room(|FieldBytes(f, s)|)))
    ensures ok ==>
      && stream.bytesWritten == old(stream.bytesWritten) + |FieldBytes(f, s)|
      && stream.written == old(stream.written) + (if stream.sizing then [] else FieldBytes(f, s))
    decreases s, 2
  {
    match s
    case Arm(chosen, v) =>
      if !chosen {
        return true;
      }
      ok := EncodeBasicField(stream, f, v);
    case Opt(has, v) =>
      if !has {
        return true;
      }
      ok := EncodeBasicField(stream, f, v);
    case One(v) =>
      if f.htype == Singular {
        if IsDefault(f.ltype, v) {
          return true;
        }
      }
      ok := EncodeBasicField(stream, f, v);
    case Many(_) =>
      ok := EncodeArray(stream, f, s);
  }

  /** pb_encode. */
  method Encode(stream: OStream, d: Desc, v: Value) returns (ok: bool)
    requires stream.Valid() && Typed(TMessage(d), v) && WellFormed(d) && |MessageBytes(d, v, 0)| < WORD32
    modifies stream
    ensures stream.Valid() && ok == (Encodable(TMessage(d), v) && old(stream.Room(|MessageBytes(d, v, 0)|)))
    ensures ok ==>
      && stream.bytesWritten == old(stream.bytesWritten) + |MessageBytes(d, v, 0)|
      && stream.written == old(stream.written) + (if stream.sizing then [] else MessageBytes(d, v, 0))
    decreases v, 0
  {
    var i := 0;
    ghost var all, done := MessageBytes(d, v, 0), [];
    while i < |d.fields|
      invariant 0 <= i <= |d.fields| && all == done + MessageBytes(d, v, i)
      invariant forall j :: 0 <= j < i ==> SlotEncodable(d.fields[j], v.slots[j])
      invariant stream.Valid() && old(stream.Room(|done|)) && stream.bytesWritten == old(stream.bytesWritten) + |done|
      invariant stream.written == old(stream.written) + (if stream.sizing then [] else done)
    {
      var f, s := d.fields[i], v.slots[i];
      assert FieldWellFormed(f) && SlotTyped(f, s);
      assert MessageBytes(d, v, i) == FieldBytes(f, s) + MessageBytes(d, v, i + 1);
      ok := EncodeField(stream, f, s);
      if !ok {
        return;
      }
      done := done + FieldBytes(f, s);
      i := i + 1;
    }
    ok := true;
  }
}
