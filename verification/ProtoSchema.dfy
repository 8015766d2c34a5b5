/** Messages as nanopb's descriptors describe them, and the bytes that stand for them. */
module ProtoSchema {
  import opened Bytes
  import opened Varint

  /** The data types of static fields; `size` is the size of an integer in bytes. */
  datatype LType =
    | TBool
    | TVarint(size: nat)
    | TUVarint(size: nat)
    | TSVarint(size: nat)
    | TFixed32
    | TFixed64
    | TBytes(capacity: nat)
    | TString(dataSize: nat)
    | TFixedBytes(length: nat)
    | TMessage(desc: Desc)

  /** Presence. A singular field is an optional one without a has_ member; the fields of one
      union share their storage and the which_ member. */
  datatype HType = Required | Optional | Singular | Repeated(arraySize: nat) | Oneof(which: nat)

  datatype Field = Field(tag: nat, htype: HType, ltype: LType)

  datatype Desc = Desc(fields: seq<Field>)

  datatype Value =
    | Bool(b: bool)
    | Signed(i: int)
    | Unsigned(n: nat)
    | Raw(word: nat)
    | Octets(bytes: seq<Byte>)
    | Text(chars: seq<Byte>)     // up to the terminator
    | Message(slots: seq<Slot>)

  datatype Slot =
    | One(value: Value)
    | Opt(has: bool, value: Value)
    | Many(values: seq<Value>)
    | Arm(chosen: bool, value: Value)

  /** The largest pb_size_t, an integer of two bytes. */
  const PB_SIZE_MAX := 65535

  predicate Packable(l: LType) {
    l.TBool? || l.TVarint? || l.TUVarint? || l.TSVarint? || l.TFixed32? || l.TFixed64?
  }

  predicate IntSize(size: nat) {
    size == 1 || size == 2 || size == 4 || size == 8
  }

  /** How many values an integer of that many bytes has. */
  function Values(size: nat): (n: nat)
    ensures n > 0 && n % 2 == 0 && n <= WORD64
  {
    if size == 1 then 0x100 else if size == 2 then 0x1_0000 else if size == 4 then WORD32 else WORD64
  }

  predicate FitsSigned(i: int, size: nat) {
    IntSize(size) && -(Values(size) / 2) <= i < Values(size) / 2
  }

  /** The memory of a field holds a value of its C type. */
  predicate Typed(l: LType, v: Value)
    decreases v
  {
    match (l, v)
    case (TBool, Bool(_)) => true
    case (TVarint(size), Signed(i)) => FitsSigned(i, size)
    case (TSVarint(size), Signed(i)) => FitsSigned(i, size)
    case (TUVarint(size), Unsigned(n)) => IntSize(size) && n < Values(size)
    case (TFixed32, Raw(word)) => word < WORD32
    case (TFixed64, Raw(word)) => word < WORD64
    case (TBytes(_), Octets(bytes)) => |bytes| <= PB_SIZE_MAX
    case (TString(dataSize), Text(chars)) => |chars| <= dataSize && forall i :: 0 <= i < |chars| ==> chars[i] != 0
    case (TFixedBytes(length), Octets(bytes)) => |bytes| == length <= PB_SIZE_MAX
    case (TMessage(desc), Message(slots)) =>
      && |slots| == |desc.fields| && OneChosen(desc.fields, slots)
      && forall i :: 0 <= i < |slots| ==> SlotTyped(desc.fields[i], slots[i])
    case _ => false
  }

  predicate SlotTyped(f: Field, s: Slot)
    decreases s
  {
    match (f.htype, s)
    case (Required, One(v)) => Typed(f.ltype, v)
    case (Singular, One(v)) => Typed(f.ltype, v)
    case (Optional, Opt(_, v)) => Typed(f.ltype, v)
    case (Repeated(_), Many(values)) => |values| <= PB_SIZE_MAX
      && forall i :: 0 <= i < |values| ==> Typed(f.ltype, values[i])
    case (Oneof(_), Arm(_, v)) => Typed(f.ltype, v)
    case _ => false
  }

  /** A which_ member names one field of its union. */
  predicate OneChosen(fields: seq<Field>, slots: seq<Slot>) {
    forall i, j ::
      0 <= i < j < |slots| && j < |fields| && slots[i].Arm? && slots[j].Arm? && slots[i].chosen && slots[j].chosen
      ==> fields[i].htype != fields[j].htype
  }

  /** A schema the generator produces: tags ascend and fit pb_size_t, as sizes do. */
  predicate WellFormed(d: Desc)
    decreases d
  {
    && (forall i :: 0 <= i < |d.fields| ==> FieldWellFormed(d.fields[i]))
    && (forall i, j :: 0 <= i < j < |d.fields| ==> d.fields[i].tag < d.fields[j].tag)
  }

  predicate FieldWellFormed(f: Field)
    decreases f
  {
    && 0 < f.tag <= PB_SIZE_MAX
    && match f.ltype
       case TMessage(desc) => WellFormed(desc)
       case _ => true
  }

  function WireType(l: LType): (wt: nat)
    ensures wt < 8
  {
    match l
    case TBool => 0
    case TVarint(_) => 0
    case TUVarint(_) => 0
    case TSVarint(_) => 0
    case TFixed64 => 1
    case TFixed32 => 5
    case _ => 2
  }

  function Key(tag: nat, wireType: nat): (b: seq<Byte>)
    ensures |b| > 0
  {
    Base128(tag * 8 + wireType)
  }

  function LittleEndian(word: nat, n: nat): (b: seq<Byte>)
    ensures |b| == n
  {
    if n == 0 then [] else [word % 256] + LittleEndian(word / 256, n - 1)
  }

  /** The bytes of a value that may be packed. */
  function ScalarBytes(l: LType, v: Value): (b: seq<Byte>) {
    match (l, v)
    case (TBool, Bool(x)) => Base128(if x then 1 else 0)
    case (TVarint(_), Signed(i)) => Base128(if i >= 0 then i else if i + WORD64 >= 0 then i + WORD64 else 0)
    case (TUVarint(_), Unsigned(n)) => Base128(n)
    case (TSVarint(_), Signed(i)) => if -HALF64 <= i < HALF64 then Base128(ZigZag(i)) else []
    case (TFixed32, Raw(word)) => LittleEndian(word, 4)
    case (TFixed64, Raw(word)) => LittleEndian(word, 8)
    case _ => []
  }

  function Concat(l: LType, values: seq<Value>): (b: seq<Byte>) {
    if values == [] then [] else ScalarBytes(l, values[0]) + Concat(l, values[1..])
  }

  function WithLength(b: seq<Byte>): (r: seq<Byte>) {
    Base128(|b|) + b
  }

  /** The bytes of a value behind its key. */
  function BasicBytes(l: LType, v: Value): (b: seq<Byte>)
    decreases v, 0
  {
    match (l, v)
    case (TBytes(_), Octets(bytes)) => WithLength(bytes)
    case (TString(_), Text(chars)) => WithLength(chars)
    case (TFixedBytes(_), Octets(bytes)) => WithLength(bytes)
    case (TMessage(desc), Message(slots)) => WithLength(MessageBytes(desc, v, 0))
    case _ => ScalarBytes(l, v)
  }

  /** The bytes of the fields from the i-th one on. */
  function MessageBytes(d: Desc, v: Value, i: nat): (b: seq<Byte>)
    decreases v, 0, |d.fields| - i
  {
    if v.Message? && i < |d.fields| && i < |v.slots|
      then FieldBytes(d.fields[i], v.slots[i]) + MessageBytes(d, v, i + 1) else []
  }

  function FieldBytes(f: Field, s: Slot): (b: seq<Byte>)
    decreases s, 2
  {
    match (f.htype, s)
    case (Required, One(v)) => Tagged(f, v)
    case (Singular, One(v)) => if IsDefault(f.ltype, v) then [] else Tagged(f, v)
    case (Optional, Opt(has, v)) => if has then Tagged(f, v) else []
    case (Repeated(_), Many(values)) =>
      if values == [] then []
      else if Packable(f.ltype) then Key(f.tag, 2) + WithLength(Concat(f.ltype, values))
      else EachTagged(f, s, 0)
    case (Oneof(_), Arm(chosen, v)) => if chosen then Tagged(f, v) else []
    case _ => []
  }

  function Tagged(f: Field, v: Value): (b: seq<Byte>)
    decreases v, 1
  {
    Key(f.tag, WireType(f.ltype)) + BasicBytes(f.ltype, v)
  }

  function EachTagged(f: Field, s: Slot, k: nat): (b: seq<Byte>)
    decreases s, 1, if s.Many? then |s.values| - k else 0
  {
    if s.Many? && k < |s.values| then Tagged(f, s.values[k]) + EachTagged(f, s, k + 1) else []
  }

  /** pb_check_proto3_default_value for a singular field. */
  predicate IsDefault(l: LType, v: Value)
    decreases v
  {
    match v
    case Bool(x) => !x
    case Signed(i) => i == 0
    case Unsigned(n) => n == 0
    case Raw(word) => word == 0
    case Octets(bytes) => bytes == []
    case Text(chars) => chars == []
    case Message(slots) =>
      l.TMessage? && |slots| == |l.desc.fields|
        && forall i :: 0 <= i < |slots| ==> SlotIsDefault(l.desc.fields[i], slots[i])
  }

  predicate SlotIsDefault(f: Field, s: Slot)
    decreases s
  {
    match s
    case One(v) => f.htype == Singular && IsDefault(f.ltype, v)
    case Opt(has, _) => !has
    case Many(values) => values == []
    case Arm(chosen, _) => !chosen
  }

  /** No step of the encoder reports an error: what is present fits its declared size. */
  predicate Encodable(l: LType, v: Value)
    decreases v
  {
    match (l, v)
    case (TBytes(capacity), Octets(bytes)) => |bytes| <= capacity
    case (TString(dataSize), Text(chars)) => |chars| < dataSize
    case (TMessage(desc), Message(slots)) =>
      |slots| == |desc.fields| && forall i :: 0 <= i < |slots| ==> SlotEncodable(desc.fields[i], slots[i])
    case _ => true
  }

  predicate SlotEncodable(f: Field, s: Slot)
    decreases s
  {
    match (f.htype, s)
    case (Required, One(v)) => Encodable(f.ltype, v)
    case (Singular, One(v)) => IsDefault(f.ltype, v) || Encodable(f.ltype, v)
    case (Optional, Opt(has, v)) => !has || Encodable(f.ltype, v)
    case (Repeated(arraySize), Many(values)) =>
      values == [] || (|values| <= arraySize && forall i :: 0 <= i < |values| ==> Encodable(f.ltype, values[i]))
    case (Oneof(_), Arm(chosen, v)) => !chosen || Encodable(f.ltype, v)
    case _ => true
  }

  /** The value pb_field_set_to_default leaves. */
  function Default(l: LType): (v: Value)
    decreases l
  {
    match l
    case TBool => Bool(false)
    case TVarint(_) => Signed(0)
    case TSVarint(_) => Signed(0)
    case TUVarint(_) => Unsigned(0)
    case TFixed32 => Raw(0)
    case TFixed64 => Raw(0)
    case TBytes(_) => Octets([])
    case TString(_) => Text([])
    case TFixedBytes(length) => Octets(seq(length, _ => 0))
    case TMessage(desc) => Message(seq(|desc.fields|, i requires 0 <= i < |desc.fields| => DefaultSlot(desc.fields[i])))
  }

  function DefaultSlot(f: Field): (s: Slot)
    decreases f
  {
    match f.htype
    case Required => One(Default(f.ltype))
    case Singular => One(Default(f.ltype))
    case Optional => Opt(false, Default(f.ltype))
    case Repeated(_) => Many([])
    case Oneof(_) => Arm(false, Default(f.ltype))
  }

  /** The value without what is in fields that are marked absent. */
  function Present(l: LType, v: Value): (r: Value)
    decreases v
  {
    match (l, v)
    case (TMessage(desc), Message(slots)) =>
      if |slots| == |desc.fields| then
        Message(seq(|slots|, i requires 0 <= i < |slots| => PresentSlot(desc.fields[i], slots[i])))
      else v
    case _ => v
  }

  function PresentSlot(f: Field, s: Slot): (r: Slot)
    decreases s
  {
    match s
    case One(v) => One(Present(f.ltype, v))
    case Opt(has, v) => if has then Opt(true, Present(f.ltype, v)) else Opt(false, Default(f.ltype))
    case Many(values) => Many(seq(|values|, i requires 0 <= i < |values| => Present(f.ltype, values[i])))
    case Arm(chosen, v) => if chosen then Arm(true, Present(f.ltype, v)) else Arm(false, Default(f.ltype))
  }
}
