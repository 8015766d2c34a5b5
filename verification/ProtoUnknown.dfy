/** The wire format that different schemas have in common: the key in front of a value says
    how far it reaches, so that a receiver can pass over a field it does not know. */
module ProtoUnknown {
  import opened Bytes
  import opened Options
  import opened ProtoDecode
  import opened ProtoRoundTrip
  import opened ProtoSchema
  import opened Varint

  /** The number a varint type is sent as. */
  function Sent(l: LType, v: Value): (n: nat) {
    match v
    case Bool(x) => if x then 1 else 0
    case Unsigned(n) => n
    case Signed(i) =>
      if l.TSVarint? then (if i >= 0 then 2 * i else -2 * i - 1)
      else if i >= 0 then i else if i + WORD64 >= 0 then i + WORD64 else 0
    case _ => 0
  }

  /** The bytes behind the length of a value of variable length. */
  function Payload(l: LType, v: Value): (b: seq<Byte>) {
    match v
    case Octets(bytes) => bytes
    case Text(chars) => chars
    case Message(_) => if l.TMessage? then MessageBytes(l.desc, v, 0) else []
    case _ => []
  }

  /** The wire type in the key of a value fixes how far the value reaches: a varint of at
      most 64 bits, eight bytes, a length and that many bytes, or four bytes. */
  lemma KindFixesExtent(l: LType, v: Value)
    requires Typed(l, v)
    ensures match WireType(l)
            case 0 => Sent(l, v) < WORD64 && BasicBytes(l, v) == Base128(Sent(l, v))
            case 1 => |BasicBytes(l, v)| == 8
            case 2 => BasicBytes(l, v) == Base128(|Payload(l, v)|) + Payload(l, v)
            case 5 => |BasicBytes(l, v)| == 4
            case _ => false
    ensures Packable(l) <==> WireType(l) != 2
  {
    if l.TVarint? || l.TSVarint? {
      CastsKeep(v.i, l.size);
      ZigZagInverts(v.i);
    }
  }

  lemma {:induction false} VarintIsSkipped(n: nat, rest: seq<Byte>)
    ensures SkipVarint(Base128(n) + rest) == Some(rest)
  {
    if n < 128 {
      assert (Base128(n) + rest)[1..] == rest;
    } else {
      VarintIsSkipped(n / 128, rest);
      assert (Base128(n) + rest)[1..] == Base128(n / 128) + rest;
    }
  }

  /** A value is passed over exactly, by the wire type of its key alone. */
  lemma ValueIsSkipped(l: LType, v: Value, rest: seq<Byte>)
    requires Typed(l, v) && |BasicBytes(l, v)| < WORD32
    ensures SkipField(BasicBytes(l, v) + rest, WireType(l)) == Some(rest)
  {
    hide Typed, BasicBytes;
    KindFixesExtent(l, v);
    var b := BasicBytes(l, v);
    assert (b + rest)[|b|..] == rest;
    if WireType(l) == 0 {
      VarintIsSkipped(Sent(l, v), rest);
    } else if WireType(l) == 2 {
      assert b == WithLength(Payload(l, v));
      SubstreamRoundTrip(Payload(l, v), rest);
    }
  }

  predicate Unknown(d: Desc, tag: nat) {
    forall i :: 0 <= i < |d.fields| ==> d.fields[i].tag != tag
  }

  lemma FindsNothing(d: Desc, tag: nat)
    requires Unknown(d, tag)
    ensures FindTag(d.fields, tag) == |d.fields|
  {
  }

  /** Whatever stands behind the key of an unknown field is passed over. */
  lemma KeyIsSkipped(d: Desc, tag: nat, wireType: nat, body: seq<Byte>, rest: seq<Byte>, slots: seq<Slot>,
                     seen: set<nat>)
    requires 0 < tag <= PB_SIZE_MAX && Unknown(d, tag) && wireType < 8
    requires SkipField(body + rest, wireType) == Some(rest)
    ensures DecodeFields(d, Key(tag, wireType) + body + rest, slots, seen) == DecodeFields(d, rest, slots, seen)
  {
    hide SkipField;
    var key := tag * 8 + wireType;
    RoundTrip32(key, body + rest);
    assert Key(tag, wireType) + body + rest == Base128(key) + (body + rest);
    FindsNothing(d, tag);
    assert key / 8 == tag && key % 8 == wireType;
  }

  /** A value behind a key that no field of the schema has changes nothing. */
  lemma UnknownValueIsSkipped(d: Desc, f: Field, v: Value, rest: seq<Byte>, slots: seq<Slot>, seen: set<nat>)
    requires 0 < f.tag <= PB_SIZE_MAX && Unknown(d, f.tag) && Typed(f.ltype, v) && |BasicBytes(f.ltype, v)| < WORD32
    ensures DecodeFields(d, Tagged(f, v) + rest, slots, seen) == DecodeFields(d, rest, slots, seen)
  {
    hide Typed, BasicBytes, DecodeFields, SkipField;
    ValueIsSkipped(f.ltype, v, rest);
    KeyIsSkipped(d, f.tag, WireType(f.ltype), BasicBytes(f.ltype, v), rest, slots, seen);
  }

  lemma {:induction false} UnknownElementsAreSkipped(d: Desc, f: Field, s: Slot, k: nat, rest: seq<Byte>,
                                                     slots: seq<Slot>, seen: set<nat>)
    requires 0 < f.tag <= PB_SIZE_MAX && Unknown(d, f.tag) && SlotTyped(f, s) && s.Many? && k <= |s.values|
    requires |EachTagged(f, s, k)| < WORD32
    ensures DecodeFields(d, EachTagged(f, s, k) + rest, slots, seen) == DecodeFields(d, rest, slots, seen)
    decreases |s.values| - k
  {
    hide Typed, BasicBytes, DecodeFields;
    if k == |s.values| {
      assert [] + rest == rest;
    } else {
      var more := EachTagged(f, s, k + 1);
      assert EachTagged(f, s, k) + rest == Tagged(f, s.values[k]) + (more + rest);
      UnknownValueIsSkipped(d, f, s.values[k], more + rest, slots, seen);
      UnknownElementsAreSkipped(d, f, s, k + 1, rest, slots, seen);
    }
  }

  /** The bytes of a field that the schema of the receiver does not have change nothing,
      whatever its type and presence are. */
  lemma UnknownFieldIsSkipped(d: Desc, f: Field, s: Slot, rest: seq<Byte>, slots: seq<Slot>, seen: set<nat>)
    requires 0 < f.tag <= PB_SIZE_MAX && Unknown(d, f.tag) && SlotTyped(f, s) && |FieldBytes(f, s)| < WORD32
    ensures DecodeFields(d, FieldBytes(f, s) + rest, slots, seen) == DecodeFields(d, rest, slots, seen)
  {
    hide Typed, BasicBytes, DecodeFields;
    if FieldBytes(f, s) == [] {
      assert [] + rest == rest;
    } else if s.Many? && Packable(f.ltype) {
      var payload := Concat(f.ltype, s.values);
      SubstreamRoundTrip(payload, rest);
      KeyIsSkipped(d, f.tag, 2, WithLength(payload), rest, slots, seen);
    } else if s.Many? {
      UnknownElementsAreSkipped(d, f, s, 0, rest, slots, seen);
    } else {
      UnknownValueIsSkipped(d, f, s.value, rest, slots, seen);
    }
  }

  /** Where the fields with these tags are, in order. */
  function Places(fields: seq<Field>, tags: set<nat>, n: nat): (places: seq<nat>)
    requires n <= |fields|
    ensures |places| <= n && forall j :: 0 <= j < |places| ==> places[j] < n && fields[places[j]].tag in tags
    ensures forall j, k :: 0 <= j < k < |places| ==> places[j] < places[k]
  {
    if n == 0 then [] else Places(fields, tags, n - 1) + (if fields[n - 1].tag in tags then [n - 1] else [])
  }

  /** An older schema, that has only the fields with these tags. */
  function Older(d: Desc, tags: set<nat>): (r: Desc) {
    var places := Places(d.fields, tags, |d.fields|);
    Desc(seq(|places|, j requires 0 <= j < |places| => d.fields[places[j]]))
  }

  /** What an older schema has of a message. */
  function OlderValue(d: Desc, tags: set<nat>, v: Value): (r: Value)
    requires v.Message? && |v.slots| == |d.fields|
  {
    var places := Places(d.fields, tags, |d.fields|);
    Message(seq(|places|, j requires 0 <= j < |places| => v.slots[places[j]]))
  }

  lemma {:induction false} PlacesGrow(fields: seq<Field>, tags: set<nat>, i: nat, n: nat)
    requires i <= n <= |fields|
    ensures Places(fields, tags, i) <= Places(fields, tags, n)
    decreases n - i
  {
    if i < n {
      PlacesGrow(fields, tags, i, n - 1);
    }
  }

  lemma OlderIsValid(d: Desc, tags: set<nat>, v: Value)
    requires WellFormed(d) && Typed(TMessage(d), v) && Encodable(TMessage(d), v)
    ensures var o, w := Older(d, tags), OlderValue(d, tags, v);
      WellFormed(o) && Typed(TMessage(o), w) && Encodable(TMessage(o), w)
  {
    hide Places, FieldWellFormed, SlotTyped, SlotEncodable;
  }

  lemma UnknownToOlder(d: Desc, tags: set<nat>, tag: nat)
    requires tag !in tags
    ensures Unknown(Older(d, tags), tag)
  {
  }

  /** The bytes of the fields from the i-th one on, read with the older schema. */
  lemma {:induction false} OlderReads(d: Desc, tags: set<nat>, v: Value, i: nat, seen: set<nat>)
    requires WellFormed(d) && Typed(TMessage(d), v) && Encodable(TMessage(d), v) && i <= |d.fields|
    requires |MessageBytes(d, v, i)| < WORD32 - 1
    requires SeenBefore(Older(d, tags).fields, |Places(d.fields, tags, i)|, seen)
    ensures var o, w := Older(d, tags), OlderValue(d, tags, v);
      && |Places(d.fields, tags, i)| <= |w.slots| == |o.fields|
      && DecodeFields(o, MessageBytes(d, v, i), Mixed(o.fields, w.slots, |Places(d.fields, tags, i)|), seen)
        == Some(Present(TMessage(o), w).slots)
    decreases |d.fields| - i
  {
    hide WellFormed, Typed, Encodable, FieldBytes, Places, Older, OlderValue, DecodeFields;
    IsMessage(d, v);
    PlaceOfField(d, tags, v, i);
    var o, w, j := Older(d, tags), OlderValue(d, tags, v), |Places(d.fields, tags, i)|;
    OlderIsValid(d, tags, v);
    IsMessage(o, w);
    if i == |d.fields| {
      EndOfMessage(o, w, seen);
    } else {
      var f, s, rest := d.fields[i], v.slots[i], MessageBytes(d, v, i + 1);
      PartsAreValid(d, v, i);
      if f.tag in tags {
        PartsAreValid(o, w, j);
        var more := FieldRoundTrip(o, w, j, rest, seen);
        OlderReads(d, tags, v, i + 1, more);
      } else {
        UnknownToOlder(d, tags, f.tag);
        UnknownFieldIsSkipped(o, f, s, rest, Mixed(o.fields, w.slots, j), seen);
        OlderReads(d, tags, v, i + 1, seen);
      }
    }
  }

  lemma IsMessage(d: Desc, v: Value)
    requires Typed(TMessage(d), v)
    ensures v.Message? && |v.slots| == |d.fields|
  {
  }

  lemma PlaceOfField(d: Desc, tags: set<nat>, v: Value, i: nat)
    requires v.Message? && |v.slots| == |d.fields| && i <= |d.fields|
    ensures OlderValue(d, tags, v).Message?
    ensures var o, w, j := Older(d, tags), OlderValue(d, tags, v), |Places(d.fields, tags, i)|;
      && j <= |w.slots| == |o.fields| && (i == |d.fields| ==> j == |o.fields|)
      && (i < |d.fields| ==>
            if d.fields[i].tag in tags then
              && |Places(d.fields, tags, i + 1)| == j + 1
              && j < |o.fields| && o.fields[j] == d.fields[i] && w.slots[j] == v.slots[i]
            else |Places(d.fields, tags, i + 1)| == j)
  {
    PlacesGrow(d.fields, tags, i, |d.fields|);
    if i < |d.fields| && d.fields[i].tag in tags {
      PlacesGrow(d.fields, tags, i + 1, |d.fields|);
      assert Places(d.fields, tags, i + 1)[|Places(d.fields, tags, i)|] == i;
    }
  }

  lemma PartsAreValid(d: Desc, v: Value, i: nat)
    requires WellFormed(d) && Typed(TMessage(d), v) && Encodable(TMessage(d), v) && i < |d.fields|
    ensures |v.slots| == |d.fields| && SlotTyped(d.fields[i], v.slots[i]) && SlotEncodable(d.fields[i], v.slots[i])
    ensures 0 < d.fields[i].tag <= PB_SIZE_MAX
  {
    assert FieldWellFormed(d.fields[i]);
  }

  lemma EndOfMessage(d: Desc, v: Value, seen: set<nat>)
    requires WellFormed(d) && Typed(TMessage(d), v) && Encodable(TMessage(d), v)
    requires SeenBefore(d.fields, |d.fields|, seen)
    ensures |v.slots| == |d.fields|
    ensures DecodeFields(d, [], Mixed(d.fields, v.slots, |d.fields|), seen) == Some(Present(TMessage(d), v).slots)
  {
    FieldsRoundTrip(d, v, |d.fields|, seen);
  }

  /** A receiver with an older schema reads all fields it knows, and nothing else changes. */
  lemma OlderReceiver(d: Desc, tags: set<nat>, v: Value)
    requires WellFormed(d) && Typed(TMessage(d), v) && Encodable(TMessage(d), v)
    requires |MessageBytes(d, v, 0)| < WORD32 - 1
    ensures Decode(Older(d, tags), MessageBytes(d, v, 0))
      == Some(Present(TMessage(Older(d, tags)), OlderValue(d, tags, v)))
  {
    var o, w := Older(d, tags), OlderValue(d, tags, v);
    OlderReads(d, tags, v, 0, {});
    assert Mixed(o.fields, w.slots, 0) == Default(TMessage(o)).slots;
  }

  /** Fields that write nothing might as well not be in the schema. */
  lemma {:induction false} OlderWrites(d: Desc, tags: set<nat>, v: Value, i: nat)
    requires v.Message? && |v.slots| == |d.fields| && i <= |d.fields|
    requires forall k :: 0 <= k < |d.fields| && d.fields[k].tag !in tags ==> FieldBytes(d.fields[k], v.slots[k]) == []
    ensures MessageBytes(d, v, i)
      == MessageBytes(Older(d, tags), OlderValue(d, tags, v), |Places(d.fields, tags, i)|)
    decreases |d.fields| - i
  {
    hide FieldBytes, Places, Older, OlderValue;
    PlaceOfField(d, tags, v, i);
    if i < |d.fields| {
      OlderWrites(d, tags, v, i + 1);
      if d.fields[i].tag !in tags {
        assert MessageBytes(d, v, i) == [] + MessageBytes(d, v, i + 1);
      }
    }
  }

  /** A receiver with a newer schema reads what an older one wrote; the fields it knows
      besides are absent. */
  lemma NewerReceiver(d: Desc, tags: set<nat>, v: Value)
    requires WellFormed(d) && Typed(TMessage(d), v) && Encodable(TMessage(d), v)
    requires |MessageBytes(d, v, 0)| < WORD32 - 1
    requires forall k :: 0 <= k < |d.fields| && d.fields[k].tag !in tags ==> FieldBytes(d.fields[k], v.slots[k]) == []
    ensures Decode(d, MessageBytes(Older(d, tags), OlderValue(d, tags, v), 0)) == Some(Present(TMessage(d), v))
  {
    OlderWrites(d, tags, v, 0);
    RoundTrip(d, v);
  }
}
