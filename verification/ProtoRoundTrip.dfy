/** pb_decode gives back what pb_encode was given. */
module ProtoRoundTrip {
  import opened Arithmetic
  import opened Bytes
  import opened Options
  import opened ProtoDecode
  import opened ProtoSchema
  import opened Varint

  lemma {:induction false} LittleEndianInverts(word: nat, n: nat)
    requires n <= 8 && word < Power256(n)
    ensures FromLittleEndian(LittleEndian(word, n)) == word
  {
    if n > 0 {
      assert word / 256 < Power256(n - 1);
      LittleEndianInverts(word / 256, n - 1);
      assert LittleEndian(word, n)[1..] == LittleEndian(word / 256, n - 1);
    }
  }

  function Power256(n: nat): (p: nat) {
    if n == 0 then 1 else 256 * Power256(n - 1)
  }

  /** A cast to the size a signed value fits does not change it; nor does the cast to 32
      bits of the word that a smaller negative value is sent as. */
  lemma CastsKeep(i: int, size: nat)
    requires FitsSigned(i, size)
    ensures SignedCast(i, size) == i
    ensures size != 8 ==> SignedCast(if i >= 0 then i else i + WORD64, 4) == i
    ensures -HALF64 <= i < HALF64 && Signed64(if i >= 0 then i else i + WORD64) == i
  {
    CastIs(i, size);
    if size != 8 {
      assert Values(4) == WORD32;
      var n := if i >= 0 then i else i + WORD64;
      assert n % WORD32 == if i >= 0 then i else i + WORD32;
    }
  }

  lemma CastIs(i: int, size: nat)
    requires FitsSigned(i, size)
    ensures SignedCast(i, size) == i
  {
    RemainderIs(i, Values(size));
  }

  lemma RemainderIs(i: int, m: nat)
    requires m > 0 && 0 <= i + m && i < m
    ensures i % m == if i >= 0 then i else i + m
  {
    if i < 0 {
      var x := i / m + 1;
      Distributes(i / m, 1, m);
      assert x * m == i + m - i % m;
      ProductAwayFromZero(x, m);
    } else {
      Remainder(0, m, i);
    }
  }

  lemma BoolRoundTrip(x: bool, rest: seq<Byte>)
    ensures DecodeScalar(TBool, ScalarBytes(TBool, Bool(x)) + rest) == Some(Parsed(Bool(x), rest))
  {
    RoundTrip32(if x then 1 else 0, rest);
  }

  lemma VarintRoundTrip(l: LType, v: Value, n: nat, rest: seq<Byte>)
    requires l.TVarint? || l.TUVarint? || l.TSVarint?
    requires n < WORD64 && VarintValue(l, n) == Some(v) && ScalarBytes(l, v) == Base128(n)
    ensures DecodeScalar(l, ScalarBytes(l, v) + rest) == Some(Parsed(v, rest))
  {
    RoundTrip64(n, rest);
  }

  lemma SignedRoundTrip(size: nat, i: int, rest: seq<Byte>)
    requires FitsSigned(i, size)
    ensures DecodeScalar(TVarint(size), ScalarBytes(TVarint(size), Signed(i)) + rest) == Some(Parsed(Signed(i), rest))
    ensures DecodeScalar(TSVarint(size), ScalarBytes(TSVarint(size), Signed(i)) + rest) == Some(Parsed(Signed(i), rest))
  {
    CastsKeep(i, size);
    ZigZagInverts(i);
    hide SignedCast, Signed64, ZigZag, UnZigZag, Read64, Base128;
    VarintRoundTrip(TVarint(size), Signed(i), if i >= 0 then i else i + WORD64, rest);
    VarintRoundTrip(TSVarint(size), Signed(i), ZigZag(i), rest);
  }

  lemma UnsignedRoundTrip(size: nat, n: nat, rest: seq<Byte>)
    requires IntSize(size) && n < Values(size)
    ensures DecodeScalar(TUVarint(size), ScalarBytes(TUVarint(size), Unsigned(n)) + rest)
      == Some(Parsed(Unsigned(n), rest))
  {
    VarintRoundTrip(TUVarint(size), Unsigned(n), n, rest);
  }

  lemma FixedRoundTrip(word: nat, rest: seq<Byte>)
    ensures word < WORD32 ==>
      DecodeScalar(TFixed32, ScalarBytes(TFixed32, Raw(word)) + rest) == Some(Parsed(Raw(word), rest))
    ensures word < WORD64 ==>
      DecodeScalar(TFixed64, ScalarBytes(TFixed64, Raw(word)) + rest) == Some(Parsed(Raw(word), rest))
  {
    var four, eight := LittleEndian(word, 4), LittleEndian(word, 8);
    assert (four + rest)[..4] == four && (four + rest)[4..] == rest;
    assert (eight + rest)[..8] == eight && (eight + rest)[8..] == rest;
    assert Power256(4) == WORD32 && Power256(8) == WORD64;
    if word < WORD32 {
      LittleEndianInverts(word, 4);
    }
    if word < WORD64 {
      LittleEndianInverts(word, 8);
    }
  }

  lemma ScalarRoundTrip(l: LType, v: Value, rest: seq<Byte>)
    requires Packable(l) && Typed(l, v)
    ensures DecodeScalar(l, ScalarBytes(l, v) + rest) == Some(Parsed(v, rest))
  {
    hide DecodeScalar, ScalarBytes;
    match (l, v)
    case (TBool, Bool(x)) => BoolRoundTrip(x, rest);
    case (TVarint(size), Signed(i)) => SignedRoundTrip(size, i, rest);
    case (TSVarint(size), Signed(i)) => SignedRoundTrip(size, i, rest);
    case (TUVarint(size), Unsigned(n)) => UnsignedRoundTrip(size, n, rest);
    case (TFixed32, Raw(word)) => FixedRoundTrip(word, rest);
    case (TFixed64, Raw(word)) => FixedRoundTrip(word, rest);
    case _ =>
  }

  lemma {:induction false} PackedRoundTrip(l: LType, arraySize: nat, before: seq<Value>, values: seq<Value>)
    requires Packable(l) && |before| + |values| <= arraySize && forall i :: 0 <= i < |values| ==> Typed(l, values[i])
    ensures DecodePacked(l, arraySize, Concat(l, values), before) == Some(before + values)
    decreases |values|
  {
    hide ScalarBytes, DecodeScalar, Typed;
    if values == [] {
      assert before + values == before;
    } else {
      ScalarRoundTrip(l, values[0], Concat(l, values[1..]));
      PackedRoundTrip(l, arraySize, before + [values[0]], values[1..]);
      assert before + [values[0]] + values[1..] == before + values;
    }
  }

  lemma {:induction false} UpToNulAll(chars: seq<Byte>)
    requires forall i :: 0 <= i < |chars| ==> chars[i] != 0
    ensures UpToNul(chars) == chars
  {
    if chars != [] {
      UpToNulAll(chars[1..]);
    }
  }

  lemma SubstreamRoundTrip(b: seq<Byte>, rest: seq<Byte>)
    requires |b| < WORD32
    ensures Substream(WithLength(b) + rest) == Some(Parsed(b, rest))
    ensures Read32(WithLength(b) + rest, 0, false) == Some(Parsed(|b|, b + rest))
  {
    RoundTrip32(|b|, b + rest);
    assert WithLength(b) + rest == Base128(|b|) + (b + rest);
    assert (b + rest)[..|b|] == b && (b + rest)[|b|..] == rest;
  }

  /** What a string, or a byte array, decodes to behind its length. */
  lemma PayloadRoundTrip(l: LType, v: Value, b: seq<Byte>, rest: seq<Byte>)
    requires (l.TBytes? || l.TString? || l.TFixedBytes?) && Typed(l, v) && Encodable(l, v)
    requires b == if v.Octets? then v.bytes else v.chars
    requires |b| < WORD32 - 1
    ensures DecodeString(l, |b|, b + rest) == Some(Parsed(v, rest))
  {
    assert (b + rest)[..|b|] == b && (b + rest)[|b|..] == rest;
    if l.TString? {
      UpToNulAll(b);
    } else if l.TFixedBytes? && b == [] {
      assert [] + rest == rest && seq(0, _ => 0) == v.bytes;
    }
  }

  lemma StringRoundTrip(l: LType, v: Value, b: seq<Byte>, rest: seq<Byte>, was: Value)
    requires (l.TBytes? || l.TString? || l.TFixedBytes?) && Typed(l, v) && Encodable(l, v)
    requires b == if v.Octets? then v.bytes else v.chars
    requires |b| < WORD32 - 1
    ensures DecodeBasic(l, 2, WithLength(b) + rest, was) == Some(Parsed(v, rest))
  {
    hide DecodeString, Typed, Encodable;
    SubstreamRoundTrip(b, rest);
    PayloadRoundTrip(l, v, b, rest);
  }

  /** An absent singular field and one that holds the default value are the same. */
  lemma DefaultIsPresent(l: LType, v: Value)
    requires Typed(l, v) && IsDefault(l, v)
    ensures Present(l, v) == Default(l)
    decreases v
  {
    match (l, v)
    case (TMessage(desc), Message(slots)) =>
      forall i | 0 <= i < |slots|
        ensures PresentSlot(desc.fields[i], slots[i]) == DefaultSlot(desc.fields[i])
      {
        assert SlotIsDefault(desc.fields[i], slots[i]) && SlotTyped(desc.fields[i], slots[i]);
        match slots[i]
        case One(w) => DefaultIsPresent(desc.fields[i].ltype, w);
        case _ =>
      }
    case _ =>
  }

  /** A string, or a byte array, of length zero leaves what a fresh message holds. */
  lemma EmptyIsDefault(l: LType, rest: seq<Byte>, was: Value)
    requires l.TBytes? || (l.TString? && l.dataSize > 0) || l.TFixedBytes?
    ensures DecodeBasic(l, 2, WithLength([]) + rest, was) == Some(Parsed(Default(l), rest))
  {
    SubstreamRoundTrip([], rest);
    assert [] + rest == rest && rest[..0] == [] && rest[0..] == rest;
  }

  lemma EmptyFields(d: Desc, v: Value, i: nat)
    requires v.Message? && |v.slots| == |d.fields| && i <= |d.fields|
    ensures MessageBytes(d, v, i) == []
      <==> forall j :: i <= j < |d.fields| ==> FieldBytes(d.fields[j], v.slots[j]) == []
    decreases |d.fields| - i
  {
    hide FieldBytes;
    if i < |d.fields| {
      EmptyFields(d, v, i + 1);
    }
  }

  /** A value is the default if and only if it is the one a fresh message holds, or, for a
      submessage, if encoding it writes nothing. */
  lemma {:induction false} DefaultIs(l: LType, v: Value)
    requires Typed(l, v)
    ensures IsDefault(l, v) <==> if l.TMessage? then MessageBytes(l.desc, v, 0) == []
                                 else v == Default(l) && (l.TFixedBytes? ==> l.length == 0)
    decreases v
  {
    if l.TMessage? {
      EmptyFields(l.desc, v, 0);
      forall i | 0 <= i < |v.slots|
        ensures SlotIsDefault(l.desc.fields[i], v.slots[i]) <==> FieldBytes(l.desc.fields[i], v.slots[i]) == []
      {
        var f, s := l.desc.fields[i], v.slots[i];
        assert SlotTyped(f, s);
        if s.Many? {
          ElementsLeaveBytes(f, s);
        }
      }
    }
  }

  /** A message whose fields before the i-th one have been decoded. */
  function Mixed(fields: seq<Field>, slots: seq<Slot>, i: nat): (r: seq<Slot>)
    requires |slots| == |fields|
  {
    seq(|slots|, j requires 0 <= j < |slots| =>
        if j < i then PresentSlot(fields[j], slots[j]) else DefaultSlot(fields[j]))
  }

  predicate TagsAscend(fields: seq<Field>) {
    forall i, j :: 0 <= i < j < |fields| ==> fields[i].tag < fields[j].tag
  }

  lemma FindsField(fields: seq<Field>, i: nat)
    requires TagsAscend(fields) && i < |fields|
    ensures FindTag(fields, fields[i].tag) == i
  {
    var k := FindTag(fields, fields[i].tag);
    assert k <= i && fields[k].tag == fields[i].tag;
  }

  /** Storing field `i` leaves the rest alone: no other field of its union is set. */
  lemma StoredIs(fields: seq<Field>, slots: seq<Slot>, i: nat, now: Slot)
    requires |slots| == |fields| && i < |fields| && OneChosen(fields, slots)
    requires forall j :: 0 <= j < |slots| ==> SlotTyped(fields[j], slots[j])
    requires slots[i].Arm? ==> slots[i].chosen
    ensures Stored(fields, Mixed(fields, slots, i), i, now) == Mixed(fields, slots, i)[i := now]
  {
    var m := Mixed(fields, slots, i);
    forall j | 0 <= j < |slots| && j != i && fields[i].htype.Oneof? && fields[j].htype == fields[i].htype
      ensures m[j] == Arm(false, Default(fields[j].ltype))
    {
      assert SlotTyped(fields[j], slots[j]) && SlotTyped(fields[i], slots[i]);
      assert !slots[j].chosen;
    }
  }

  /** One key and value in front of other bytes. */
  lemma OneField(d: Desc, i: nat, wireType: nat, body: seq<Byte>, rest: seq<Byte>, slots: seq<Slot>, seen: set<nat>,
                 now: Slot)
    requires WellFormed(d) && i < |d.fields| == |slots| && wireType < 8
    requires DecodeStatic(d.fields[i], wireType, body + rest, slots[i]) == Some(Parsed(now, rest))
    ensures DecodeFields(d, Key(d.fields[i].tag, wireType) + body + rest, slots, seen)
         == DecodeFields(d, rest, Stored(d.fields, slots, i, now), seen + {i})
  {
    var f := d.fields[i];
    assert FieldWellFormed(f);
    var key := f.tag * 8 + wireType;
    RoundTrip32(key, body + rest);
    assert Key(f.tag, wireType) + body + rest == Base128(key) + (body + rest);
    FindsField(d.fields, i);
    assert key / 8 == f.tag && key % 8 == wireType;
  }

  /** A value behind its key, at any depth of nesting. */
  lemma {:induction false} BasicRoundTrip(f: Field, v: Value, rest: seq<Byte>)
    requires FieldWellFormed(f) && Typed(f.ltype, v) && Encodable(f.ltype, v) && |BasicBytes(f.ltype, v)| < WORD32 - 1
    ensures DecodeBasic(f.ltype, WireType(f.ltype), BasicBytes(f.ltype, v) + rest, Default(f.ltype))
         == Some(Parsed(Present(f.ltype, v), rest))
    decreases v, 3
  {
    var l := f.ltype;
    if Packable(l) {
      ScalarRoundTrip(l, v, rest);
    } else if l.TMessage? {
      var b := MessageBytes(l.desc, v, 0);
      SubstreamRoundTrip(b, rest);
      FieldsRoundTrip(l.desc, v, 0, {});
      assert Mixed(l.desc.fields, v.slots, 0) == Default(l).slots;
    } else {
      StringRoundTrip(l, v, if v.Octets? then v.bytes else v.chars, rest, Default(l));
    }
  }

  predicate SeenBefore(fields: seq<Field>, i: nat, seen: set<nat>) {
    forall j :: 0 <= j < i && j < |fields| && fields[j].htype == Required ==> j in seen
  }

  /** The fields of a message from the i-th one on. */
  lemma {:induction false} FieldsRoundTrip(d: Desc, v: Value, i: nat, seen: set<nat>)
    requires WellFormed(d) && Typed(TMessage(d), v) && Encodable(TMessage(d), v) && i <= |d.fields|
    requires |MessageBytes(d, v, i)| < WORD32 - 1 && SeenBefore(d.fields, i, seen)
    ensures DecodeFields(d, MessageBytes(d, v, i), Mixed(d.fields, v.slots, i), seen)
      == Some(Present(TMessage(d), v).slots)
    decreases v, 2, |d.fields| - i
  {
    if i == |d.fields| {
      assert Mixed(d.fields, v.slots, i) == Present(TMessage(d), v).slots;
    } else {
      var f, s, rest := d.fields[i], v.slots[i], MessageBytes(d, v, i + 1);
      assert FieldWellFormed(f) && SlotTyped(f, s) && SlotEncodable(f, s);
      var more := FieldRoundTrip(d, v, i, rest, seen);
      FieldsRoundTrip(d, v, i + 1, more);
    }
  }

  /** A packed array behind its key. */
  lemma PackedFieldRoundTrip(d: Desc, v: Value, i: nat, rest: seq<Byte>, seen: set<nat>)
    requires WellFormed(d) && Typed(TMessage(d), v) && i < |d.fields| && SlotEncodable(d.fields[i], v.slots[i])
    requires v.slots[i].Many? && Packable(d.fields[i].ltype) && v.slots[i].values != []
    requires |FieldBytes(d.fields[i], v.slots[i])| < WORD32 - 1
    ensures DecodeFields(d, FieldBytes(d.fields[i], v.slots[i]) + rest, Mixed(d.fields, v.slots, i), seen)
         == DecodeFields(d, rest, Mixed(d.fields, v.slots, i + 1), seen + {i})
  {
    hide DecodeFields, DecodePacked, Stored;
    var f, s := d.fields[i], v.slots[i];
    assert FieldWellFormed(f) && SlotTyped(f, s);
    var payload := Concat(f.ltype, s.values);
    SubstreamRoundTrip(payload, rest);
    PackedRoundTrip(f.ltype, f.htype.arraySize, [], s.values);
    assert [] + s.values == s.values;
    OneField(d, i, 2, WithLength(payload), rest, Mixed(d.fields, v.slots, i), seen, Many(s.values));
    MixedNext(d, v, i, Many(s.values));
  }

  /** One value behind its key. */
  lemma PlainFieldRoundTrip(d: Desc, v: Value, i: nat, rest: seq<Byte>, seen: set<nat>)
    requires WellFormed(d) && Typed(TMessage(d), v) && i < |d.fields| && !v.slots[i].Many?
    requires FieldBytes(d.fields[i], v.slots[i]) != []
    requires var f, w := d.fields[i], v.slots[i].value;
      DecodeBasic(f.ltype, WireType(f.ltype), BasicBytes(f.ltype, w) + rest, Default(f.ltype))
        == Some(Parsed(Present(f.ltype, w), rest))
    ensures DecodeFields(d, FieldBytes(d.fields[i], v.slots[i]) + rest, Mixed(d.fields, v.slots, i), seen)
         == DecodeFields(d, rest, Mixed(d.fields, v.slots, i + 1), seen + {i})
  {
    hide DecodeFields, DecodeBasic, BasicBytes, Stored;
    var f, s := d.fields[i], v.slots[i];
    assert FieldWellFormed(f) && SlotTyped(f, s);
    var now := PresentSlot(f, s);
    OneField(d, i, WireType(f.ltype), BasicBytes(f.ltype, s.value), rest, Mixed(d.fields, v.slots, i), seen, now);
    MixedNext(d, v, i, now);
  }

  /** The bytes of one field take the decoder from one field to the next. */
  lemma {:induction false} FieldRoundTrip(d: Desc, v: Value, i: nat, rest: seq<Byte>, seen: set<nat>)
    returns (more: set<nat>)
    requires WellFormed(d) && Typed(TMessage(d), v) && i < |d.fields| && SlotEncodable(d.fields[i], v.slots[i])
    requires |FieldBytes(d.fields[i], v.slots[i])| < WORD32 - 1 && SeenBefore(d.fields, i, seen)
    ensures SeenBefore(d.fields, i + 1, more)
    ensures DecodeFields(d, FieldBytes(d.fields[i], v.slots[i]) + rest, Mixed(d.fields, v.slots, i), seen)
         == DecodeFields(d, rest, Mixed(d.fields, v.slots, i + 1), more)
    decreases v, 1
  {
    var f, s := d.fields[i], v.slots[i];
    assert FieldWellFormed(f) && SlotTyped(f, s);
    if FieldBytes(f, s) == [] {
      more := seen;
      AbsentRoundTrip(d, v, i);
      assert [] + rest == rest;
    } else if s.Many? && Packable(f.ltype) {
      more := seen + {i};
      PackedFieldRoundTrip(d, v, i, rest, seen);
    } else if s.Many? {
      more := seen + {i};
      EachRoundTrip(d, v, i, 0, rest, seen);
      var m := Mixed(d.fields, v.slots, i);
      assert m[i := Many([])] == m;
    } else {
      more := seen + {i};
      BasicRoundTrip(f, s.value, rest);
      PlainFieldRoundTrip(d, v, i, rest, seen);
    }
  }

  lemma ElementsLeaveBytes(f: Field, s: Slot)
    requires f.htype.Repeated? && s.Many?
    ensures s.values != [] ==> FieldBytes(f, s) != []
  {
    if s.values != [] && !Packable(f.ltype) {
      assert |Tagged(f, s.values[0])| > 0;
    }
  }

  lemma AbsentRoundTrip(d: Desc, v: Value, i: nat)
    requires Typed(TMessage(d), v) && i < |d.fields| && FieldBytes(d.fields[i], v.slots[i]) == []
    ensures Mixed(d.fields, v.slots, i) == Mixed(d.fields, v.slots, i + 1) && d.fields[i].htype != Required
  {
    var f, s := d.fields[i], v.slots[i];
    assert SlotTyped(f, s);
    match s
    case One(w) => DefaultIsPresent(f.ltype, w);
    case Many(values) =>
      ElementsLeaveBytes(f, s);
      assert PresentSlot(f, s).values == [];
    case _ =>
  }

  /** Storing the decoded slot of field `i` completes the first i + 1 fields. */
  lemma MixedNext(d: Desc, v: Value, i: nat, now: Slot)
    requires Typed(TMessage(d), v) && i < |d.fields| && (v.slots[i].Arm? ==> v.slots[i].chosen)
    requires now == PresentSlot(d.fields[i], v.slots[i])
      || (v.slots[i].Many? && Packable(d.fields[i].ltype) && now == v.slots[i])
    ensures Stored(d.fields, Mixed(d.fields, v.slots, i), i, now) == Mixed(d.fields, v.slots, i + 1)
  {
    var f, s := d.fields[i], v.slots[i];
    assert SlotTyped(f, s);
    StoredIs(d.fields, v.slots, i, now);
    if s.Many? && Packable(f.ltype) {
      assert forall k :: 0 <= k < |s.values| ==> Present(f.ltype, s.values[k]) == s.values[k];
      assert PresentSlot(f, s).values == s.values;
    }
  }

  /** One element of a repeated field, behind its own key. */
  lemma ElementRoundTrip(d: Desc, v: Value, i: nat, k: nat, more: seq<Byte>, seen: set<nat>)
    requires WellFormed(d) && Typed(TMessage(d), v) && i < |d.fields| && SlotEncodable(d.fields[i], v.slots[i])
    requires v.slots[i].Many? && !Packable(d.fields[i].ltype) && k < |v.slots[i].values|
    requires var f, w := d.fields[i], v.slots[i].values[k];
      DecodeBasic(f.ltype, WireType(f.ltype), BasicBytes(f.ltype, w) + more, Default(f.ltype))
        == Some(Parsed(Present(f.ltype, w), more))
    ensures var f, done := d.fields[i], PresentSlot(d.fields[i], v.slots[i]).values;
      DecodeFields(d, Tagged(f, v.slots[i].values[k]) + more, Mixed(d.fields, v.slots, i)[i := Many(done[..k])], seen)
      == DecodeFields(d, more, Mixed(d.fields, v.slots, i)[i := Many(done[..k + 1])], seen + {i})
  {
    hide DecodeFields, DecodeBasic, BasicBytes;
    var f, s, m := d.fields[i], v.slots[i], Mixed(d.fields, v.slots, i);
    assert FieldWellFormed(f) && SlotTyped(f, s);
    var done := PresentSlot(f, s).values;
    assert done[..k] + [Present(f.ltype, s.values[k])] == done[..k + 1];
    OneField(d, i, WireType(f.ltype), BasicBytes(f.ltype, s.values[k]), more, m[i := Many(done[..k])], seen,
             Many(done[..k + 1]));
    assert Stored(d.fields, m[i := Many(done[..k])], i, Many(done[..k + 1])) == m[i := Many(done[..k + 1])];
  }

  /** The elements of a repeated field from the k-th one on, each behind its own key. */
  lemma {:induction false} EachRoundTrip(d: Desc, v: Value, i: nat, k: nat, rest: seq<Byte>, seen: set<nat>)
    requires WellFormed(d) && Typed(TMessage(d), v) && i < |d.fields| && SlotEncodable(d.fields[i], v.slots[i])
    requires v.slots[i].Many? && !Packable(d.fields[i].ltype) && k <= |v.slots[i].values| && v.slots[i].values != []
    requires |EachTagged(d.fields[i], v.slots[i], k)| < WORD32 - 1
    ensures var f, values := d.fields[i], v.slots[i].values;
      DecodeFields(d, EachTagged(f, v.slots[i], k) + rest,
                   Mixed(d.fields, v.slots, i)[i := Many(PresentSlot(f, v.slots[i]).values[..k])], seen)
      == DecodeFields(d, rest, Mixed(d.fields, v.slots, i + 1), if k < |values| then seen + {i} else seen)
    decreases v, 0, |v.slots[i].values| - k
  {
    var f, s, m := d.fields[i], v.slots[i], Mixed(d.fields, v.slots, i);
    assert FieldWellFormed(f) && SlotTyped(f, s);
    var done := PresentSlot(f, s).values;
    if k == |s.values| {
      assert done[..k] == done;
      assert m[i := Many(done)] == Mixed(d.fields, v.slots, i + 1);
      assert [] + rest == rest;
    } else {
      var more := EachTagged(f, s, k + 1) + rest;
      assert EachTagged(f, s, k) + rest == Tagged(f, s.values[k]) + more;
      BasicRoundTrip(f, s.values[k], more);
      ElementRoundTrip(d, v, i, k, more, seen);
      EachRoundTrip(d, v, i, k + 1, rest, seen + {i});
      assert seen + {i} + {i} == seen + {i};
    }
  }

  /** pb_decode of pb_encode gives the message back, but for what it marks absent. */
  lemma RoundTrip(d: Desc, v: Value)
    requires WellFormed(d) && Typed(TMessage(d), v) && Encodable(TMessage(d), v) && |MessageBytes(d, v, 0)| < WORD32 - 1
    ensures Decode(d, MessageBytes(d, v, 0)) == Some(Present(TMessage(d), v))
  {
    FieldsRoundTrip(d, v, 0, {});
    assert Mixed(d.fields, v.slots, 0) == Default(TMessage(d)).slots;
  }
}
