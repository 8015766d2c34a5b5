/** What pb_decode makes of a byte string, as functions of the bytes still to be read. */
module ProtoDecode {
  import opened Bytes
  import opened Options
  import opened ProtoSchema
  import opened Varint

  const PB_WT_PACKED := 255

  const PB_MAX_REQUIRED_FIELDS := 64

  /** pb_read. */
  function Take(b: seq<Byte>, n: nat): (r: Option<Parsed<seq<Byte>>>)
    ensures r.Some? ==> |r.value.value| == n && |r.value.rest| + n == |b|
  {
    if |b| < n then None else Some(Parsed(b[..n], b[n..]))
  }

  /** pb_make_string_substream. */
  function Substream(b: seq<Byte>): (r: Option<Parsed<seq<Byte>>>)
    ensures r.Some? ==> |r.value.value| + |r.value.rest| < |b|
  {
    match Read32(b, 0, false)
    case None => None
    case Some(Parsed(size, rest)) => Take(rest, size)
  }

  function SkipVarint(b: seq<Byte>): (r: Option<seq<Byte>>)
    ensures r.Some? ==> |r.value| < |b|
  {
    if b == [] then None else if b[0] < 128 then Some(b[1..]) else SkipVarint(b[1..])
  }

  /** pb_skip_field. */
  function SkipField(b: seq<Byte>, wireType: nat): (r: Option<seq<Byte>>)
    ensures r.Some? ==> |r.value| <= |b|
  {
    if wireType == 0 then SkipVarint(b)
    else if wireType == 1 then if |b| < 8 then None else Some(b[8..])
    else if wireType == 2 then match Substream(b) { case None => None case Some(Parsed(_, rest)) => Some(rest) }
    else if wireType == 5 then if |b| < 4 then None else Some(b[4..])
    else None
  }

  function FromLittleEndian(b: seq<Byte>): (word: nat) {
    if b == [] then 0 else b[0] + 256 * FromLittleEndian(b[1..])
  }

  /** The conversion to a signed integer of that many bytes. */
  function SignedCast(n: int, size: nat): (i: int)
    ensures -(Values(size) / 2) <= i < Values(size) / 2
  {
    var word := n % Values(size);
    if word < Values(size) / 2 then word else word - Values(size)
  }

  /** The value pb_dec_varint stores: a cast that must not change it. */
  function Clamped(i: int, size: nat): (r: Option<Value>) {
    if IntSize(size) && SignedCast(i, size) == i then Some(Signed(i)) else None
  }

  function VarintValue(l: LType, n: nat): (r: Option<Value>)
    requires n < WORD64
  {
    match l
    case TUVarint(size) => if IntSize(size) && n % Values(size) == n then Some(Unsigned(n)) else None
    case TSVarint(size) => Clamped(UnZigZag(n), size)
    case TVarint(size) => Clamped(if size == 8 then Signed64(n) else SignedCast(n, 4), size)
    case _ => None
  }

  /** decode_basic_field for the types that may be packed. */
  function DecodeScalar(l: LType, b: seq<Byte>): (r: Option<Parsed<Value>>)
    ensures r.Some? ==> |r.value.rest| < |b|
  {
    match l
    case TBool => (match Read32(b, 0, false)
                   case None => None
                   case Some(Parsed(n, rest)) => Some(Parsed(Bool(n != 0), rest)))
    case TFixed32 => if |b| < 4 then None else Some(Parsed(Raw(FromLittleEndian(b[..4])), b[4..]))
    case TFixed64 => if |b| < 8 then None else Some(Parsed(Raw(FromLittleEndian(b[..8])), b[8..]))
    case _ =>
      match Read64(b, 0)
      case None => None
      case Some(Parsed(n, rest)) =>
        Read64Bounded(b);
        match VarintValue(l, n)
        case None => None
        case Some(v) => Some(Parsed(v, rest))
  }

  lemma Read64Bounded(b: seq<Byte>)
    ensures Read64(b, 0).Some? ==> Read64(b, 0).value.value < WORD64
  {
    if Read64(b, 0).Some? {
      LimitIs();
      Read64Bound(b, 0);
    }
  }

  /** A string buffer, read as a C string. */
  function UpToNul(b: seq<Byte>): (chars: seq<Byte>) {
    if b == [] || b[0] == 0 then [] else [b[0]] + UpToNul(b[1..])
  }

  /** pb_dec_bytes, pb_dec_string and pb_dec_fixed_length_bytes, behind the length. */
  function DecodeString(l: LType, size: nat, b: seq<Byte>): (r: Option<Parsed<Value>>)
    ensures r.Some? ==> |r.value.rest| <= |b|
  {
    match l
    case TBytes(capacity) =>
      if size > PB_SIZE_MAX || size > capacity || |b| < size then None else Some(Parsed(Octets(b[..size]), b[size..]))
    case TString(dataSize) =>
      if size + 1 >= WORD32 || size + 1 > dataSize || |b| < size then None
        else Some(Parsed(Text(UpToNul(b[..size])), b[size..]))
    case TFixedBytes(length) =>
      if size > PB_SIZE_MAX then None
      else if size == 0 then Some(Parsed(Octets(seq(length, _ => 0)), b))
      else if size != length || |b| < size then None
      else Some(Parsed(Octets(b[..size]), b[size..]))
    case _ => None
  }

  /** decode_basic_field; `was` is what the memory of the field holds, into which a message
      is merged. */
  function DecodeBasic(l: LType, wireType: nat, b: seq<Byte>, was: Value): (r: Option<Parsed<Value>>)
    ensures r.Some? ==> |r.value.rest| < |b|
    decreases |b|, 0
  {
    if Packable(l) then
      if wireType == WireType(l) || wireType == PB_WT_PACKED then DecodeScalar(l, b) else None
    else if wireType != 2 then
      None
    else if l.TMessage? then
      match Substream(b)
      case None => None
      case Some(Parsed(payload, rest)) =>
        if !was.Message? then None else
        match DecodeMessage(l.desc, payload, was.slots)
        case None => None
        case Some(slots) => Some(Parsed(Message(slots), rest))
    else
      match Read32(b, 0, false)
      case None => None
      case Some(Parsed(size, rest)) => DecodeString(l, size, rest)
  }

  /** The loop over a packed array. */
  function DecodePacked(l: LType, arraySize: nat, b: seq<Byte>, values: seq<Value>): (r: Option<seq<Value>>)
    decreases |b|
  {
    if b == [] then Some(values)
    else if |values| >= arraySize then None
    else
      match DecodeScalar(l, b)
      case None => None
      case Some(Parsed(v, rest)) => DecodePacked(l, arraySize, rest, values + [v])
  }

  /** decode_static_field. */
  function DecodeStatic(f: Field, wireType: nat, b: seq<Byte>, s: Slot): (r: Option<Parsed<Slot>>)
    ensures r.Some? ==> |r.value.rest| < |b|
    decreases |b|, 1
  {
    match (f.htype, s)
    case (Required, One(v)) =>
      (match DecodeBasic(f.ltype, wireType, b, v) case None => None
       case Some(Parsed(w, rest)) => Some(Parsed(One(w), rest)))
    case (Singular, One(v)) =>
      (match DecodeBasic(f.ltype, wireType, b, v) case None => None
       case Some(Parsed(w, rest)) => Some(Parsed(One(w), rest)))
    case (Optional, Opt(_, v)) =>
      (match DecodeBasic(f.ltype, wireType, b, v) case None => None
       case Some(Parsed(w, rest)) => Some(Parsed(Opt(true, w), rest)))
    case (Repeated(arraySize), Many(values)) =>
      if wireType == 2 && Packable(f.ltype) then
        match Substream(b)
        case None => None
        case Some(Parsed(payload, rest)) =>
          match DecodePacked(f.ltype, arraySize, payload, values)
          case None => None
          case Some(more) => Some(Parsed(Many(more), rest))
      else if |values| >= arraySize then
        None
      else (
        match DecodeBasic(f.ltype, wireType, b, Default(f.ltype))
        case None => None
        case Some(Parsed(w, rest)) => Some(Parsed(Many(values + [w]), rest)))
    case (Oneof(_), Arm(chosen, v)) =>
      (match DecodeBasic(f.ltype, wireType, b, if chosen then v else Default(f.ltype))
       case None => None
       case Some(Parsed(w, rest)) => Some(Parsed(Arm(true, w), rest)))
    case _ => None
  }

  /** The field with a tag: what pb_field_iter_find looks for. */
  function FindTag(fields: seq<Field>, tag: nat): (i: nat)
    ensures i <= |fields|
    ensures i < |fields| ==> fields[i].tag == tag
    ensures forall j :: 0 <= j < i ==> fields[j].tag != tag
  {
    if fields == [] || fields[0].tag == tag then 0 else 1 + FindTag(fields[1..], tag)
  }

  /** The slots after field `i` was stored: the other fields of its union are gone. */
  function Stored(fields: seq<Field>, slots: seq<Slot>, i: nat, s: Slot): (r: seq<Slot>)
    requires i < |fields| == |slots|
    ensures |r| == |slots|
  {
    seq(|slots|, j requires 0 <= j < |slots| =>
      if j == i then s
      else if fields[i].htype.Oneof? && fields[j].htype == fields[i].htype then Arm(false, Default(fields[j].ltype))
      else slots[j])
  }

  /** How many required fields come before field `i`. */
  function RequiredBefore(fields: seq<Field>, i: nat): (n: nat)
    requires i <= |fields|
  {
    if i == 0 then 0 else RequiredBefore(fields, i - 1) + (if fields[i - 1].htype == Required then 1 else 0)
  }

  /** The check at the end of pb_decode_inner; only the first 64 required fields are watched. */
  predicate AllSeen(fields: seq<Field>, seen: set<nat>) {
    forall i ::
      0 <= i < |fields| && fields[i].htype == Required && RequiredBefore(fields, i) < PB_MAX_REQUIRED_FIELDS ==>
        i in seen
  }

  /** The loop of pb_decode_inner. */
  function DecodeFields(d: Desc, b: seq<Byte>, slots: seq<Slot>, seen: set<nat>): (r: Option<seq<Slot>>)
    decreases |b|, 2
  {
    if |slots| != |d.fields| then None
    else if b == [] then
      if AllSeen(d.fields, seen) then Some(slots) else None
    else
      match Read32(b, 0, false)
      case None => None
      case Some(Parsed(key, rest)) =>
        var tag, wireType := key / 8, key % 8;
        var i := FindTag(d.fields, tag);
        if tag == 0 then
          None
        else if i == |d.fields| then
          match SkipField(rest, wireType) { case None => None case Some(more) => DecodeFields(d, more, slots, seen) }
        else
          match DecodeStatic(d.fields[i], wireType, rest, slots[i])
          case None => None
          case Some(Parsed(s, more)) => DecodeFields(d, more, Stored(d.fields, slots, i, s), seen + {i})
  }

  /** pb_decode_inner on a message that has been set to `slots`. */
  function DecodeMessage(d: Desc, b: seq<Byte>, slots: seq<Slot>): (r: Option<seq<Slot>>)
    decreases |b|, 3
  {
    DecodeFields(d, b, slots, {})
  }

  /** pb_decode. */
  function Decode(d: Desc, b: seq<Byte>): (r: Option<Value>) {
    match DecodeMessage(d, b, Default(TMessage(d)).slots)
    case None => None
    case Some(slots) => Some(Message(slots))
  }
}
