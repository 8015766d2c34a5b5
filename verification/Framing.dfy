/** The link framing of pcs_client.py: COBS bodies between zero bytes, with a CRC trailer. */
module Framing {
  import opened Bytes
  import opened Crc
  import opened CrcDivision
  import opened Options

  const BLOCK := 254

  /** The encoding of the bytes that are left, behind a block that has been begun. */
  function Cobs(block: seq<Byte>, data: seq<Byte>): (out: seq<Byte>)
    requires |block| < BLOCK
    ensures |out| > 0
    decreases |data|
  {
    if data == [] then
      [|block| + 1] + block
    else if data[0] == 0 then
      [|block| + 1] + block + Cobs([], data[1..])
    else if |block| == BLOCK - 1 then
      [0xFF] + (block + [data[0]]) + Cobs([], data[1..])
    else
      Cobs(block + [data[0]], data[1..])
  }

  lemma CobsStep(block: seq<Byte>, data: seq<Byte>)
    requires |block| < BLOCK
    ensures data == [] ==> Cobs(block, data) == [|block| + 1] + block
    ensures data != [] && data[0] == 0 ==> Cobs(block, data) == [|block| + 1] + block + Cobs([], data[1..])
    ensures data != [] && data[0] != 0 && |block| == BLOCK - 1 ==>
      Cobs(block, data) == [0xFF] + (block + [data[0]]) + Cobs([], data[1..])
    ensures data != [] && data[0] != 0 && |block| < BLOCK - 1 ==>
      Cobs(block, data) == Cobs(block + [data[0]], data[1..])
  {
  }

  /** cobs_encode. */
  method CobsEncode(data: seq<Byte>) returns (out: seq<Byte>)
    ensures out == Cobs([], data)
  {
    hide Cobs;
    out := [];
    var block: seq<Byte> := [];
    for i := 0 to |data|
      invariant |block| < BLOCK && Cobs([], data) == out + Cobs(block, data[i..])
    {
      CobsStep(block, data[i..]);
      assert data[i..][1..] == data[i + 1..];
      if data[i] == 0 {
        out := out + [|block| + 1] + block;
        block := [];
      } else {
        block := block + [data[i]];
        if |block| == BLOCK {
          out := out + [0xFF] + block;
          block := [];
        }
      }
    }
    CobsStep(block, []);
    out := out + [|block| + 1] + block;
  }

  function CobsDecoded(seg: seq<Byte>): (r: Option<seq<Byte>>)
    decreases |seg|
  {
    if seg == [] then
      Some([])
    else if seg[0] == 0 || seg[0] > |seg| then
      None
    else
      Behind(seg[1..seg[0]] + (if seg[0] != 0xFF && seg[0] < |seg| then [0] else []), CobsDecoded(seg[seg[0]..]))
  }

  function Behind(out: seq<Byte>, r: Option<seq<Byte>>): (all: Option<seq<Byte>>) {
    match r
    case None => None
    case Some(rest) => Some(out + rest)
  }

  lemma BehindAppend(out: seq<Byte>, more: seq<Byte>, r: Option<seq<Byte>>)
    ensures Behind(out, Behind(more, r)) == Behind(out + more, r)
    ensures Behind([], r) == r
  {
    match r
    case None =>
    case Some(rest) => assert out + (more + rest) == out + more + rest && [] + rest == rest;
  }

  /** cobs_decode. */
  method CobsDecode(seg: seq<Byte>) returns (r: Option<seq<Byte>>)
    ensures r == CobsDecoded(seg)
  {
    var out: seq<Byte>, i := [], 0;
    BehindAppend([], [], CobsDecoded(seg));
    assert seg[0..] == seg;
    while i < |seg|
      invariant 0 <= i <= |seg| && CobsDecoded(seg) == Behind(out, CobsDecoded(seg[i..]))
    {
      var code := seg[i];
      if code == 0 || i + code > |seg| {
        return None;
      }
      assert seg[i..][1..code] == seg[i + 1..i + code] && seg[i..][code..] == seg[i + code..];
      ghost var before := out;
      out := out + seg[i + 1..i + code];
      i := i + code;
      if code != 0xFF && i < |seg| {
        out := out + [0];
        assert out == before + (seg[i - code + 1..i] + [0]);
        BehindAppend(before, seg[i - code + 1..i] + [0], CobsDecoded(seg[i..]));
      } else {
        assert seg[i - code + 1..i] + [] == seg[i - code + 1..i];
        BehindAppend(before, seg[i - code + 1..i], CobsDecoded(seg[i..]));
      }
    }
    assert seg[i..] == [] && out + [] == out;
    r := Some(out);
  }

  /** Decoding gives the block and the data back. */
  lemma {:induction false} CobsInverts(block: seq<Byte>, data: seq<Byte>)
    requires |block| < BLOCK
    ensures CobsDecoded(Cobs(block, data)) == Some(block + data)
    decreases |data|
  {
    if data == [] {
      OneBlock(|block| + 1, block, []);
      assert [|block| + 1] + block + [] == [|block| + 1] + block;
      assert block + [] + [] == block + data;
    } else if data[0] == 0 {
      CobsInverts([], data[1..]);
      OneBlock(|block| + 1, block, Cobs([], data[1..]));
      assert block + [0] + ([] + data[1..]) == block + data;
    } else if |block| == BLOCK - 1 {
      CobsInverts([], data[1..]);
      OneBlock(0xFF, block + [data[0]], Cobs([], data[1..]));
      assert block + [data[0]] + [] + ([] + data[1..]) == block + data;
    } else {
      CobsInverts(block + [data[0]], data[1..]);
      assert block + [data[0]] + data[1..] == block + data;
    }
  }

  lemma OneBlock(code: Byte, block: seq<Byte>, rest: seq<Byte>)
    requires code == |block| + 1
    ensures CobsDecoded([code] + block + rest)
      == Behind(block + (if code != 0xFF && rest != [] then [0] else []), CobsDecoded(rest))
  {
    var seg := [code] + block + rest;
    assert seg[1..code] == block && seg[code..] == rest;
  }

  predicate NoZero(b: seq<Byte>) {
    forall i :: 0 <= i < |b| ==> b[i] != 0
  }

  /** An encoded body holds no delimiter, and is hardly longer than the data. */
  lemma {:induction false} CobsBody(block: seq<Byte>, data: seq<Byte>)
    requires |block| < BLOCK && NoZero(block)
    ensures NoZero(Cobs(block, data))
    ensures |Cobs(block, data)| <= |block| + |data| + 1 + (|block| + |data|) / BLOCK
    decreases |data|
  {
    if data == [] {
    } else if data[0] == 0 {
      CobsBody([], data[1..]);
    } else if |block| == BLOCK - 1 {
      CobsBody([], data[1..]);
    } else {
      CobsBody(block + [data[0]], data[1..]);
    }
  }

  function Plain(payload: seq<Byte>): (plain: seq<Byte>) {
    payload + Pack(Crc32(payload))
  }

  function Body(payload: seq<Byte>): (body: seq<Byte>) {
    Cobs([], Plain(payload))
  }

  /** frame. */
  function Frame(payload: seq<Byte>): (f: seq<Byte>) {
    [0] + Body(payload) + [0]
  }

  /** deframe, behind the COBS decoding. */
  function Checked(plain: seq<Byte>): (r: Option<seq<Byte>>) {
    if |plain| < 4 then None
    else
      var payload, trailer := plain[..|plain| - 4], plain[|plain| - 4..];
      if Crc32(payload) != Unpack(trailer) then None else Some(payload)
  }

  /** deframe. */
  function Deframe(segment: seq<Byte>): (r: Option<seq<Byte>>) {
    match CobsDecoded(segment)
    case None => None
    case Some(plain) => Checked(plain)
  }

  lemma DeframeInverts(payload: seq<Byte>)
    ensures Deframe(Body(payload)) == Some(payload) && NoZero(Body(payload)) && Body(payload) != []
    ensures var n := |payload| + 4; |Body(payload)| <= n + 1 + n / BLOCK
  {
    var plain := Plain(payload);
    CobsInverts([], plain);
    CobsBody([], plain);
    assert [] + plain == plain;
    assert plain[..|plain| - 4] == payload && plain[|plain| - 4..] == Pack(Crc32(payload));
    UnpackInverts(Crc32(payload));
  }

  /** A segment is accepted for a payload if and only if it decodes to the payload and its CRC. */
  lemma DeframeAccepts(segment: seq<Byte>, payload: seq<Byte>)
    ensures Deframe(segment) == Some(payload) <==> CobsDecoded(segment) == Some(Plain(payload))
  {
    hide Crc32, Pack, Unpack, CobsDecoded;
    UnpackInverts(Crc32(payload));
    var plain := Plain(payload);
    assert plain[..|plain| - 4] == payload && plain[|plain| - 4..] == Pack(Crc32(payload));
    if Deframe(segment) == Some(payload) {
      var got := CobsDecoded(segment).value;
      PackInverts(got[|got| - 4..]);
      assert got == got[..|got| - 4] + got[|got| - 4..];
    }
  }

  /** A segment whose payload was altered within four consecutive bytes, and that kept its
      trailer, is rejected. */
  lemma AlteredIsRejected(before: seq<Byte>, a: seq<Byte>, b: seq<Byte>, after: seq<Byte>, segment: seq<Byte>)
    requires |a| == |b| <= 4 && a != b
    requires CobsDecoded(segment) == Some(before + b + after + Pack(Crc32(before + a + after)))
    ensures Deframe(segment) == None
  {
    var plain := before + b + after + Pack(Crc32(before + a + after));
    assert plain[..|plain| - 4] == before + b + after && plain[|plain| - 4..] == Pack(Crc32(before + a + after));
    UnpackInverts(Crc32(before + a + after));
    BurstChangesCrc(before, a, b, after);
  }

  /** The segments that are complete, when `begun` stands in front of the bytes. */
  function Segments(begun: seq<Byte>, b: seq<Byte>): (s: seq<seq<Byte>>)
    decreases |b|
  {
    if b == [] then []
    else if b[0] == 0 then (if begun == [] then [] else [begun]) + Segments([], b[1..])
    else Segments(begun + [b[0]], b[1..])
  }

  function Partial(begun: seq<Byte>, b: seq<Byte>): (tail: seq<Byte>)
    decreases |b|
  {
    if b == [] then begun else if b[0] == 0 then Partial([], b[1..]) else Partial(begun + [b[0]], b[1..])
  }

  /** split_frames. */
  function SplitFrames(buffer: seq<Byte>): (r: (seq<seq<Byte>>, seq<Byte>)) {
    (Segments([], buffer), Partial([], buffer))
  }

  lemma {:induction false} SplitAppend(begun: seq<Byte>, a: seq<Byte>, b: seq<Byte>)
    ensures Segments(begun, a + b) == Segments(begun, a) + Segments(Partial(begun, a), b)
    ensures Partial(begun, a + b) == Partial(Partial(begun, a), b)
    decreases |a|
  {
    if a == [] {
      assert a + b == b;
    } else {
      assert (a + b)[1..] == a[1..] + b;
      if a[0] == 0 {
        SplitAppend([], a[1..], b);
      } else {
        SplitAppend(begun + [a[0]], a[1..], b);
      }
    }
  }

  lemma {:induction false} NoDelimiter(begun: seq<Byte>, b: seq<Byte>)
    requires NoZero(b)
    ensures Segments(begun, b) == [] && Partial(begun, b) == begun + b
    decreases |b|
  {
    if b == [] {
      assert begun + b == begun;
    } else {
      NoDelimiter(begun + [b[0]], b[1..]);
      assert begun + [b[0]] + b[1..] == begun + b;
    }
  }

  lemma {:induction false} PartialHasNoZero(begun: seq<Byte>, b: seq<Byte>)
    requires NoZero(begun)
    ensures NoZero(Partial(begun, b))
    decreases |b|
  {
    if b != [] {
      PartialHasNoZero(if b[0] == 0 then [] else begun + [b[0]], b[1..]);
    }
  }

  /** Splitting the kept tail with the next read in front of it is splitting on. */
  lemma SplitResumes(tail: seq<Byte>, b: seq<Byte>)
    requires NoZero(tail)
    ensures Segments([], tail + b) == Segments(tail, b) && Partial([], tail + b) == Partial(tail, b)
  {
    SplitAppend([], tail, b);
    NoDelimiter([], tail);
    assert [] + tail == tail;
  }

  /** The payloads of the segments that pass, in order. */
  function Payloads(segments: seq<seq<Byte>>): (p: seq<seq<Byte>>) {
    if segments == [] then []
    else (match Deframe(segments[0]) case None => [] case Some(payload) => [payload]) + Payloads(segments[1..])
  }

  lemma {:induction false} PayloadsAppend(a: seq<seq<Byte>>, b: seq<seq<Byte>>)
    ensures Payloads(a + b) == Payloads(a) + Payloads(b)
  {
    hide Deframe;
    if a == [] {
      assert a + b == b;
    } else {
      assert (a + b)[1..] == a[1..] + b;
      PayloadsAppend(a[1..], b);
    }
  }

  function Stream(chunks: seq<seq<Byte>>): (b: seq<Byte>) {
    if chunks == [] then [] else chunks[0] + Stream(chunks[1..])
  }

  function Frames(payloads: seq<seq<Byte>>): (b: seq<Byte>) {
    if payloads == [] then [] else Frame(payloads[0]) + Frames(payloads[1..])
  }

  /** The receive loop, over whatever the reads return. What it hands on depends only on the
      bytes, not on how they were cut into chunks. */
  method Receive(chunks: seq<seq<Byte>>) returns (payloads: seq<seq<Byte>>, buffer: seq<Byte>)
    ensures payloads == Payloads(Segments([], Stream(chunks))) && buffer == Partial([], Stream(chunks))
  {
    hide Deframe;
    buffer, payloads := [], [];
    ghost var got: seq<Byte> := [];
    for i := 0 to |chunks|
      invariant Stream(chunks) == got + Stream(chunks[i..]) && NoZero(buffer)
      invariant payloads == Payloads(Segments([], got)) && buffer == Partial([], got)
    {
      assert chunks[i..][1..] == chunks[i + 1..];
      SplitResumes(buffer, chunks[i]);
      SplitAppend([], got, chunks[i]);
      buffer := buffer + chunks[i];
      var (segments, tail) := SplitFrames(buffer);
      PartialHasNoZero([], buffer);
      buffer := tail;
      PayloadsAppend(Segments([], got), segments);
      payloads := DeframeAll(payloads, segments);
      got := got + chunks[i];
    }
    assert got + [] == got;
  }

  /** The loop over the segments of one read. */
  method DeframeAll(before: seq<seq<Byte>>, segments: seq<seq<Byte>>) returns (payloads: seq<seq<Byte>>)
    ensures payloads == before + Payloads(segments)
  {
    hide Deframe;
    payloads := before;
    for i := 0 to |segments|
      invariant before + Payloads(segments) == payloads + Payloads(segments[i..])
    {
      assert segments[i..][1..] == segments[i + 1..];
      var payload := Deframe(segments[i]);
      if payload.Some? {
        payloads := payloads + [payload.value];
      }
    }
  }

  lemma OneFrame(payload: seq<Byte>, begun: seq<Byte>, rest: seq<Byte>)
    ensures Segments(begun, Frame(payload) + rest)
      == (if begun == [] then [] else [begun]) + [Body(payload)] + Segments([], rest)
    ensures Partial(begun, Frame(payload) + rest) == Partial([], rest)
  {
    hide Body, Deframe;
    var body := Body(payload);
    DeframeInverts(payload);
    var s := Frame(payload) + rest;
    assert s[1..] == body + ([0] + rest);
    SplitAppend([], body, [0] + rest);
    NoDelimiter([], body);
    assert [] + body == body;
    assert ([0] + rest)[1..] == rest;
  }

  lemma DelimiterEnds(begun: seq<Byte>)
    ensures Segments(begun, [0]) == if begun == [] then [] else [begun]
  {
    assert [0][1..] == [];
  }

  /** The frames of any payloads, in any stream that begins with other bytes: the loop yields
      what it made of those, and then exactly the payloads in their order. */
  lemma {:induction false} FramesAreReceived(before: seq<Byte>, payloads: seq<seq<Byte>>)
    requires payloads != []
    ensures Payloads(Segments([], before + Frames(payloads))) == Payloads(Segments([], before + [0])) + payloads
    ensures Partial([], before + Frames(payloads)) == []
  {
    hide Body, Deframe, Frame, Segments, Partial, Payloads;
    var first, rest := Segments([], before + [0]), Segments([], Frames(payloads[1..]));
    SegmentsBehind(before, payloads);
    FramesFromStart(payloads[1..]);
    PayloadsAppend(first + [Body(payloads[0])], rest);
    PayloadsAppend(first, [Body(payloads[0])]);
    PayloadOfBody(payloads[0]);
    assert payloads == [payloads[0]] + payloads[1..];
  }

  lemma SegmentsBehind(before: seq<Byte>, payloads: seq<seq<Byte>>)
    requires payloads != []
    ensures Segments([], before + Frames(payloads)) ==
            Segments([], before + [0]) + [Body(payloads[0])] + Segments([], Frames(payloads[1..]))
    ensures Partial([], before + Frames(payloads)) == Partial([], Frames(payloads[1..]))
  {
    hide Body, Frame, Segments, Partial;
    var begun := Partial([], before);
    SplitAppend([], before, Frames(payloads));
    SplitAppend([], before, [0]);
    OneFrame(payloads[0], begun, Frames(payloads[1..]));
    DelimiterEnds(begun);
  }

  lemma PayloadOfBody(payload: seq<Byte>)
    ensures Payloads([Body(payload)]) == [payload]
  {
    hide Body, Deframe;
    DeframeInverts(payload);
    assert [Body(payload)][1..] == [];
  }

  lemma {:induction false} FramesFromStart(payloads: seq<seq<Byte>>)
    ensures Payloads(Segments([], Frames(payloads))) == payloads && Partial([], Frames(payloads)) == []
  {
    hide Body, Deframe, Frame;
    if payloads != [] {
      FramesFromStart(payloads[1..]);
      OneFrame(payloads[0], [], Frames(payloads[1..]));
      DeframeInverts(payloads[0]);
      PayloadsAppend([Body(payloads[0])], Segments([], Frames(payloads[1..])));
      assert [] + [Body(payloads[0])] + Segments([], Frames(payloads[1..]))
        == [Body(payloads[0])] + Segments([], Frames(payloads[1..]));
    }
  }
}
