/** The message buffers of stream_buffer.c, used by one writer and one reader without a lock.

    The writer and the reader are two threads. Every method of `MessageBuffer` is one of
    their steps: a look at the other side's index, one memcpy, or one index update. The
    steps of the two may alternate in any way. */
module StreamBuffer {
  import opened Arithmetic
  import opened Bytes

  const BYTES_TO_STORE_MESSAGE_LENGTH := 4

  const SIZE_LIMIT := 0x1_0000_0000

  type Message = m: seq<Byte> | 0 < |m| < SIZE_LIMIT witness [0]

  /** The length of a message as it is stored in front of it. */
  function Header(n: nat): (h: seq<Byte>)
    requires n < SIZE_LIMIT
    ensures |h| == BYTES_TO_STORE_MESSAGE_LENGTH
  {
    [n % 256, n / 0x100 % 256, n / 0x1_0000 % 256, n / 0x100_0000]
  }

  function LengthIn(h: seq<Byte>): (n: nat)
    requires |h| == BYTES_TO_STORE_MESSAGE_LENGTH
  {
    h[0] + 0x100 * (h[1] as int) + 0x1_0000 * (h[2] as int) + 0x100_0000 * (h[3] as int)
  }

  lemma LengthOfHeader(n: nat)
    requires n < SIZE_LIMIT
    ensures LengthIn(Header(n)) == n
  {
    Shifts(n);
    var a := n / 0x100; var b := a / 0x100; var c := b / 0x100;
    assert n == n % 0x100 + 0x100 * a && a == a % 0x100 + 0x100 * b && b == b % 0x100 + 0x100 * c;
  }

  function Frame(m: Message): (f: seq<Byte>) {
    Header(|m|) + m
  }

  function Frames(messages: seq<Message>): (f: seq<Byte>) {
    if messages == [] then [] else Frame(messages[0]) + Frames(messages[1..])
  }

  lemma {:induction false} FramesAppend(messages: seq<Message>, m: Message)
    ensures Frames(messages + [m]) == Frames(messages) + Frame(m)
  {
    if messages == [] {
      assert [m][1..] == [];
    } else {
      FramesAppend(messages[1..], m);
      assert (messages + [m])[1..] == messages[1..] + [m];
    }
  }

  /** From a place on, the ring holds these bytes. */
  ghost predicate Stored(ring: seq<Byte>, at: nat, data: seq<Byte>) {
    && at < |ring| && |data| <= |ring|
    && forall k :: 0 <= k < |data| ==> ring[Onward(at, k, |ring|)] == data[k]
  }

  lemma StoredTail(ring: seq<Byte>, at: nat, data: seq<Byte>, k: nat)
    requires Stored(ring, at, data) && k <= |data| < |ring|
    ensures Stored(ring, Onward(at, k, |ring|), data[k..])
  {
  }

  lemma StoredAppend(ring: seq<Byte>, at: nat, data: seq<Byte>, more: seq<Byte>)
    requires Stored(ring, at, data) && |data| + |more| < |ring| && Stored(ring, Onward(at, |data|, |ring|), more)
    ensures Stored(ring, at, data + more)
    ensures Onward(Onward(at, |data|, |ring|), |more|, |ring|) == Onward(at, |data + more|, |ring|)
  {
    forall k | 0 <= k < |data + more|
      ensures ring[Onward(at, k, |ring|)] == (data + more)[k]
    {
      if k >= |data| {
        assert Onward(Onward(at, |data|, |ring|), k - |data|, |ring|) == Onward(at, k, |ring|);
      }
    }
  }

  /** How many bytes fit between a place and the end of the ring. */
  function FirstLength(at: nat, count: nat, n: nat): (r: nat)
    requires at < n
    ensures r <= count && at + r <= n && (r < count ==> at + r == n)
  {
    if n - at < count then n - at else count
  }

  /** The first memcpy of prvWriteBytesToBuffer fills free places only. */
  lemma WroteFirst(ring: seq<Byte>, at: nat, data: seq<Byte>, tail: nat, unread: seq<Byte>)
    requires Stored(ring, tail, unread) && at == Onward(tail, |unread|, |ring|) && |unread| + |data| < |ring|
    ensures var first := FirstLength(at, |data|, |ring|);
      var now := Written(ring, at, data[..first]);
      Stored(now, tail, unread) && Stored(now, at, data[..first])
  {
    var first := FirstLength(at, |data|, |ring|);
    var now := Written(ring, at, data[..first]);
    assert forall i :: 0 <= i < |ring| ==> now[i] == if at <= i < at + first then data[i - at] else ring[i];
  }

  lemma WroteRest(ring: seq<Byte>, at: nat, data: seq<Byte>, tail: nat, unread: seq<Byte>)
    requires Stored(ring, tail, unread) && at == Onward(tail, |unread|, |ring|) && |unread| + |data| < |ring|
    requires var first := FirstLength(at, |data|, |ring|); Stored(ring, at, data[..first])
    ensures var first := FirstLength(at, |data|, |ring|);
      |data| - first <= |ring|
      && var now := Written(ring, 0, data[first..]); Stored(now, tail, unread) && Stored(now, at, data)
  {
    var first := FirstLength(at, |data|, |ring|);
    var now := Written(ring, 0, data[first..]);
    assert forall i :: 0 <= i < |ring| ==> now[i] == if i < |data| - first then data[first + i] else ring[i];
    forall k | 0 <= k < |data|
      ensures now[Onward(at, k, |ring|)] == data[k]
    {
      if k < first {
        assert data[..first][k] == data[k];
      }
    }
  }

  /** The bytes the two memcpys of prvReadBytesFromBuffer read. */
  lemma ReadRing(ring: seq<Byte>, at: nat, data: seq<Byte>, count: nat)
    requires Stored(ring, at, data) && count <= |data|
    ensures var first := FirstLength(at, count, |ring|);
      count - first <= |ring| && Read(ring, at, first) == data[..first]
        && Read(ring, 0, count - first) == data[first..count]
  {
    var first := FirstLength(at, count, |ring|);
    assert forall k :: 0 <= k < first ==> Read(ring, at, first)[k] == ring[Onward(at, k, |ring|)];
    assert forall k :: first <= k < count ==> Read(ring, 0, count - first)[k - first] == ring[Onward(at, k, |ring|)];
  }

  datatype WriterPc =
    | Ready
    | Copying(message: Message, body: bool)
    | CopyingRest(message: Message, body: bool)
    | Publishing(message: Message, body: bool)

  datatype ReaderPc =
    | Ready
    | Fetching(count: nat, available: nat, body: bool)
    | FetchingRest(count: nat, available: nat, body: bool, got: seq<Byte>)
    | Advancing(count: nat, available: nat, body: bool, got: seq<Byte>)

  function Data(m: Message, body: bool): (d: seq<Byte>) {
    if body then m else Header(|m|)
  }

  /** The message the writer has accepted and not yet published whole. */
  ghost function InProgress(writer: WriterPc): (m: seq<Message>) {
    if writer.Ready? then [] else [writer.message]
  }

  /** What the writer has published of a message that is not complete. */
  ghost function Unfinished(writer: WriterPc): (f: seq<Byte>) {
    if writer.Ready? || !writer.body then [] else Header(|writer.message|)
  }

  /** What the reader has taken of the message it is reading. */
  ghost function Taken(reader: ReaderPc, next: seq<Message>): (f: seq<Byte>) {
    if reader.Ready? || !reader.body || next == [] then [] else Header(|next[0]|)
  }

  /** The unread bytes are the frames of the messages not yet received, in order, but for
      the headers of the two messages that are being read and written. */
  ghost predicate StreamIs(reader: ReaderPc, writer: WriterPc, unread: seq<Byte>, next: seq<Message>) {
    Taken(reader, next) + unread == Frames(next) + Unfinished(writer)
  }

  ghost predicate WriterOk(writer: WriterPc, ring: seq<Byte>, head: nat, unread: seq<Byte>) {
    !writer.Ready? ==>
    var data := Data(writer.message, writer.body);
    && |unread| + |data| + (if writer.body then 0 else |writer.message|) < |ring| && head < |ring|
    && (writer.CopyingRest? ==> Stored(ring, head, data[..FirstLength(head, |data|, |ring|)]))
    && (writer.Publishing? ==> Stored(ring, head, data))
  }

  ghost predicate ReaderOk(reader: ReaderPc, n: nat, tail: nat, unread: seq<Byte>, next: seq<Message>) {
    !reader.Ready? ==>
    && next != [] && tail < n
    && reader.count == (if reader.body then |next[0]| else BYTES_TO_STORE_MESSAGE_LENGTH)
    && reader.count + (if reader.body then 0 else |next[0]|) <= reader.available <= |unread|
    && (reader.FetchingRest? ==> reader.got == unread[..FirstLength(tail, reader.count, n)])
    && (reader.Advancing? ==> reader.got == unread[..reader.count])
  }

  /** More bytes than a header means that a whole message is there: header and message are
      published in two steps, but a header that stands alone is the last thing unread. */
  lemma WholeMessageThere(writer: WriterPc, unread: seq<Byte>, next: seq<Message>)
    requires StreamIs(ReaderPc.Ready, writer, unread, next) && |unread| > BYTES_TO_STORE_MESSAGE_LENGTH
    ensures next != [] && Frame(next[0]) <= unread
  {
    if next != [] {
      assert Frames(next) == Frame(next[0]) + Frames(next[1..]);
      assert [] + unread == unread;
      assert unread == Frame(next[0]) + (Frames(next[1..]) + Unfinished(writer));
    }
  }

  lemma PublishedHeader(reader: ReaderPc, unread: seq<Byte>, next: seq<Message>, m: Message)
    requires StreamIs(reader, Publishing(m, false), unread, next)
    ensures StreamIs(reader, Copying(m, true), unread + Header(|m|), next)
  {
    assert Taken(reader, next) + (unread + Header(|m|)) == (Taken(reader, next) + unread) + Header(|m|);
    assert Frames(next) + [] == Frames(next);
  }

  lemma PublishedBody(reader: ReaderPc, unread: seq<Byte>, next: seq<Message>, m: Message)
    requires StreamIs(reader, Publishing(m, true), unread, next) && (!reader.Ready? ==> next != [])
    ensures StreamIs(reader, WriterPc.Ready, unread + m, next + [m])
  {
    FramesAppend(next, m);
    assert Taken(reader, next + [m]) == Taken(reader, next);
    assert Taken(reader, next) + (unread + m) == (Taken(reader, next) + unread) + m;
    assert (Frames(next) + Header(|m|)) + m == Frames(next) + Frame(m) + [];
  }

  lemma TookHeader(writer: WriterPc, unread: seq<Byte>, next: seq<Message>, got: seq<Byte>, available: nat)
    requires StreamIs(Advancing(4, available, false, got), writer, unread, next) && next != []
    requires available >= 4 && |unread| >= 4 + |next[0]| && got == unread[..4]
    ensures got == Header(|next[0]|) && LengthIn(got) == |next[0]|
    ensures StreamIs(Fetching(|next[0]|, available - 4, true), writer, unread[4..], next)
  {
    assert Frames(next) == Frame(next[0]) + Frames(next[1..]);
    assert unread[..4] == Header(|next[0]|) by {
      assert unread == Frames(next) + Unfinished(writer);
    }
    LengthOfHeader(|next[0]|);
    assert Header(|next[0]|) + unread[4..] == unread;
  }

  lemma FramesHead(messages: seq<Message>)
    requires messages != []
    ensures Frames(messages) == Frame(messages[0]) + Frames(messages[1..])
  {
  }

  lemma SamePrefix(h: seq<Byte>, a: seq<Byte>, b: seq<Byte>)
    requires h + a == h + b
    ensures a == b
  {
    assert a == (h + a)[|h|..] == (h + b)[|h|..] == b;
  }

  lemma TookBody(writer: WriterPc, unread: seq<Byte>, next: seq<Message>, got: seq<Byte>, available: nat)
    requires next != [] && StreamIs(Advancing(|next[0]|, available, true, got), writer, unread, next)
    requires |unread| >= |next[0]| && got == unread[..|next[0]|]
    ensures got == next[0] && StreamIs(ReaderPc.Ready, writer, unread[|next[0]|..], next[1..])
  {
    hide Frames, Header;
    var h, rest := Header(|next[0]|), Frames(next[1..]) + Unfinished(writer);
    FramesHead(next);
    assert h + unread == h + (next[0] + rest);
    SamePrefix(h, unread, next[0] + rest);
  }

  lemma HeaderStays(reader: ReaderPc, writer: WriterPc, unread: seq<Byte>, next: seq<Message>)
    requires StreamIs(reader, writer, unread, next) && !reader.Ready? && !reader.body
    ensures StreamIs(ReaderPc.Ready, writer, unread, next)
  {
  }

  /** How far a reader is with a message: seven of its steps hand one on. */
  function ReaderStage(reader: ReaderPc): (n: nat)
    ensures n < 7 && (n == 0 <==> reader.Ready?)
  {
    match reader
    case Ready => 0
    case Fetching(_, _, body) => if body then 4 else 1
    case FetchingRest(_, _, body, _) => if body then 5 else 2
    case Advancing(_, _, body, _) => if body then 6 else 3
  }

  /** How far a writer is with a message: seven of its steps send one. */
  function WriterStage(writer: WriterPc): (n: nat)
    ensures n < 7 && (n == 0 <==> writer.Ready?)
  {
    match writer
    case Ready => 0
    case Copying(_, body) => if body then 4 else 1
    case CopyingRest(_, body) => if body then 5 else 2
    case Publishing(_, body) => if body then 6 else 3
  }

  class MessageBuffer {
    const length: nat
    const buffer: array<Byte>
    var head: nat                  // changed by the writer only
    var tail: nat                  // changed by the reader only
    var writer: WriterPc
    var reader: ReaderPc
    ghost var unread: seq<Byte>
    ghost var sent: seq<Message>
    ghost var received: seq<Message>

    ghost predicate RingOk()
      reads `head, `tail, `unread, buffer
    {
      && buffer.Length == length && 0 < length <= SIZE_LIMIT && tail < length && |unread| < length
      && head == Onward(tail, |unread|, length) && Stored(buffer[..], tail, unread)
    }

    ghost function Next(): (m: seq<Message>)
      requires |received| <= |sent|
      reads `sent, `received
    {
      sent[|received|..]
    }

    /** The messages sent, and the one that is being sent. */
    ghost function Offered(): (m: seq<Message>)
      reads `sent, `writer
    {
      sent + InProgress(writer)
    }

    /** The messages received are the first ones of those sent, in order; and no reader sees
        less than a whole message. */
    ghost predicate Valid()
      reads this, buffer
    {
      && RingOk() && received <= sent
      && WriterOk(writer, buffer[..], head, unread)
      && ReaderOk(reader, length, tail, unread, Next())
      && StreamIs(reader, writer, unread, Next())
    }

    /** How far the reader is, counted in its steps. */
    ghost function Stage(): (n: nat)
      reads `reader, `received
    {
      7 * |received| + ReaderStage(reader)
    }

    /** The buffer is one byte longer than it may fill. */
    constructor (bufferSize: nat)
      requires bufferSize + 1 < SIZE_LIMIT
      ensures Valid() && fresh(buffer) && length == bufferSize + 1 && sent == received == []
    {
      length := bufferSize + 1;
      var memory := new Byte[bufferSize + 1];
      buffer := memory;
      head, tail := 0, 0;
      writer, reader := WriterPc.Ready, ReaderPc.Ready;
      unread, sent, received := [], [], [];
    }

    function SpacesAvailable(): (space: nat)
      requires RingOk()
      reads `head, `tail, `unread, buffer
      ensures space + |unread| == length - 1
    {
      var space := length + tail - head - 1;
      if space >= length then space - length else space
    }

    function BytesInBuffer(): (count: nat)
      requires RingOk()
      reads `head, `tail, `unread, buffer
      ensures count == |unread|
    {
      var count := length + head - tail;
      if count >= length then count - length else count
    }

    lemma SpaceAndBytes()
      requires Valid()
      ensures SpacesAvailable() + BytesInBuffer() == length - 1
    {
    }

    /** xStreamBufferSend looks at the space; there must be room for header and message. */
    method BeginSend(message: Message) returns (ok: bool)
      requires Valid() && writer.Ready?
      modifies this`writer
      ensures Valid() && ok == (SpacesAvailable() >= |message| + BYTES_TO_STORE_MESSAGE_LENGTH)
      ensures writer == if ok then Copying(message, false) else old(writer)
    {
      var requiredSpace := |message| + BYTES_TO_STORE_MESSAGE_LENGTH;
      ok := SpacesAvailable() >= requiredSpace;
      if ok {
        writer := Copying(message, false);
      }
    }

    method CopyFirst()
      requires Valid() && writer.Copying?
      modifies this`writer, buffer
      ensures Valid() && writer == CopyingRest(old(writer).message, old(writer).body)
    {
      var data := Data(writer.message, writer.body);
      var first := FirstLength(head, |data|, length);
      WroteFirst(buffer[..], head, data, tail, unread);
      CopyIn(buffer, head, data[..first]);
      writer := CopyingRest(writer.message, writer.body);
    }

    method CopyRest()
      requires Valid() && writer.CopyingRest?
      modifies this`writer, buffer
      ensures Valid() && writer == Publishing(old(writer).message, old(writer).body)
    {
      var data := Data(writer.message, writer.body);
      var first := FirstLength(head, |data|, length);
      WroteRest(buffer[..], head, data, tail, unread);
      if |data| > first {
        CopyIn(buffer, 0, data[first..]);
      } else {
        assert Written(buffer[..], 0, data[first..]) == buffer[..];
      }
      writer := Publishing(writer.message, writer.body);
    }

    method MoveHead(data: seq<Byte>)
      requires RingOk() && |unread| + |data| < length && Stored(buffer[..], head, data)
      modifies this`head, this`unread
      ensures RingOk() && unread == old(unread) + data
    {
      StoredAppend(buffer[..], tail, unread, data);
      head := head + |data|;
      if head >= length {
        head := head - length;
      }
      unread := unread + data;
    }

    /** The update of xHead, after the header and again after the message. */
    method Publish()
      requires Valid() && writer.Publishing?
      modifies this`head, this`writer, this`unread, this`sent
      ensures Valid()
      ensures old(writer).body ==> writer == WriterPc.Ready && sent == old(sent) + [old(writer).message]
      ensures !old(writer).body ==> writer == Copying(old(writer).message, true) && sent == old(sent)
    {
      hide StreamIs, Stored;
      var data := Data(writer.message, writer.body);
      if writer.body {
        PublishedBody(reader, unread, Next(), writer.message);
        assert (sent + [writer.message])[|received|..] == Next() + [writer.message];
        MoveHead(data);
        sent := sent + [writer.message];
        writer := WriterPc.Ready;
      } else {
        PublishedHeader(reader, unread, Next(), writer.message);
        MoveHead(data);
        writer := Copying(writer.message, true);
      }
    }

    /** xStreamBufferReceive looks at the number of bytes; a message is there only when
        there are more than its header takes. */
    method BeginReceive() returns (ok: bool)
      requires Valid() && reader.Ready?
      modifies this`reader
      ensures Valid() && ok == (BytesInBuffer() > BYTES_TO_STORE_MESSAGE_LENGTH)
      ensures reader == if ok then Fetching(BYTES_TO_STORE_MESSAGE_LENGTH, BytesInBuffer(), false) else old(reader)
    {
      var bytesAvailable := BytesInBuffer();
      ok := bytesAvailable > BYTES_TO_STORE_MESSAGE_LENGTH;
      if ok {
        WholeMessageThere(writer, unread, Next());
        reader := Fetching(BYTES_TO_STORE_MESSAGE_LENGTH, bytesAvailable, false);
      }
    }

    method FetchFirst()
      requires Valid() && reader.Fetching?
      modifies this`reader
      ensures Valid() && reader.FetchingRest? && reader.body == old(reader).body && reader.count == old(reader).count
    {
      ReadRing(buffer[..], tail, unread, reader.count);
      var got := CopyOut(buffer, tail, FirstLength(tail, reader.count, length));
      reader := FetchingRest(reader.count, reader.available, reader.body, got);
    }

    method FetchRest()
      requires Valid() && reader.FetchingRest?
      modifies this`reader
      ensures Valid() && reader.Advancing? && reader.body == old(reader).body && reader.count == old(reader).count
    {
      var first := FirstLength(tail, reader.count, length);
      ReadRing(buffer[..], tail, unread, reader.count);
      assert unread[..first] + unread[first..reader.count] == unread[..reader.count];
      var rest := [];
      if reader.count > first {
        rest := CopyOut(buffer, 0, reader.count - first);
      }
      reader := Advancing(reader.count, reader.available, reader.body, reader.got + rest);
    }

    method MoveTail()
      requires RingOk() && reader.Advancing? && reader.count <= |unread|
      modifies this`tail, this`unread
      ensures RingOk() && unread == old(unread)[reader.count..] && head == old(head)
    {
      StoredTail(buffer[..], tail, unread, reader.count);
      unread := unread[reader.count..];
      tail := tail + reader.count;
      if tail >= length {
        tail := tail - length;
      }
    }

    /** The update of xTail after the header. A message that is larger than the receive
        buffer stays: the tail is put back, with no step of the writer in between. */
    method TakeHeader(bufferLength: nat)
      requires Valid() && reader.Advancing? && !reader.body
      modifies this`tail, this`reader, this`unread
      ensures Valid() && (reader.Ready? || reader.Fetching?) && Next() == old(Next())
      ensures Next() != [] && (reader.Ready? <==> |Next()[0]| > bufferLength)
      ensures reader.Fetching? ==> reader.body
      ensures reader.Ready? ==> tail == old(tail)
    {
      hide StreamIs, Stored;
      var nextMessageLength := LengthIn(reader.got);
      var bytesAvailable := reader.available - BYTES_TO_STORE_MESSAGE_LENGTH;
      TookHeader(writer, unread, Next(), reader.got, reader.available);
      if nextMessageLength > bufferLength {
        HeaderStays(reader, writer, unread, Next());
        reader := ReaderPc.Ready;
      } else {
        MoveTail();
        reader := Fetching(if bytesAvailable < nextMessageLength then bytesAvailable else nextMessageLength,
                           bytesAvailable, true);
      }
    }

    /** The update of xTail after the message, which the reader hands to its caller. */
    method TakeMessage() returns (message: Message)
      requires Valid() && reader.Advancing? && reader.body
      modifies this`tail, this`reader, this`unread, this`received
      ensures Valid() && reader.Ready?
      ensures |old(received)| < |sent| && message == sent[|old(received)|] && received == old(received) + [message]
    {
      hide StreamIs, Stored;
      TookBody(writer, unread, Next(), reader.got, reader.available);
      message := reader.got;
      assert sent[|received| + 1..] == Next()[1..];
      MoveTail();
      received := received + [message];
      reader := ReaderPc.Ready;
    }

    /** A new message is accepted when the writer is between messages and there is room for
        it; it counts as sent once its body is published. */
    method WriterStep(message: Message) returns (accepted: bool)
      requires Valid()
      modifies this`head, this`writer, this`unread, this`sent, buffer
      ensures Valid()
      ensures accepted == (old(writer).Ready? && old(SpacesAvailable()) >= |message| + BYTES_TO_STORE_MESSAGE_LENGTH)
      ensures sent == if old(writer).Publishing? && old(writer).body then old(sent) + [old(writer).message]
        else old(sent)
      ensures Offered() == old(Offered()) + (if accepted then [message] else [])
      ensures old(writer).Ready? ==> writer == if accepted then Copying(message, false) else old(writer)
      ensures !old(writer).Ready? ==>
        7 * |sent| + WriterStage(writer) == 7 * |old(sent)| + WriterStage(old(writer)) + 1
        && (!writer.Ready? ==> writer.message == old(writer).message)
    {
      hide Valid;
      accepted := false;
      match writer
      case Ready => accepted := BeginSend(message);
      case Copying(_, _) => CopyFirst();
      case CopyingRest(_, _) => CopyRest();
      case Publishing(_, _) => Publish();
    }

    /** Every step of the reader takes it on, but for a look at a buffer without a message,
        and for a message that is too long for the receive buffer; the last one hands on the
        next message sent. */
    method ReaderStep(bufferLength: nat) returns (messages: seq<Message>)
      requires Valid()
      modifies this`tail, this`reader, this`unread, this`received
      ensures Valid() && received == old(received) + messages
      ensures old(reader).Advancing? && old(reader).body ==>
        |old(received)| < |sent| && messages == [sent[|old(received)|]]
      ensures !(old(reader).Advancing? && old(reader).body) ==> messages == []
      ensures !old(reader).Ready? ==> old(Next()) != []
      ensures
        if old(reader).Ready? && old(BytesInBuffer()) <= BYTES_TO_STORE_MESSAGE_LENGTH then
          reader == old(reader)
        else if old(reader).Advancing? && !old(reader).body && |old(Next())[0]| > bufferLength then
          reader.Ready? && tail == old(tail)
        else
          Stage() == old(Stage()) + 1
    {
      hide Valid, RingOk;
      BusyWithNext();
      messages := [];
      match reader
      case Ready => var ok := BeginReceive();
      case Fetching(_, _, _) => FetchFirst();
      case FetchingRest(_, _, _, _) => FetchRest();
      case Advancing(_, _, false, _) => TakeHeader(bufferLength);
      case Advancing(_, _, true, _) => var message := TakeMessage(); messages := [message];
    }

    lemma BusyWithNext()
      requires Valid()
      ensures RingOk() && |received| <= |sent| && (!reader.Ready? ==> Next() != [])
    {
    }

    /** A message that was sent can be seen. */
    lemma MessageThere()
      requires Valid() && reader.Ready? && |received| < |sent|
      ensures RingOk() && BytesInBuffer() > BYTES_TO_STORE_MESSAGE_LENGTH
    {
      var next := Next();
      assert Frames(next) == Frame(next[0]) + Frames(next[1..]);
      assert Taken(reader, next) + unread == unread;
    }

    lemma ReceivedInOrder()
      requires Valid()
      ensures received <= sent
    {
    }

    method TakeTurn(turn: Turn) returns (messages: seq<Message>, accepted: bool)
      requires Valid()
      modifies this, buffer
      ensures Valid() && received == old(received) + messages && old(sent) <= sent
      ensures Offered() == old(Offered()) + (if accepted && turn.Writer? then [turn.message] else [])
      ensures turn.Writer? ==> Stage() == old(Stage())
      ensures turn.Reader? && turn.bufferLength >= SIZE_LIMIT ==>
        Stage() >= old(Stage()) && (old(Stage()) < 7 * |old(sent)| ==> Stage() == old(Stage()) + 1)
    {
      hide Valid, RingOk;
      BusyWithNext();
      if reader.Ready? && |received| < |sent| {
        MessageThere();
      }
      messages, accepted := [], false;
      match turn
      case Writer(message) => accepted := WriterStep(message);
      case Reader(bufferLength) => messages := ReaderStep(bufferLength);
    }

    /** However the steps of writer and reader alternate, the messages accepted are sent in
        order, but for the one still being written, and what the reader has received is the
        beginning of what the writer has sent. With receive buffers of any length allowed,
        seven turns of the reader receive a message, until all that had been sent are. */
    method Run(schedule: seq<Turn>) returns (messages: seq<Message>, accepted: seq<bool>)
      requires Valid()
      modifies this, buffer
      ensures Valid() && received == old(received) + messages && received <= sent
      ensures |accepted| == |schedule| && old(sent) <= sent
      ensures Offered() == old(Offered()) + Accepted(schedule, accepted)
      ensures AllFit(schedule) ==>
        Stage() >= 7 * |old(sent)| || Stage() >= old(Stage()) + ReaderTurns(schedule)
    {
      hide Valid, RingOk, Offered, Stage, AllFit, ReaderTurns;
      messages, accepted := [], [];
      NoTurnYet();
      assert schedule[..0] == [];
      for i := 0 to |schedule|
        invariant Valid() && received == old(received) + messages
        invariant |accepted| == i && old(sent) <= sent
        invariant Offered() == old(Offered()) + Accepted(schedule[..i], accepted)
        invariant AllFit(schedule[..i]) ==>
          Stage() >= 7 * |old(sent)| || Stage() >= old(Stage()) + ReaderTurns(schedule[..i])
      {
        var more, ok := TakeTurn(schedule[i]);
        messages := messages + more;
        AcceptedGrows(schedule[..i], accepted, schedule[i], ok);
        assert schedule[..i + 1] == schedule[..i] + [schedule[i]];
        OneMoreTurn(schedule[..i], schedule[i]);
        accepted := accepted + [ok];
      }
      assert schedule[..|schedule|] == schedule;
      ReceivedInOrder();
    }
  }

  datatype Turn = Writer(message: Message) | Reader(bufferLength: nat)

  /** The reader always comes with a buffer that any message fits. */
  predicate AllFit(schedule: seq<Turn>) {
    forall k :: 0 <= k < |schedule| && schedule[k].Reader? ==> schedule[k].bufferLength >= SIZE_LIMIT
  }

  function ReaderTurns(schedule: seq<Turn>): (n: nat) {
    if schedule == [] then 0
    else ReaderTurns(schedule[..|schedule| - 1]) + (if schedule[|schedule| - 1].Reader? then 1 else 0)
  }

  lemma NoTurnYet()
    ensures ReaderTurns([]) == 0
  {
  }

  lemma OneMoreTurn(schedule: seq<Turn>, turn: Turn)
    ensures ReaderTurns(schedule + [turn]) == ReaderTurns(schedule) + (if turn.Reader? then 1 else 0)
    ensures AllFit(schedule + [turn])
        <==> AllFit(schedule) && (turn.Reader? ==> turn.bufferLength >= SIZE_LIMIT)
  {
    var longer := schedule + [turn];
    assert longer[..|schedule|] == schedule && longer[|schedule|] == turn;
    assert forall k :: 0 <= k < |schedule| ==> longer[k] == schedule[k];
  }

  /** The messages of the turns that were accepted, in order. */
  function Accepted(schedule: seq<Turn>, accepted: seq<bool>): (messages: seq<Message>)
    requires |accepted| == |schedule|
  {
    if schedule == [] then []
    else
      var n := |schedule| - 1;
      Accepted(schedule[..n], accepted[..n])
        + (if accepted[n] && schedule[n].Writer? then [schedule[n].message] else [])
  }

  lemma AcceptedGrows(schedule: seq<Turn>, accepted: seq<bool>, turn: Turn, ok: bool)
    requires |accepted| == |schedule|
    ensures Accepted(schedule + [turn], accepted + [ok]) ==
            Accepted(schedule, accepted) + (if ok && turn.Writer? then [turn.message] else [])
  {
    assert (schedule + [turn])[..|schedule|] == schedule && (accepted + [ok])[..|schedule|] == accepted;
  }
}
