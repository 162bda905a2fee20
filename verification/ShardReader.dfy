/** The shard side of the wire: reading frames off a connection, the frame header and the error response. */
module ShardReader {
  import opened Bytes
  import opened RouterCodec

  datatype Header = Header(clrId: u32, statusLen: byte, fieldCnt: u16)
  datatype ReadError = ShortFrame | MissingMagic(got: byte) | ShortPayload

  /** One frame off the front of a stream, or the error that stops the reader, with the bytes left over. */
  datatype Split =
    | Good(header: Header, frame: seq<byte>, rest: seq<byte>)
    | Bad(error: ReadError, rest: seq<byte>)

  /** The header of a whole frame, when its payload holds the status and the field count. */
  function HeaderIn(frame: seq<byte>): Option<Header>
    requires |frame| >= 9
  {
    if |frame| == 9 || |frame| < 12 + frame[9] as int then None
    else
      var status: nat := frame[9];
      Some(Header(FromLE32(frame[1..5]), frame[9], FromLE16(frame[10 + status..12 + status])))
  }

  function SplitOne(s: seq<byte>): (r: Split)
    ensures r.Good? ==> |r.frame| >= 12 + r.header.statusLen && r.frame[9] == r.header.statusLen
    ensures r.Good? ==> r.frame + r.rest == s
  {
    if |s| < 9 then Bad(ShortFrame, s)
    else if s[0] != SHARD_MAGIC then Bad(MissingMagic(s[0]), s)
    else
      var n: nat := FromLE32(s[5..9]);
      if |s| < 9 + n then Bad(ShortFrame, s)
      else
        var frame, rest := s[..9 + n], s[9 + n..];
        match HeaderIn(frame)
        case None => Bad(ShortPayload, rest)
        case Some(h) => Good(h, frame, rest)
  }

  /** All frames of a stream, up to the first error. */
  function SplitAll(s: seq<byte>): seq<(Header, seq<byte>)>
    decreases |s|
  {
    match SplitOne(s)
    case Good(h, f, rest) => [(h, f)] + SplitAll(rest)
    case Bad(_, _) => []
  }

  lemma SplitAllUnfolds(s: seq<byte>)
    ensures match SplitOne(s)
            case Good(h, f, rest) => |rest| < |s| && SplitAll(s) == [(h, f)] + SplitAll(rest)
            case Bad(_, _) => SplitAll(s) == []
  {}

  lemma AppendOne<T>(a: seq<T>, x: T, b: seq<T>)
    ensures a + ([x] + b) == a + [x] + b
  {}

  /** One frame more, or the end. */
  lemma SplitAllNext(done: seq<(Header, seq<byte>)>, s: seq<byte>)
    ensures match SplitOne(s)
            case Good(h, f, rest) => |rest| < |s| && done + SplitAll(s) == done + [(h, f)] + SplitAll(rest)
            case Bad(_, _) => done + SplitAll(s) == done
  {
    SplitAllUnfolds(s);
    match SplitOne(s)
    case Good(h, f, rest) => AppendOne(done, (h, f), SplitAll(rest));
    case Bad(_, _) => assert done + [] == done;
  }

  function Concat(chunks: seq<seq<byte>>): seq<byte> {
    if chunks == [] then [] else chunks[0] + Concat(chunks[1..])
  }

  datatype ReadResult = Got(header: Header, frame: seq<byte>) | Failed(error: ReadError)

  /** A reader with its buffer; `chunks` are the pieces in which the rest of the stream will arrive. */
  class FrameReader {
    var buf: seq<byte>
    var chunks: seq<seq<byte>>

    constructor (chunks: seq<seq<byte>>)
      requires [] !in chunks
      ensures Valid() && Stream() == Concat(chunks)
    {
      this.buf, this.chunks := [], chunks;
    }

    /** A read of no bytes means the end of the stream, so no piece is empty. */
    ghost predicate Valid()
      reads this
    {
      [] !in chunks
    }

    ghost function Stream(): seq<byte>
      reads this
    {
      buf + Concat(chunks)
    }

    method ReadBuf() returns (n: nat)
      requires Valid()
      modifies this
      ensures Valid() && Stream() == old(Stream())
      ensures n == 0 <==> old(chunks) == []
      ensures |buf| == |old(buf)| + n && old(buf) <= buf
      ensures |chunks| == if n == 0 then 0 else |old(chunks)| - 1
    {
      if chunks == [] { return 0; }
      n := |chunks[0]|;
      assert buf + Concat(chunks) == (buf + chunks[0]) + Concat(chunks[1..]);
      buf, chunks := buf + chunks[0], chunks[1..];
    }

    /** Buffers at least `want` bytes of the stream, or all of it when it is shorter. */
    method FillTo(want: nat) returns (ok: bool)
      requires Valid()
      modifies this
      ensures Valid() && Stream() == old(Stream()) && old(buf) <= buf
      ensures ok <==> want <= |Stream()|
      ensures ok ==> want <= |buf|
    {
      while |buf| < want
        invariant Valid() && Stream() == old(Stream()) && old(buf) <= buf
        decreases |chunks|, |buf| < want
      {
        var n := ReadBuf();
        if n == 0 { return false; }
      }
      ok := true;
    }

    /** Whatever the pieces, the result is the split of the whole stream, and no byte is lost. */
    method DrainFrame() returns (r: ReadResult)
      requires Valid()
      modifies this
      ensures Valid()
      ensures match SplitOne(old(Stream()))
              case Good(h, f, rest) => r == Got(h, f) && Stream() == rest
              case Bad(e, rest) => r == Failed(e) && Stream() == rest
    {
      ghost var s := Stream();
      var ok := FillTo(9);
      if !ok { return Failed(ShortFrame); }
      assert buf <= s && s[..9] == buf[..9];
      if buf[0] != SHARD_MAGIC { return Failed(MissingMagic(buf[0])); }
      assert s[5..9] == buf[5..9];
      var payloadLen: nat := FromLE32(buf[5..9]);
      ok := FillTo(9 + payloadLen);
      if !ok { return Failed(ShortFrame); }
      var fullFrame := buf[..9 + payloadLen];
      assert fullFrame == s[..9 + payloadLen];
      buf := buf[9 + payloadLen..];
      assert Stream() == s[9 + payloadLen..];
      r := DecodeHeader(fullFrame);
    }

    static method DecodeHeader(fullFrame: seq<byte>) returns (r: ReadResult)
      requires |fullFrame| >= 9
      ensures r == match HeaderIn(fullFrame)
                   case Some(h) => Got(h, fullFrame)
                   case None => Failed(ShortPayload)
    {
      var clrId := FromLE32(fullFrame[1..5]);
      var payload := fullFrame[9..];
      if payload == [] { return Failed(ShortPayload); }
      var statusLen: nat := payload[0];
      if |payload| < 1 + statusLen + 2 { return Failed(ShortPayload); }
      assert payload[1 + statusLen..3 + statusLen] == fullFrame[10 + statusLen..12 + statusLen];
      r := Got(Header(clrId, payload[0], FromLE16(payload[1 + statusLen..3 + statusLen])), fullFrame);
    }

    /** The reader loop up to its first error: the frames depend on the stream only, not on the pieces. */
    method ReadAll() returns (frames: seq<(Header, seq<byte>)>)
      requires Valid()
      modifies this
      ensures frames == SplitAll(old(Stream()))
    {
      frames := [];
      ghost var s := Stream();
      while true
        invariant Valid()
        invariant SplitAll(s) == frames + SplitAll(Stream())
        decreases |Stream()|
      {
        SplitAllNext(frames, Stream());
        var r := DrainFrame();
        match r
        case Failed(_) => return;
        case Got(h, f) => frames := frames + [(h, f)];
      }
    }
  }

  // ---- Round trips ----

  predicate WellFormedPayload(payload: seq<byte>) {
    payload != [] && |payload| >= 3 + payload[0] as int
  }

  function HeaderOf(clrid: u32, payload: seq<byte>): Header
    requires WellFormedPayload(payload)
  {
    var status: nat := payload[0];
    Header(clrid, payload[0], FromLE16(payload[1 + status..3 + status]))
  }

  /** The header encoder; the length field holds the low 32 bits of the length. */
  method PrependHeader(clrid: u32, payload: seq<byte>) returns (out: seq<byte>)
    ensures |out| == 9 + |payload| && out[9..] == payload
    ensures |payload| < U32_SPAN ==> out == ShardFrame(clrid, payload)
  {
    out := [SHARD_MAGIC];
    out := out + LE32(clrid);
    out := out + LE32(|payload| % U32_SPAN);
    out := out + payload;
    if |payload| < U32_SPAN { SmallMod(|payload|, U32_SPAN); }
  }

  lemma ShardFrameSlices(clrid: u32, payload: seq<byte>, tail: seq<byte>)
    requires |payload| < U32_SPAN
    ensures var s := ShardFrame(clrid, payload) + tail;
            && s[0] == SHARD_MAGIC && FromLE32(s[1..5]) == clrid && FromLE32(s[5..9]) == |payload|
            && s[9..9 + |payload|] == payload && s[..9 + |payload|] == ShardFrame(clrid, payload)
            && s[9 + |payload|..] == tail
  {
    var s := ShardFrame(clrid, payload) + tail;
    LE32RoundTrip(clrid);
    LE32RoundTrip(|payload|);
    assert s == [SHARD_MAGIC] + LE32(clrid) + (LE32(|payload|) + payload + tail);
    assert s[1..5] == LE32(clrid);
    assert s[5..] == LE32(|payload|) + (payload + tail);
    assert s[5..9] == LE32(|payload|);
  }

  /** The reader inverts the header encoder exactly on payloads that hold their status and field count. */
  lemma SplitInvertsHeaderIff(clrid: u32, payload: seq<byte>, tail: seq<byte>)
    requires |payload| < U32_SPAN
    ensures WellFormedPayload(payload) ==>
              SplitOne(ShardFrame(clrid, payload) + tail) ==
              Good(HeaderOf(clrid, payload), ShardFrame(clrid, payload), tail)
    ensures !WellFormedPayload(payload) ==>
              SplitOne(ShardFrame(clrid, payload) + tail) == Bad(ShortPayload, tail)
  {
    var s := ShardFrame(clrid, payload) + tail;
    ShardFrameSlices(clrid, payload, tail);
    var frame := ShardFrame(clrid, payload);
    assert frame[9..] == payload && frame[1..5] == s[1..5];
    if WellFormedPayload(payload) {
      var status: nat := payload[0];
      assert frame[10 + status..12 + status] == payload[1 + status..3 + status];
    }
  }

  lemma FrameFromParts(frame: seq<byte>)
    requires |frame| >= 9 && frame[0] == SHARD_MAGIC && FromLE32(frame[5..9]) == |frame| - 9
    ensures frame == ShardFrame(FromLE32(frame[1..5]), frame[9..])
  {
    FromLE32RoundTrip(frame[1..5]);
    FromLE32RoundTrip(frame[5..9]);
    assert frame == [frame[0]] + frame[1..5] + frame[5..9] + frame[9..];
  }

  lemma HeaderFromPayload(frame: seq<byte>)
    requires |frame| >= 9 && HeaderIn(frame).Some?
    ensures WellFormedPayload(frame[9..]) && HeaderIn(frame).value == HeaderOf(FromLE32(frame[1..5]), frame[9..])
  {
    var payload := frame[9..];
    var status: nat := payload[0];
    assert payload[1 + status..3 + status] == frame[10 + status..12 + status];
  }

  /** Whatever the reader accepts is an encoded frame of a well-formed payload, under the id and header it reports. */
  lemma SplitIsSound(s: seq<byte>) returns (payload: seq<byte>)
    requires SplitOne(s).Good?
    ensures var r := SplitOne(s);
            && s == r.frame + r.rest
            && |payload| < U32_SPAN && WellFormedPayload(payload)
            && r.frame == ShardFrame(r.header.clrId, payload) && r.header == HeaderOf(r.header.clrId, payload)
  {
    var frame := SplitOne(s).frame;
    payload := frame[9..];
    assert frame[0] == s[0] && frame[5..9] == s[5..9];
    FrameFromParts(frame);
    HeaderFromPayload(frame);
  }

  datatype Message = Message(clrid: u32, payload: seq<byte>)

  function Encoded(ms: seq<Message>): seq<byte>
    requires forall m :: m in ms ==> |m.payload| < U32_SPAN
  {
    if ms == [] then [] else ShardFrame(ms[0].clrid, ms[0].payload) + Encoded(ms[1..])
  }

  /** Back-to-back encoded messages come out one by one, in order and unchanged. */
  lemma {:induction false} SplitAllInvertsEncoding(ms: seq<Message>)
    requires forall m :: m in ms ==> |m.payload| < U32_SPAN && WellFormedPayload(m.payload)
    ensures |SplitAll(Encoded(ms))| == |ms|
    ensures forall i :: 0 <= i < |ms| ==>
              SplitAll(Encoded(ms))[i] ==
              (HeaderOf(ms[i].clrid, ms[i].payload), ShardFrame(ms[i].clrid, ms[i].payload))
  {
    if ms != [] {
      SplitInvertsHeaderIff(ms[0].clrid, ms[0].payload, Encoded(ms[1..]));
      SplitAllInvertsEncoding(ms[1..]);
    }
  }

  // ---- The error response ----

  /** "404", "503", "408", otherwise "500" */
  function ErrorText(code: byte): seq<byte> {
    match code
    case 1 => [0x34, 0x30, 0x34]
    case 2 => [0x35, 0x30, 0x33]
    case 3 => [0x34, 0x30, 0x38]
    case _ => [0x35, 0x30, 0x30]
  }

  /** "ERROR" */
  const ERROR_STATUS: seq<byte> := [0x45, 0x52, 0x52, 0x4F, 0x52]

  function ErrorPayload(code: byte): (payload: seq<byte>)
    ensures |payload| == 22
  {
    [5] + ERROR_STATUS + LE16(1) + LE16(1) + [1] + LE32(4) + LE32(3) + ErrorText(code)
  }

  function ErrorResponse(clrid: u32, code: byte): seq<byte> {
    ShardFrame(clrid, ErrorPayload(code))
  }

  method BuildErrorResponse(clrid: u32, code: byte) returns (buf: seq<byte>)
    ensures buf == ErrorResponse(clrid, code)
  {
    var msg := ErrorText(code);
    var payload: seq<byte> := [5];
    payload := payload + ERROR_STATUS;
    payload := payload + LE16(1);
    payload := payload + LE16(1);
    payload := payload + [1];
    payload := payload + LE32(4);
    payload := payload + LE32(|msg|);
    payload := payload + msg;
    buf := [SHARD_MAGIC];
    buf := buf + LE32(clrid);
    buf := buf + LE32(|payload|);
    buf := buf + payload;
  }

  /** The error response is itself a frame the reader takes, under the id it was built for. */
  lemma ErrorResponseIsReadable(clrid: u32, code: byte, tail: seq<byte>)
    ensures SplitOne(ErrorResponse(clrid, code) + tail) ==
            Good(Header(clrid, 5, 1), ErrorResponse(clrid, code), tail)
  {
    var payload := ErrorPayload(code);
    assert payload == [5] + ERROR_STATUS + LE16(1) + (LE16(1) + [1] + LE32(4) + LE32(3) + ErrorText(code));
    assert payload[6..8] == LE16(1);
    SplitInvertsHeaderIff(clrid, payload, tail);
  }

  /** One whole frame for the shard reader, with the id, the status text and the error text. */
  predicate IsErrorReply(reply: seq<byte>, clrid: u32, text: seq<byte>)
    requires |text| == 3
  {
    && SplitOne(reply) == Good(Header(clrid, 5, 1), reply, [])
    && |reply| >= 18 && reply[10..15] == Ascii("ERROR") && reply[|reply| - 3..] == text
  }

  /** What the code of an error is written as. */
  function CodeText(code: byte): (text: seq<byte>)
    ensures |text| == 3
  {
    Ascii(if code == 1 then "404" else if code == 2 then "503" else if code == 3 then "408" else "500")
  }

  lemma ErrorPayloadSays(code: byte)
    ensures ErrorPayload(code)[1..6] == Ascii("ERROR") && ErrorPayload(code)[19..] == CodeText(code)
  {
    var payload := ErrorPayload(code);
    assert payload[1..6] == ERROR_STATUS == Ascii("ERROR");
    assert payload[19..] == ErrorText(code) == CodeText(code);
  }

  lemma ErrorResponseSays(clrid: u32, code: byte)
    ensures IsErrorReply(ErrorResponse(clrid, code), clrid, CodeText(code))
  {
    var reply, payload := ErrorResponse(clrid, code), ErrorPayload(code);
    ErrorResponseIsReadable(clrid, code, []);
    assert reply + [] == reply;
    ErrorPayloadSays(code);
    assert reply[9..] == payload;
    assert reply[10..15] == payload[1..6] && reply[28..] == payload[19..];
  }

  // ---- The reader's special handling of error codes ----

  /** "308", "405", "503" */
  const CLOSING_CODES: set<seq<byte>> := {[0x33, 0x30, 0x38], [0x34, 0x30, 0x35], [0x35, 0x30, 0x33]}

  /** A header and the whole frame it came from, as the reader hands them on. */
  predicate Consistent(h: Header, frame: seq<byte>) {
    |frame| >= 12 + h.statusLen as int && frame[9] == h.statusLen
  }

  /** Whether the reader will close: it looks for the status at offset 1 of the whole frame. */
  predicate ShouldClose(h: Header, frame: seq<byte>)
    requires Consistent(h, frame)
  {
    var status: nat := h.statusLen;
    var dataStart := 1 + status + 2;
    && |frame| >= dataStart
    && frame[1..1 + status] == ERROR_STATUS
    && frame[dataStart..dataStart + 3] in CLOSING_CODES
  }

  /** Both slices are in range on every frame read, and the closing branch is never taken. */
  lemma ClosingCodesNeverFire(s: seq<byte>)
    requires SplitOne(s).Good?
    ensures Consistent(SplitOne(s).header, SplitOne(s).frame)
    ensures !ShouldClose(SplitOne(s).header, SplitOne(s).frame)
  {
    var h, frame := SplitOne(s).header, SplitOne(s).frame;
    // The code would have to start at offset 8, and offset 9 holds the status length.
    assert h.statusLen == 5 ==> frame[8..11][1] == 5;
  }
}
