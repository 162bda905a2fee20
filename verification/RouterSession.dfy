/** One router connection: the read loop, the drain loop with its resynchronisation, and the replies. */
module RouterSession {
  import opened Bytes
  import opened RouterCodec
  import opened RouterStream
  import opened ShardReader
  import opened Execute

  /** What became of one request on its connection. */
  datatype Outcome =
    | Replied(bytes: seq<byte>)
    | WriteFailed(bytes: seq<byte>)
    | ErrorSent(bytes: seq<byte>)

  datatype Ending =
    | StillOpen | PeerClosed | BufferTooLarge | FrameTooLarge | FrameTimeout | WriteBroken | ExecuteFailed

  /** The frames that are handed to the cluster: all but the keepalives. */
  function Requests(frames: seq<Decoded>): seq<Decoded> {
    if frames == [] then []
    else
      var last := frames[|frames| - 1];
      Requests(frames[..|frames| - 1]) + if last.Frame? && last.segment != KEEPALIVE_SEGMENT then [last] else []
  }

  predicate IsRequest(f: Decoded) { f.Frame? && f.segment != Ascii("__keepalive__") }

  ghost function RequestPositions(frames: seq<Decoded>): seq<nat> {
    if frames == [] then []
    else RequestPositions(frames[..|frames| - 1]) + if IsRequest(frames[|frames| - 1]) then [|frames| - 1] else []
  }

  lemma {:induction false} PositionsAreListed(frames: seq<Decoded>)
    ensures var at := RequestPositions(frames);
            && (forall i :: 0 <= i < |at| ==> at[i] < |frames| && IsRequest(frames[at[i]]))
            && (forall i, j :: 0 <= i < j < |at| ==> at[i] < at[j])
            && (forall k :: 0 <= k < |frames| && IsRequest(frames[k]) ==> k in at)
  {
    if frames != [] {
      PositionsAreListed(frames[..|frames| - 1]);
    }
  }

  lemma {:induction false} RequestAt(frames: seq<Decoded>, i: nat)
    ensures |Requests(frames)| == |RequestPositions(frames)|
    ensures i < |Requests(frames)| ==>
              RequestPositions(frames)[i] < |frames| && Requests(frames)[i] == frames[RequestPositions(frames)[i]]
  {
    assert KEEPALIVE_SEGMENT == Ascii("__keepalive__");
    if frames != [] {
      RequestAt(frames[..|frames| - 1], i);
    }
  }

  /** The requests are all frames but the keepalives, in order; `at` says where they stand. */
  lemma RequestsAreAllButKeepalives(frames: seq<Decoded>) returns (at: seq<nat>)
    ensures |Requests(frames)| == |at| && forall i, j :: 0 <= i < j < |at| ==> at[i] < at[j]
    ensures forall i :: 0 <= i < |at| ==> at[i] < |frames| && Requests(frames)[i] == frames[at[i]] && IsRequest(frames[at[i]])
    ensures forall k :: 0 <= k < |frames| && IsRequest(frames[k]) ==> k in at
  {
    at := RequestPositions(frames);
    PositionsAreListed(frames);
    RequestAt(frames, 0);
    forall i | 0 <= i < |at| ensures Requests(frames)[i] == frames[at[i]] { RequestAt(frames, i); }
  }

  /** What becomes of a request whose attempts turn out as `script` says. */
  function OutcomeOf(request: Decoded, script: nat -> Attempt, writeOk: bool): Outcome
    requires request.Frame?
  {
    match ResultOf(request.isWrite, request.shardFrame, script)
    case Ok(reply) => if writeOk then Replied(reply) else WriteFailed(reply)
    case Err(_) => ErrorSent(ErrorResponse(request.clrid, 4))
  }

  /** Attempt `k` got the answer that is the outcome's reply, and the write decided what became of it. */
  ghost predicate AnsweredBy(out: Outcome, request: Decoded, script: nat -> Attempt, writeOk: bool, k: nat)
    requires request.Frame?
  {
    && Executable(request.shardFrame) && FirstAnswer(script, k)
    && !out.ErrorSent? && (out.Replied? <==> writeOk)
    && ReturnedUnder(out.bytes, script(k).response, request.shardFrame)
  }

  /**
   * A request with an answer among its three attempts gets the first of them under its own id; any other gets one error
   * frame under its id that says "500".
   */
  ghost predicate Answers(out: Outcome, request: Decoded, script: nat -> Attempt, writeOk: bool) {
    && request.Frame?
    && ((exists k :: AnsweredBy(out, request, script, writeOk, k)) ||
        ((Executable(request.shardFrame) ==> NoAnswer(script)) &&
         out.ErrorSent? && IsErrorReply(out.bytes, request.clrid, Ascii("500"))))
  }

  /** One outcome per request, in order; all but the last are replies that went out. */
  ghost predicate AllAnswered(outs: seq<Outcome>, requests: seq<Decoded>, script: nat -> nat -> Attempt, writeOk: nat -> bool) {
    && |outs| == |requests|
    && (forall i :: 0 <= i < |outs| ==> Answers(outs[i], requests[i], script(i), writeOk(i)))
    && (forall i :: 0 <= i < |outs| - 1 ==> outs[i].Replied?)
  }

  /** No frame is over the size limit. */
  predicate AllSmall(frames: seq<Decoded>, limit: nat) {
    forall f :: f in frames ==> f.Frame? && f.frameLen <= limit
  }

  predicate AllReplied(outs: seq<Outcome>) {
    forall i :: 0 <= i < |outs| ==> outs[i].Replied?
  }

  lemma RequestsAppend(frames: seq<Decoded>, f: Decoded)
    ensures Requests(frames + [f]) ==
            Requests(frames) + if f.Frame? && f.segment != KEEPALIVE_SEGMENT then [f] else []
  {
    assert (frames + [f])[..|frames|] == frames;
  }

  lemma OutcomeAnswers(request: Decoded, script: nat -> Attempt, writeOk: bool)
    requires request.Frame?
    ensures Answers(OutcomeOf(request, script, writeOk), request, script, writeOk)
  {
    var out := OutcomeOf(request, script, writeOk);
    ResultExplained(request.isWrite, request.shardFrame, script);
    ErrorResponseSays(request.clrid, 4);
    if !out.ErrorSent? {
      var k :| FirstAnswer(script, k) && ReturnedUnder(out.bytes, script(k).response, request.shardFrame);
      assert AnsweredBy(out, request, script, writeOk, k);
    }
  }

  /** A request's attempts and the write leave one kind of outcome, and one reply. */
  lemma AnsweredOnce(request: Decoded, script: nat -> Attempt, writeOk: bool, out: Outcome, out': Outcome)
    requires Answers(out, request, script, writeOk) && Answers(out', request, script, writeOk)
    ensures if out.ErrorSent? then out'.ErrorSent? else out == out'
  {
    if k, k' :| AnsweredBy(out, request, script, writeOk, k) && AnsweredBy(out', request, script, writeOk, k') {
      assert k == k';
      if |out.bytes| >= 9 {
        assert out.bytes == out.bytes[..1] + out.bytes[1..5] + out.bytes[5..];
        assert out'.bytes == out'.bytes[..1] + out'.bytes[1..5] + out'.bytes[5..];
      }
    }
  }

  lemma ErrorReplyId(reply: seq<byte>, clrid: u32, text: seq<byte>)
    requires |text| == 3 && IsErrorReply(reply, clrid, text)
    ensures reply[1..5] == LE32(clrid)
  {
    var payload := SplitIsSound(reply);
    ShardFrameId(clrid, payload);
  }

  /** A reply or error response that holds an id holds the id the router put on the request. */
  lemma OutcomeCarriesId(out: Outcome, request: Decoded, script: nat -> Attempt, writeOk: bool)
    requires Answers(out, request, script, writeOk)
    requires |request.shardFrame| >= 5 && request.clrid == IdOf(request.shardFrame)
    ensures |out.bytes| >= 9 ==> out.bytes[1..5] == LE32(request.clrid)
    ensures out.ErrorSent? ==> |out.bytes| >= 9
  {
    if out.ErrorSent? {
      ErrorReplyId(out.bytes, request.clrid, Ascii("500"));
    } else {
      FromLE32RoundTrip(request.shardFrame[1..5]);
    }
  }

  lemma DecodedClrid(buf: seq<byte>)
    requires TryDecodeRouter(buf).Frame?
    ensures var f := TryDecodeRouter(buf); |f.shardFrame| >= 5 && f.clrid == IdOf(f.shardFrame)
  {
    var flag := DecodeIsSound(buf);
  }

  lemma AnsweredAppend(outs: seq<Outcome>, requests: seq<Decoded>, out: Outcome,
                       script: nat -> nat -> Attempt, writeOk: nat -> bool)
    requires |requests| == |outs| + 1 && AllReplied(outs)
    requires AllAnswered(outs, requests[..|outs|], script, writeOk)
    requires Answers(out, requests[|outs|], script(|outs|), writeOk(|outs|))
    ensures AllAnswered(outs + [out], requests, script, writeOk)
  {}

  lemma FrameHasBytes(buf: seq<byte>)
    requires TryDecodeRouter(buf).Frame?
    ensures 0 < TryDecodeRouter(buf).frameLen <= |buf|
  {}

  predicate OverLimit(d: Decoded, limit: nat) { d.Frame? && d.frameLen > limit }

  lemma TailOfRest(s: seq<byte>, t: seq<byte>)
    requires s != [] && NoMagic(s[1..]) && |t| <= |s| - 1 && t == s[1..][|s| - 1 - |t|..]
    ensures t == s[|s| - |t|..] && NoMagic(s[1..|s| - |t|])
  {
    assert forall i :: 1 <= i < |s| ==> s[i] == s[1..][i - 1];
  }

  /** Taking a further frame: a keepalive asks for nothing, anything else is one more request. */
  lemma FrameTaken(outs: seq<Outcome>, frames: seq<Decoded>, d: Decoded, script: nat -> nat -> Attempt, writeOk: nat -> bool)
    requires AllAnswered(outs, Requests(frames), script, writeOk) && d.Frame?
    ensures var requests := Requests(frames + [d]);
            if d.segment == KEEPALIVE_SEGMENT then AllAnswered(outs, requests, script, writeOk)
            else |requests| == |outs| + 1 && requests[|outs|] == d &&
                 AllAnswered(outs, requests[..|outs|], script, writeOk)
  {
    RequestsAppend(frames, d);
    assert (Requests(frames) + [d])[..|outs|] == Requests(frames);
  }

  /** Executes a request and writes the reply or the error response. */
  method Answer(f: Decoded, script: nat -> Attempt, writeOk: bool) returns (out: Outcome)
    requires f.Frame?
    ensures out == OutcomeOf(f, script, writeOk)
    ensures Answers(out, f, script, writeOk)
  {
    OutcomeAnswers(f, script, writeOk);
    var frame := new byte[|f.shardFrame|](i requires 0 <= i < |f.shardFrame| => f.shardFrame[i]);
    assert frame[..] == f.shardFrame;
    var r, sent, used := Execute.Execute(f.isWrite, frame, script);
    match r
    case Ok(reply) =>
      out := if writeOk then Replied(reply) else WriteFailed(reply);
    case Err(_) =>
      var error := BuildErrorResponse(f.clrid, 4);
      out := ErrorSent(error);
  }

  class Session {
    const maxBuffer: nat
    const maxFrame: nat
    const script: nat -> nat -> Attempt   // how the attempts of each request turn out
    const writeOk: nat -> bool            // whether the write of each reply succeeds
    var buf: seq<byte>
    var outcomes: seq<Outcome>
    var open: bool
    var closesSent: nat          // messages sent to the server's connection counter
    ghost var received: seq<byte>
    ghost var pieces: seq<Piece>

    constructor (maxBuffer: nat, maxFrame: nat, script: nat -> nat -> Attempt, writeOk: nat -> bool)
      ensures Valid() && open && received == [] && outcomes == []
      ensures this.maxBuffer == maxBuffer && this.maxFrame == maxFrame
      ensures this.script == script && this.writeOk == writeOk
    {
      this.maxBuffer, this.maxFrame, this.script, this.writeOk := maxBuffer, maxFrame, script, writeOk;
      buf, outcomes, open, closesSent := [], [], true, 0;
      received, pieces := [], [];
    }

    /** What holds throughout: every byte is accounted for and every request so far has its outcome. */
    ghost predicate Consistent()
      reads this
    {
      && Accounts(received, pieces, buf)
      && AllAnswered(outcomes, Requests(Frames(pieces)), script, writeOk)
      && (open ==> AllReplied(outcomes))
      && closesSent == (if open then 0 else 1)
      && AllSmall(Frames(pieces), maxFrame)
    }

    /** What holds between reads: the buffer of an open connection is drained and within its limit. */
    ghost predicate Valid()
      reads this
    {
      Consistent() && (open ==> Drained(buf) && |buf| <= maxBuffer)
    }

    method Close()
      requires Consistent() && open
      modifies this
      ensures Valid() && !open
      ensures buf == old(buf) && outcomes == old(outcomes) && received == old(received) && pieces == old(pieces)
    {
      open, closesSent := false, closesSent + 1;
    }

    /** Moves the front piece of the buffer into the account. */
    ghost method Account(p: Piece)
      requires Accounts(received, pieces, buf) && Covers(p, buf)
      modifies this`pieces
      ensures Len(p) <= |buf| && Accounts(received, pieces, buf[Len(p)..])
      ensures Frames(pieces) == if p.Taken? then old(Frames(pieces)) + [p.frame] else old(Frames(pieces))
    {
      AccountAppend(received, pieces, buf, p);
      pieces := pieces + [p];
    }

    /** Serves one request; anything but a reply that went out ends the connection. */
    method ServeRequest(f: Decoded) returns (end: Ending)
      requires f.Frame? && |f.shardFrame| >= 5 && f.clrid == IdOf(f.shardFrame)
      requires open && AllReplied(outcomes) && closesSent == 0 && Accounts(received, pieces, buf)
      requires AllSmall(Frames(pieces), maxFrame)
      requires |Requests(Frames(pieces))| == |outcomes| + 1 && Requests(Frames(pieces))[|outcomes|] == f
      requires AllAnswered(outcomes, Requests(Frames(pieces))[..|outcomes|], script, writeOk)
      modifies this
      ensures Consistent() && buf == old(buf) && received == old(received) && pieces == old(pieces)
      ensures open == end.StillOpen?
      ensures end in {StillOpen, WriteBroken, ExecuteFailed} && (!open ==> !AllReplied(outcomes))
    {
      var n := |outcomes|;
      var out := Answer(f, script(n), writeOk(n));
      AnsweredAppend(outcomes, Requests(Frames(pieces)), out, script, writeOk);
      outcomes := outcomes + [out];
      if out.Replied? { return StillOpen; }
      assert !outcomes[n].Replied?;
      open, closesSent := false, closesSent + 1;
      end := if out.WriteFailed? then WriteBroken else ExecuteFailed;
    }

    /** Every request is answered but, unless it is a keepalive, the frame `d` just taken. */
    ghost predicate Awaits(d: Decoded)
      reads this
    {
      var requests := Requests(Frames(pieces));
      && d.Frame?
      && if d.segment == KEEPALIVE_SEGMENT then AllAnswered(outcomes, requests, script, writeOk)
         else |requests| == |outcomes| + 1 && requests[|outcomes|] == d &&
              AllAnswered(outcomes, requests[..|outcomes|], script, writeOk)
    }

    /** Takes the frame at the front of the buffer. */
    method SplitOff(d: Decoded)
      requires Accounts(received, pieces, buf) && d.Frame? && d == TryDecodeRouter(buf)
      requires AllAnswered(outcomes, Requests(Frames(pieces)), script, writeOk)
      requires AllSmall(Frames(pieces), maxFrame) && d.frameLen <= maxFrame
      modifies this`buf, this`pieces
      ensures d.frameLen <= |old(buf)| && buf == old(buf)[d.frameLen..]
      ensures Accounts(received, pieces, buf) && Frames(pieces) == old(Frames(pieces)) + [d]
      ensures |d.shardFrame| >= 5 && d.clrid == IdOf(d.shardFrame)
      ensures Awaits(d) && AllSmall(Frames(pieces), maxFrame)
    {
      FrameTaken(outcomes, Frames(pieces), d, script, writeOk);
      DecodedClrid(buf);
      Account(Taken(d));
      buf := buf[d.frameLen..];
    }

    /** A frame that was taken: a keepalive needs no more, anything else is a request. */
    method ServeFrame(d: Decoded) returns (end: Ending)
      requires d.Frame? && |d.shardFrame| >= 5 && d.clrid == IdOf(d.shardFrame)
      requires open && AllReplied(outcomes) && closesSent == 0 && Accounts(received, pieces, buf)
      requires AllSmall(Frames(pieces), maxFrame)
      requires Awaits(d)
      modifies this
      ensures Consistent() && received == old(received) && buf == old(buf) && pieces == old(pieces)
      ensures open == end.StillOpen?
      ensures end in {StillOpen, WriteBroken, ExecuteFailed} && (!open ==> !AllReplied(outcomes))
    {
      if d.segment == KEEPALIVE_SEGMENT { return StillOpen; }
      end := ServeRequest(d);
    }

    /** Skips a rejected first byte and goes on to the next magic byte, or keeps a short tail when there is none. */
    method Resync() returns (found: bool)
      requires Consistent() && open && TryDecodeRouter(buf).Error?
      modifies this`buf, this`pieces
      ensures Consistent() && |buf| < |old(buf)| && Frames(pieces) == old(Frames(pieces))
      ensures buf == old(buf)[|old(buf)| - |buf|..] && NoMagic(old(buf)[1..|old(buf)| - |buf|])
      ensures found ==> buf != [] && buf[0] == ROUTER_MAGIC
      ensures !found ==> NoMagic(buf) && |buf| == if |old(buf)| - 1 > TAIL_LIMIT then 8 else |old(buf)| - 1
    {
      var rest := buf[1..];
      match FindNextRouterMagic(rest, 0)
      case Some(pos) =>
        assert buf[1..1 + pos] == rest[0..pos];
        SkipTo(pos);
        return true;
      case None =>
        assert rest[0..] == rest;
        SkipAll();
        return false;
    }

    method SkipTo(pos: nat)
      requires Consistent() && open && TryDecodeRouter(buf).Error?
      requires 1 + pos < |buf| && NoMagic(buf[1..1 + pos])
      modifies this`buf, this`pieces
      ensures Consistent() && buf == old(buf)[1 + pos..] && Frames(pieces) == old(Frames(pieces))
    {
      Account(Junk(1 + pos));
      buf := buf[1 + pos..];
    }

    method SkipAll()
      requires Consistent() && open && TryDecodeRouter(buf).Error? && NoMagic(buf[1..])
      modifies this`buf, this`pieces
      ensures Consistent() && |buf| < |old(buf)| && Frames(pieces) == old(Frames(pieces))
      ensures buf == old(buf)[|old(buf)| - |buf|..] && NoMagic(old(buf)[1..|old(buf)| - |buf|])
      ensures NoMagic(buf) && |buf| == if |old(buf)| - 1 > TAIL_LIMIT then 8 else |old(buf)| - 1
    {
      SkipTo(0);
      KeepTail();
      TailOfRest(old(buf), buf);
    }

    /** Of more than 64 bytes without a magic byte, only the last 8 are kept. */
    method KeepTail()
      requires Consistent() && open && NoMagic(buf)
      modifies this`buf, this`pieces
      ensures Consistent() && |buf| <= |old(buf)| && Frames(pieces) == old(Frames(pieces))
      ensures buf == old(buf)[|old(buf)| - |buf|..] && NoMagic(buf)
      ensures |buf| == if |old(buf)| > TAIL_LIMIT then 8 else |old(buf)|
    {
      if |buf| > TAIL_LIMIT {
        var keep := 8;
        Account(Junk(|buf| - keep));
        buf := buf[|buf| - keep..];
      }
    }

    /** A frame at the front of the buffer: one over the limit ends the connection, any other is taken and served. */
    method OnFrame(d: Decoded) returns (end: Ending)
      requires Consistent() && open && d.Frame? && d == TryDecodeRouter(buf)
      modifies this
      ensures Consistent() && received == old(received) && |buf| <= |old(buf)|
      ensures open == end.StillOpen? && end in {StillOpen, FrameTooLarge, WriteBroken, ExecuteFailed}
      ensures open ==> |buf| < |old(buf)|
      ensures end.FrameTooLarge? <==> d.frameLen > maxFrame
      ensures end.FrameTooLarge? ==> buf == old(buf)
      ensures end.WriteBroken? || end.ExecuteFailed? ==> !AllReplied(outcomes)
    {
      if d.frameLen > maxFrame {
        Close();
        return FrameTooLarge;
      }
      FrameHasBytes(buf);
      SplitOff(d);
      end := ServeFrame(d);
    }

    /** One iteration of the drain loop; one that goes round again leaves a shorter buffer. */
    method DrainStep(late: bool) returns (again: bool, end: Ending)
      requires Consistent() && open
      modifies this
      ensures Consistent() && received == old(received) && |buf| <= |old(buf)|
      ensures open == end.StillOpen? && !end.PeerClosed?
      ensures again ==> open && |buf| < |old(buf)|
      ensures !again && open ==> Drained(buf)
      ensures end.BufferTooLarge? <==> |old(buf)| > maxBuffer
      ensures end.FrameTooLarge? <==> |old(buf)| <= maxBuffer && OverLimit(TryDecodeRouter(old(buf)), maxFrame)
      ensures end.FrameTooLarge? ==> buf == old(buf)
      ensures end.FrameTimeout? <==> |old(buf)| <= maxBuffer && TryDecodeRouter(old(buf)).NeedMore? && late
      ensures end.WriteBroken? || end.ExecuteFailed? ==> !AllReplied(outcomes)
    {
      if |buf| > maxBuffer {
        Close();
        return false, BufferTooLarge;
      }
      var d := TryDecodeRouter(buf);
      match d
      case NeedMore =>
        if late {
          Close();
          return false, FrameTimeout;
        }
        return false, StillOpen;
      case Frame(_, _, _, _, _, _) =>
        end := OnFrame(d);
        return end.StillOpen?, end;
      case Error(_) =>
        // A rejected buffer is never empty, so there is always a byte to give up.
        again := Resync();
        end := StillOpen;
    }

    /**
     * One read and the drain loop after it.  The requests served are always a prefix of the parse of all bytes
     * received, and all of it while the connection stays open.  The connection ends for its buffer exactly when the
     * read takes the buffer over its limit; no frame over its limit is ever served.
     */
    method OnRead(chunk: seq<byte>, late: bool) returns (end: Ending)
      requires Valid() && open
      modifies this
      ensures Valid() && received == old(received) + chunk
      ensures open == end.StillOpen? && !end.PeerClosed?
      ensures Frames(pieces) <= Parse(received)
      ensures open ==> Frames(pieces) == Parse(received)
      ensures open ==> |buf| <= maxBuffer && AllSmall(Parse(received), maxFrame)
      ensures AllSmall(Frames(pieces), maxFrame)
      ensures end.BufferTooLarge? <==> |old(buf)| + |chunk| > maxBuffer
      ensures end.FrameTooLarge? ==> exists f :: f in Parse(received) && f.Frame? && f.frameLen > maxFrame
      ensures end.FrameTimeout? ==> late
      ensures end.WriteBroken? || end.ExecuteFailed? ==> !AllReplied(outcomes)
    {
      AccountExtend(received, pieces, buf, chunk);
      buf, received := buf + chunk, received + chunk;
      var again := true;
      end := StillOpen;
      while again
        invariant Consistent() && received == old(received) + chunk
        invariant |buf| <= |old(buf)| + |chunk|
        invariant open == end.StillOpen? && !end.PeerClosed?
        invariant again ==> open
        invariant !again && open ==> Drained(buf) && |buf| <= maxBuffer
        invariant end.BufferTooLarge? ==> |old(buf)| + |chunk| > maxBuffer
        invariant |old(buf)| + |chunk| > maxBuffer ==> end.BufferTooLarge? || (again && |buf| == |old(buf)| + |chunk|)
        invariant end.FrameTooLarge? ==> OverLimit(TryDecodeRouter(buf), maxFrame)
        invariant end.FrameTimeout? ==> late
        invariant end.WriteBroken? || end.ExecuteFailed? ==> !AllReplied(outcomes)
        decreases again, |buf|
      {
        again, end := DrainStep(late);
      }
      AccountGivesFrames(received, pieces, buf);
      if open { DrainedHasNoFrames(buf); }
    }

    /**
     * The whole connection, read by read.  If it lasts until reading ends (the peer closes, a read fails, the idle limit
     * passes or the server is cancelled, all of which leave the loop the same way: `PeerClosed`), the frames taken are
     * the parse of the concatenation of the reads: where the reads were cut makes no difference.
     */
    method Serve(chunks: seq<seq<byte>>, late: nat -> bool) returns (end: Ending)
      requires Valid() && open && received == []
      modifies this
      ensures Valid() && !open && closesSent == 1 && !end.StillOpen?
      ensures received <= Concat(chunks)
      ensures Frames(pieces) <= Parse(received) && AllSmall(Frames(pieces), maxFrame)
      ensures end.PeerClosed? ==> received == Concat(chunks) && Frames(pieces) == Parse(Concat(chunks))
      ensures end.PeerClosed? ==> AllReplied(outcomes)
      ensures end.FrameTooLarge? ==> exists f :: f in Parse(Concat(chunks)) && f.Frame? && f.frameLen > maxFrame
      ensures end.BufferTooLarge? ==> exists k, held, before :: Overflow(chunks, k, held, before, maxBuffer)
      ensures end.FrameTimeout? ==> exists k :: 0 <= k < |chunks| && late(k)
      ensures end.WriteBroken? || end.ExecuteFailed? ==> !AllReplied(outcomes)
    {
      AccountGivesFrames(received, pieces, buf);
      DrainedHasNoFrames(buf);
      var k := 0;
      while k < |chunks|
        invariant Valid() && open && k <= |chunks|
        invariant received == Concat(chunks[..k])
        invariant Frames(pieces) == Parse(received)
      {
        ghost var held, before := buf, pieces;
        ConcatTake(chunks, k);
        end := OnRead(chunks[k], late(k));
        if !end.StillOpen? {
          assert end.BufferTooLarge? ==> Overflow(chunks, k, held, before, maxBuffer);
          ParseGrows(received, Concat(chunks[k + 1..]));
          return;
        }
        k := k + 1;
      }
      assert chunks[..k] == chunks;
      Close();
      end := PeerClosed;
    }

    /**
     * Recovery end to end: of well-formed frames with magic-free bytes before, between and after them, cut into reads
     * anywhere, a prefix is served in order, and all of them if reading lasts to the end.  Frames within the frame limit
     * and reads that leave room in the buffer for one frame, or for a short tail, never end the connection for its size.
     */
    method ServeRecoverable(chunks: seq<seq<byte>>, late: nat -> bool, ghost items: seq<Item>, ghost tail: seq<byte>)
      returns (end: Ending)
      requires Valid() && open && received == []
      requires Recoverable(items, tail) && Concat(chunks) == RouterStream.Stream(items, tail)
      modifies this
      ensures Valid() && !open && closesSent == 1 && !end.StillOpen?
      ensures Frames(pieces) <= Expected(items)
      ensures end.PeerClosed? ==> Frames(pieces) == Expected(items) && AllReplied(outcomes)
      ensures end.FrameTooLarge? ==> !Within(items, maxFrame)
      ensures end.BufferTooLarge? && Within(items, maxFrame) ==> !RoomToRead(chunks, maxFrame, maxBuffer)
      ensures end.FrameTimeout? ==> exists k :: 0 <= k < |chunks| && late(k)
      ensures end.WriteBroken? || end.ExecuteFailed? ==> !AllReplied(outcomes)
    {
      ParseRecovers(items, tail);
      end := Serve(chunks, late);
      ghost var rest := Concat(chunks)[|received|..];
      assert Concat(chunks) == received + rest;
      ParseGrows(received, rest);
      if Within(items, maxFrame) {
        ExpectedSizes(items, tail, maxFrame);
        if end.BufferTooLarge? {
          ghost var k, held, before :| Overflow(chunks, k, held, before, maxBuffer);
          OverflowNeedsALongRead(items, tail, chunks, k, held, before, maxFrame, maxBuffer);
        }
      }
    }
  }

  /** Read number `k` took a drained buffer over the limit. */
  ghost predicate Overflow(chunks: seq<seq<byte>>, k: nat, held: seq<byte>, before: seq<Piece>, limit: nat) {
    && k < |chunks| && Accounts(Concat(chunks[..k]), before, held) && Drained(held)
    && |held| <= limit < |held| + |chunks[k]|
  }

  /** Every read leaves room in the buffer for one frame, and for a short tail. */
  predicate RoomToRead(chunks: seq<seq<byte>>, maxFrame: nat, maxBuffer: nat) {
    forall k :: 0 <= k < |chunks| ==> |chunks[k]| + maxFrame <= maxBuffer && |chunks[k]| + TAIL_LIMIT <= maxBuffer
  }

  lemma OverflowNeedsALongRead(items: seq<Item>, tail: seq<byte>, chunks: seq<seq<byte>>, k: nat, held: seq<byte>,
                               before: seq<Piece>, maxFrame: nat, maxBuffer: nat)
    requires Recoverable(items, tail) && Within(items, maxFrame) && Concat(chunks) == RouterStream.Stream(items, tail)
    requires Overflow(chunks, k, held, before, maxBuffer)
    ensures !RoomToRead(chunks, maxFrame, maxBuffer)
  {
    ConcatTake(chunks, k);
    HeldIsShort(items, tail, Concat(chunks[..k]), before, held, maxFrame);
  }

  /** Whatever the stream, reads that leave room for the largest frame the decoder accepts never overflow the buffer. */
  lemma OverflowBound(chunks: seq<seq<byte>>, k: nat, held: seq<byte>, before: seq<Piece>, maxBuffer: nat)
    requires Overflow(chunks, k, held, before, maxBuffer)
    ensures |chunks[k]| + 4 + MAX_TOTAL > maxBuffer
  {
    DrainedIsShort(held);
  }

  lemma {:induction false} ConcatPlus(a: seq<seq<byte>>, b: seq<seq<byte>>)
    ensures Concat(a + b) == Concat(a) + Concat(b)
  {
    if a == [] {
      assert a + b == b;
    } else {
      assert (a + b)[1..] == a[1..] + b;
      ConcatPlus(a[1..], b);
    }
  }

  lemma ConcatMiddle(a: seq<seq<byte>>, x: seq<byte>, b: seq<seq<byte>>)
    ensures Concat(a + [x]) == Concat(a) + x
    ensures Concat(a + [x] + b) == Concat(a) + x + Concat(b)
  {
    ConcatPlus(a, [x]);
    assert [x][1..] == [];
    ConcatPlus(a + [x], b);
  }

  lemma SplitAt<T>(s: seq<T>, k: nat)
    requires k < |s|
    ensures s[..k + 1] == s[..k] + [s[k]]
    ensures s == s[..k] + [s[k]] + s[k + 1..]
  {}

  lemma ConcatTake(chunks: seq<seq<byte>>, k: nat)
    requires k < |chunks|
    ensures Concat(chunks[..k + 1]) == Concat(chunks[..k]) + chunks[k]
    ensures Concat(chunks) == Concat(chunks[..k]) + chunks[k] + Concat(chunks[k + 1..])
  {
    SplitAt(chunks, k);
    ConcatMiddle(chunks[..k], chunks[k], chunks[k + 1..]);
  }
}
