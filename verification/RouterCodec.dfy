/** The router frame format: the decoder, the scan for the next magic byte and the encoder. */
module RouterCodec {
  import opened Bytes

  const ROUTER_MAGIC: byte := 0xFE
  const SHARD_MAGIC: byte := 0xFF
  const MAX_TOTAL: nat := 16 * 1024 * 1024

  /** "__keepalive__" */
  const KEEPALIVE_SEGMENT: seq<byte> :=
    [0x5F, 0x5F, 0x6B, 0x65, 0x65, 0x70, 0x61, 0x6C, 0x69, 0x76, 0x65, 0x5F, 0x5F]

  datatype ParseError =
    | BadRouterMagic | TotalLenTooLarge | TotalLenTooSmall | SegmentOutOfRange | SegmentNotUtf8 | MissingShardMagic

  datatype Decoded =
    | NeedMore
    | Frame(frameLen: nat, segment: seq<byte>, isWrite: bool, shardFrame: seq<byte>, clridOffset: nat, clrid: u32)
    | Error(reason: ParseError)

  /** Decodes one router frame at the front of `buf`. */
  function TryDecodeRouter(buf: seq<byte>): (d: Decoded)
    ensures d.Frame? ==> 12 <= d.frameLen <= |buf|
    ensures d.Error? ==> |buf| >= 5
  {
    if |buf| < 5 then NeedMore
    else if buf[0] != ROUTER_MAGIC then Error(BadRouterMagic)
    else
      var totalLen := FromLE32(buf[1..5]);
      if totalLen > MAX_TOTAL then Error(TotalLenTooLarge)
      else
        var frameLen := 5 + totalLen;
        if |buf| < frameLen then NeedMore
        else if totalLen < 2 then Error(TotalLenTooSmall)
        else
          var flagPos: nat := 6 + buf[5] as int;
          if flagPos >= frameLen then Error(SegmentOutOfRange)
          else if !ValidUtf8(buf[6..flagPos]) then Error(SegmentNotUtf8)
          else
            var shardStart := flagPos + 1;
            if shardStart + 5 > frameLen || buf[shardStart] != SHARD_MAGIC then Error(MissingShardMagic)
            else
              Frame(frameLen, buf[6..flagPos], buf[flagPos] == 0x01, buf[shardStart..frameLen], shardStart + 1,
                    FromLE32(buf[shardStart + 1..shardStart + 5]))
  }

  predicate NoMagic(s: seq<byte>) { ROUTER_MAGIC !in s }

  /** The first router magic byte at or after `from`. */
  function FindNextRouterMagic(buf: seq<byte>, from: nat): (pos: Option<nat>)
    requires from <= |buf|
    ensures pos.Some? ==> from <= pos.value < |buf| && buf[pos.value] == ROUTER_MAGIC && NoMagic(buf[from..pos.value])
    ensures pos.None? ==> NoMagic(buf[from..])
    decreases |buf| - from
  {
    if from == |buf| then None
    else if buf[from] == ROUTER_MAGIC then Some(from)
    else
      var rest := FindNextRouterMagic(buf, from + 1);
      assert buf[from..] == [buf[from]] + buf[from + 1..];
      assert rest.Some? ==> buf[from..rest.value] == [buf[from]] + buf[from + 1..rest.value];
      rest
  }

  // ---- The grammar of a router frame, independent of the decoder ----

  /** Parts that can stand in a router frame. */
  predicate WellFormedParts(segment: seq<byte>, shard: seq<byte>) {
    && |segment| <= 255 && ValidUtf8(segment)
    && |shard| >= 5 && shard[0] == SHARD_MAGIC
    && 2 + |segment| + |shard| <= MAX_TOTAL
  }

  /** The layout of a router frame: magic, length of the rest, segment length, segment, write flag, shard frame. */
  function Layout(total: u32, segmentLen: byte, segment: seq<byte>, flag: byte, shard: seq<byte>): (frame: seq<byte>)
    ensures |frame| == 7 + |segment| + |shard|
  {
    [ROUTER_MAGIC] + LE32(total) + [segmentLen] + segment + [flag] + shard
  }

  lemma LayoutSlices(total: u32, segmentLen: byte, segment: seq<byte>, flag: byte, shard: seq<byte>, tail: seq<byte>)
    ensures var buf := Layout(total, segmentLen, segment, flag, shard) + tail;
            var n := |segment|;
            && buf[0] == ROUTER_MAGIC && buf[1..5] == LE32(total) && buf[5] == segmentLen
            && buf[6..6 + n] == segment && buf[6 + n] == flag && buf[7 + n..7 + n + |shard|] == shard
  {
    var buf := Layout(total, segmentLen, segment, flag, shard) + tail;
    assert buf == [ROUTER_MAGIC] + LE32(total) + ([segmentLen] + segment + [flag] + shard + tail);
    assert buf[6..] == segment + ([flag] + shard + tail);
  }

  /** A router frame put together from its parts; the write flag is any byte. */
  function RouterFrame(segment: seq<byte>, flag: byte, shard: seq<byte>): seq<byte>
    requires WellFormedParts(segment, shard)
  {
    Layout(2 + |segment| + |shard|, |segment|, segment, flag, shard)
  }

  function PartsDecoded(segment: seq<byte>, flag: byte, shard: seq<byte>): Decoded
    requires WellFormedParts(segment, shard)
  {
    Frame(7 + |segment| + |shard|, segment, flag == 0x01, shard, 8 + |segment|, FromLE32(shard[1..5]))
  }

  /** The buffer starts with a frame of `n` segment bytes and `m` shard bytes, field by field. */
  predicate Fields(buf: seq<byte>, n: nat, m: nat) {
    && 5 <= m && 2 + n + m <= MAX_TOTAL && 7 + n + m <= |buf|
    && buf[0] == ROUTER_MAGIC && FromLE32(buf[1..5]) == 2 + n + m && buf[5] == n
    && ValidUtf8(buf[6..6 + n]) && buf[7 + n] == SHARD_MAGIC
  }

  /** Decoding in terms of the fields read from the buffer. */
  lemma DecodeFromFields(buf: seq<byte>, n: nat, m: nat)
    requires Fields(buf, n, m)
    ensures TryDecodeRouter(buf) ==
            Frame(7 + n + m, buf[6..6 + n], buf[6 + n] == 0x01, buf[7 + n..7 + n + m], 8 + n, FromLE32(buf[8 + n..12 + n]))
  {}

  /** Every frame of the grammar is decoded to its parts, whatever follows it. */
  lemma DecodeInvertsGrammar(segment: seq<byte>, flag: byte, shard: seq<byte>, tail: seq<byte>)
    requires WellFormedParts(segment, shard)
    ensures TryDecodeRouter(RouterFrame(segment, flag, shard) + tail) == PartsDecoded(segment, flag, shard)
  {
    var buf := RouterFrame(segment, flag, shard) + tail;
    var n := |segment|;
    LE32RoundTrip(2 + n + |shard|);
    LayoutSlices(2 + n + |shard|, n, segment, flag, shard, tail);
    assert buf[8 + n..12 + n] == shard[1..5];
    DecodeFromFields(buf, n, |shard|);
  }

  lemma AcceptedFields(buf: seq<byte>) returns (n: nat, m: nat)
    requires TryDecodeRouter(buf).Frame?
    ensures Fields(buf, n, m)
  {
    n := buf[5];
    m := FromLE32(buf[1..5]) - 2 - n;
  }

  lemma LayoutFromFields(buf: seq<byte>, n: nat, m: nat)
    requires Fields(buf, n, m)
    ensures buf[..7 + n + m] == Layout(2 + n + m, n, buf[6..6 + n], buf[6 + n], buf[7 + n..7 + n + m])
  {
    FromLE32RoundTrip(buf[1..5]);
    assert buf[..7 + n + m] ==
           [buf[0]] + buf[1..5] + [buf[5]] + buf[6..6 + n] + [buf[6 + n]] + buf[7 + n..7 + n + m];
  }

  /** Whatever the decoder accepts is a frame of the grammar, with exactly the parts it reports. */
  lemma DecodeIsSound(buf: seq<byte>) returns (flag: byte)
    requires TryDecodeRouter(buf).Frame?
    ensures var f := TryDecodeRouter(buf);
            && WellFormedParts(f.segment, f.shardFrame)
            && f == PartsDecoded(f.segment, flag, f.shardFrame)
            && buf[..f.frameLen] == RouterFrame(f.segment, flag, f.shardFrame)
  {
    var n, m := AcceptedFields(buf);
    flag := buf[6 + n];
    DecodeFromFields(buf, n, m);
    LayoutFromFields(buf, n, m);
    assert buf[7 + n..7 + n + m][1..5] == buf[8 + n..12 + n];
  }

  /** A verdict other than NeedMore is final: later bytes cannot change it. */
  lemma VerdictIsStable(buf: seq<byte>, more: seq<byte>)
    requires !TryDecodeRouter(buf).NeedMore?
    ensures TryDecodeRouter(buf + more) == TryDecodeRouter(buf)
  {
    var all := buf + more;
    assert all[1..5] == buf[1..5];
    if all[0] == ROUTER_MAGIC && FromLE32(buf[1..5]) <= MAX_TOTAL {
      var frameLen := 5 + FromLE32(buf[1..5]);
      if 7 <= frameLen && 6 + buf[5] < frameLen {
        var flagPos: nat := 6 + buf[5] as int;
        assert all[6..flagPos] == buf[6..flagPos];
        if flagPos + 6 <= frameLen {
          assert all[flagPos + 1..frameLen] == buf[flagPos + 1..frameLen];
          assert all[flagPos + 2..flagPos + 6] == buf[flagPos + 2..flagPos + 6];
        }
      }
    }
  }

  /** No strict prefix of a frame is accepted or rejected. */
  lemma StrictPrefixNeedsMore(segment: seq<byte>, flag: byte, shard: seq<byte>, k: nat)
    requires WellFormedParts(segment, shard)
    requires k < |RouterFrame(segment, flag, shard)|
    ensures TryDecodeRouter(RouterFrame(segment, flag, shard)[..k]).NeedMore?
  {
    var frame := RouterFrame(segment, flag, shard);
    if k >= 5 {
      LE32RoundTrip(2 + |segment| + |shard|);
      LayoutSlices(2 + |segment| + |shard|, |segment|, segment, flag, shard, []);
      assert frame + [] == frame;
      assert frame[..k][1..5] == frame[1..5];
    }
  }

  // ---- The encoder ----

  /** A shard frame: magic, correlation id, payload length, payload. */
  function ShardFrame(clrid: u32, payload: seq<byte>): (frame: seq<byte>)
    requires |payload| < U32_SPAN
    ensures |frame| == 9 + |payload|
  {
    [SHARD_MAGIC] + LE32(clrid) + LE32(|payload|) + payload
  }

  lemma ShardFrameId(clrid: u32, payload: seq<byte>)
    requires |payload| < U32_SPAN
    ensures ShardFrame(clrid, payload)[0] == SHARD_MAGIC
    ensures ShardFrame(clrid, payload)[1..5] == LE32(clrid)
    ensures FromLE32(ShardFrame(clrid, payload)[1..5]) == clrid
  {
    LE32RoundTrip(clrid);
    assert ShardFrame(clrid, payload)[1..5] == LE32(clrid);
  }

  /** The shard part as the encoder pushes it: the length field holds the low 32 bits of the length. */
  function ShardPart(clrid: u32, payload: seq<byte>): (part: seq<byte>)
    ensures |part| == 9 + |payload|
  {
    [SHARD_MAGIC] + LE32(clrid) + LE32(|payload| % U32_SPAN) + payload
  }

  lemma ShardPartIsAFrame(clrid: u32, payload: seq<byte>)
    requires |payload| < U32_SPAN
    ensures ShardPart(clrid, payload) == ShardFrame(clrid, payload)
  {
    SmallMod(|payload|, U32_SPAN);
  }

  /** The bytes the encoder pushes: lengths are cut to 32 bits and sums wrap, the segment length is cut to its low byte. */
  function EncodedRequest(segment: seq<byte>, isWrite: bool, clrid: u32, payload: seq<byte>): seq<byte> {
    Layout((11 + |segment| + |payload|) % U32_SPAN, |segment| % 256, segment, if isWrite then 0x01 else 0x00,
           ShardPart(clrid, payload))
  }

  /** Adding cut lengths with wrap-around is cutting their sum. */
  lemma WrappedSum(a: nat, b: nat)
    ensures ((1 + a % U32_SPAN + 1) % U32_SPAN + (9 + b % U32_SPAN) % U32_SPAN) % U32_SPAN == (11 + a + b) % U32_SPAN
  {}

  lemma LowByte(a: nat)
    ensures a % U32_SPAN % 256 == a % 256
  {}

  /** The encoder's 32-bit arithmetic on lengths. */
  method WireLengths(segmentSize: nat, payloadSize: nat) returns (total: u32, segmentLen: byte, shardTotalLen: u32)
    ensures total == (11 + segmentSize + payloadSize) % U32_SPAN
    ensures segmentLen == segmentSize % 256 && shardTotalLen == payloadSize % U32_SPAN
  {
    shardTotalLen := payloadSize % U32_SPAN;
    var shardFrameLen := (9 + shardTotalLen) % U32_SPAN;
    var routerHeaderLen := (1 + segmentSize % U32_SPAN + 1) % U32_SPAN;
    total := (routerHeaderLen + shardFrameLen) % U32_SPAN;
    segmentLen := segmentSize % U32_SPAN % 256;
    WrappedSum(segmentSize, payloadSize);
    LowByte(segmentSize);
  }

  method PrependRouterHeader(segment: seq<byte>, isWrite: bool, clrid: u32, payload: seq<byte>)
    returns (out: seq<byte>)
    ensures out == EncodedRequest(segment, isWrite, clrid, payload)
    ensures |out| == 16 + |segment| + |payload|
  {
    var total, segmentLen, shardTotalLen := WireLengths(|segment|, |payload|);
    out := [ROUTER_MAGIC];
    out := out + LE32(total);
    out := out + [segmentLen];
    out := out + segment;
    out := out + [if isWrite then 0x01 else 0x00];
    out := out + [SHARD_MAGIC];
    out := out + LE32(clrid);
    out := out + LE32(shardTotalLen);
    out := out + payload;
    assert out[7 + |segment|..] == ShardPart(clrid, payload);
  }

  /** What decoding an encoded request should give. */
  function RequestDecoded(segment: seq<byte>, isWrite: bool, clrid: u32, payload: seq<byte>): Decoded {
    Frame(16 + |segment| + |payload|, segment, isWrite, ShardPart(clrid, payload), 8 + |segment|, clrid)
  }

  /** The request fits the segment's one-byte length and the size limit. */
  predicate Fits(segment: seq<byte>, payload: seq<byte>) {
    |segment| <= 255 && 11 + |segment| + |payload| <= MAX_TOTAL
  }

  lemma EncodedRequestIsAFrame(segment: seq<byte>, isWrite: bool, clrid: u32, payload: seq<byte>)
    requires Fits(segment, payload) && ValidUtf8(segment)
    ensures WellFormedParts(segment, ShardFrame(clrid, payload))
    ensures EncodedRequest(segment, isWrite, clrid, payload) ==
            RouterFrame(segment, if isWrite then 0x01 else 0x00, ShardFrame(clrid, payload))
  {
    SmallMod(|segment|, 256);
    SmallMod(11 + |segment| + |payload|, U32_SPAN);
    ShardPartIsAFrame(clrid, payload);
  }

  lemma RequestPartsDecoded(segment: seq<byte>, isWrite: bool, clrid: u32, payload: seq<byte>)
    requires |payload| < U32_SPAN && WellFormedParts(segment, ShardFrame(clrid, payload))
    ensures PartsDecoded(segment, if isWrite then 0x01 else 0x00, ShardFrame(clrid, payload)) ==
            RequestDecoded(segment, isWrite, clrid, payload)
  {
    ShardFrameId(clrid, payload);
    ShardPartIsAFrame(clrid, payload);
  }

  lemma EncodedRequestDecodes(segment: seq<byte>, isWrite: bool, clrid: u32, payload: seq<byte>, tail: seq<byte>)
    requires Fits(segment, payload) && ValidUtf8(segment)
    ensures TryDecodeRouter(EncodedRequest(segment, isWrite, clrid, payload) + tail) ==
            RequestDecoded(segment, isWrite, clrid, payload)
  {
    EncodedRequestIsAFrame(segment, isWrite, clrid, payload);
    RequestPartsDecoded(segment, isWrite, clrid, payload);
    DecodeInvertsGrammar(segment, if isWrite then 0x01 else 0x00, ShardFrame(clrid, payload), tail);
  }

  /** Whatever the encoder makes of a request that does not fit, the decoder does not recover it. */
  lemma OversizedRequestIsNotRecovered(segment: seq<byte>, isWrite: bool, clrid: u32, payload: seq<byte>, tail: seq<byte>)
    requires !(Fits(segment, payload) && ValidUtf8(segment))
    ensures TryDecodeRouter(EncodedRequest(segment, isWrite, clrid, payload) + tail) !=
            RequestDecoded(segment, isWrite, clrid, payload)
  {
    var d := TryDecodeRouter(EncodedRequest(segment, isWrite, clrid, payload) + tail);
    if d.Frame? {
      var flag := DecodeIsSound(EncodedRequest(segment, isWrite, clrid, payload) + tail);
    }
  }

  /**
   * For every request, of whatever size: the decoder recovers all its parts, whatever follows it, exactly when the
   * segment is UTF-8 and fits its one-byte length and the frame fits the size limit.
   */
  lemma CodecRoundTripIff(segment: seq<byte>, isWrite: bool, clrid: u32, payload: seq<byte>, tail: seq<byte>)
    ensures Fits(segment, payload) && ValidUtf8(segment) <==>
            TryDecodeRouter(EncodedRequest(segment, isWrite, clrid, payload) + tail) ==
              RequestDecoded(segment, isWrite, clrid, payload)
  {
    if Fits(segment, payload) && ValidUtf8(segment) {
      EncodedRequestDecodes(segment, isWrite, clrid, payload, tail);
    } else {
      OversizedRequestIsNotRecovered(segment, isWrite, clrid, payload, tail);
    }
  }

  /** A write of payload byte 9 for segment "a" under id 0x04030201, byte by byte. */
  lemma WireExample()
    ensures EncodedRequest([0x61], true, 0x0403_0201, [9]) ==
            [0xFE, 13, 0, 0, 0, 1, 0x61, 1, 0xFF, 1, 2, 3, 4, 1, 0, 0, 0, 9]
  {
    assert LE32(0x0403_0201) == [1, 2, 3, 4] && LE32(13) == [13, 0, 0, 0] && LE32(1) == [1, 0, 0, 0];
  }
}
