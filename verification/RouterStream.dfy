/** What a byte stream from the router means, and how a stream is accounted for piece by piece. */
module RouterStream {
  import opened Bytes
  import opened RouterCodec

  /**
   * The frames of a stream by the simplest rule: take a frame where one decodes, give up one byte where the decoder
   * rejects, stop where it wants more.  There is no search for a magic byte, no truncation and no reading in pieces.
   */
  function Parse(s: seq<byte>): seq<Decoded>
    decreases |s|
  {
    match TryDecodeRouter(s)
    case NeedMore => []
    case Frame(n, _, _, _, _, _) => [TryDecodeRouter(s)] + Parse(s[n..])
    case Error(_) => Parse(s[1..])
  }

  /** A stretch of the stream that has left the buffer: a frame that was taken, or bytes that were thrown away. */
  datatype Piece = Taken(frame: Decoded) | Junk(len: nat)

  function Len(p: Piece): nat {
    match p
    case Taken(f) => if f.Frame? then f.frameLen else 0
    case Junk(n) => n
  }

  /**
   * `p` is a right account of the front of `s`: a taken frame is what decodes there; of thrown-away bytes only the
   * first may be a magic byte, and then only because the decoder rejects a frame starting there.
   */
  predicate Covers(p: Piece, s: seq<byte>) {
    match p
    case Taken(f) => f.Frame? && TryDecodeRouter(s) == f
    case Junk(n) => 1 <= n <= |s| && (s[0] == ROUTER_MAGIC ==> TryDecodeRouter(s).Error?) && NoMagic(s[1..n])
  }

  /** `stream` is exactly `pieces` one after another, followed by the bytes `rest` still in the buffer. */
  predicate Accounts(stream: seq<byte>, pieces: seq<Piece>, rest: seq<byte>)
    decreases |pieces|
  {
    if pieces == [] then stream == rest
    else
      Covers(pieces[0], stream) && Len(pieces[0]) <= |stream| &&
      Accounts(stream[Len(pieces[0])..], pieces[1..], rest)
  }

  function Frames(pieces: seq<Piece>): seq<Decoded> {
    if pieces == [] then []
    else (if pieces[0].Taken? then [pieces[0].frame] else []) + Frames(pieces[1..])
  }

  // ---- Parsing and garbage ----

  lemma {:induction false} ParseSkipsGarbage(g: seq<byte>, s: seq<byte>)
    requires NoMagic(g)
    ensures Parse(g + s) == Parse(s)
  {
    if g == [] {
      assert g + s == s;
    } else {
      assert g[0] in g;
      assert (g + s)[1..] == g[1..] + s;
      ParseSkipsGarbage(g[1..], s);
    }
  }

  lemma ParseOfGarbage(g: seq<byte>)
    requires NoMagic(g)
    ensures Parse(g) == []
  {
    ParseSkipsGarbage(g, []);
    assert g + [] == g;
  }

  lemma ParseOfJunk(s: seq<byte>, n: nat)
    requires Covers(Junk(n), s)
    ensures Parse(s) == Parse(s[n..])
  {
    assert s == [s[0]] + s[1..];
    assert s[1..] == s[1..n] + s[n..];
    ParseSkipsGarbage(s[1..n], s[n..]);
    if s[0] != ROUTER_MAGIC {
      ParseSkipsGarbage([s[0]], s[1..]);
    }
  }

  /** Bytes that arrive later only add frames. */
  lemma {:induction false} ParseGrows(s: seq<byte>, more: seq<byte>)
    ensures Parse(s) <= Parse(s + more)
    decreases |s|
  {
    match TryDecodeRouter(s)
    case NeedMore =>
    case Frame(n, _, _, _, _, _) =>
      VerdictIsStable(s, more);
      assert (s + more)[n..] == s[n..] + more;
      ParseGrows(s[n..], more);
    case Error(_) =>
      VerdictIsStable(s, more);
      assert (s + more)[1..] == s[1..] + more;
      ParseGrows(s[1..], more);
  }

  /** What a drained buffer looks like: the start of a frame, or a short stretch without a magic byte. */
  predicate Drained(buf: seq<byte>) {
    TryDecodeRouter(buf).NeedMore? || (|buf| <= TAIL_LIMIT && NoMagic(buf))
  }

  const TAIL_LIMIT: nat := 64

  lemma DrainedHasNoFrames(buf: seq<byte>)
    requires Drained(buf)
    ensures Parse(buf) == []
  {
    if NoMagic(buf) {
      ParseOfGarbage(buf);
    }
  }

  /** Whatever the stream, a drained buffer is shorter than the largest frame the decoder accepts. */
  lemma DrainedIsShort(buf: seq<byte>)
    requires Drained(buf)
    ensures |buf| < 5 + MAX_TOTAL
  {}

  // ---- Accounts ----

  /** An account of a stream gives its frames: those taken, then those of the bytes left over. */
  lemma {:induction false} AccountGivesFrames(stream: seq<byte>, pieces: seq<Piece>, rest: seq<byte>)
    requires Accounts(stream, pieces, rest)
    ensures Parse(stream) == Frames(pieces) + Parse(rest)
    decreases |pieces|
  {
    if pieces != [] {
      AccountGivesFrames(stream[Len(pieces[0])..], pieces[1..], rest);
      if pieces[0].Junk? {
        ParseOfJunk(stream, pieces[0].len);
      }
    }
  }

  lemma {:induction false} AccountAppend(stream: seq<byte>, pieces: seq<Piece>, rest: seq<byte>, p: Piece)
    requires Accounts(stream, pieces, rest) && Covers(p, rest)
    ensures Len(p) <= |rest| && Accounts(stream, pieces + [p], rest[Len(p)..])
    ensures Frames(pieces + [p]) == Frames(pieces) + if p.Taken? then [p.frame] else []
    decreases |pieces|
  {
    if pieces == [] {
      assert Accounts(rest[Len(p)..], [], rest[Len(p)..]);
      assert [p][1..] == [];
      assert pieces + [p] == [p];
    } else {
      assert (pieces + [p])[1..] == pieces[1..] + [p];
      AccountAppend(stream[Len(pieces[0])..], pieces[1..], rest, p);
    }
  }

  lemma CoversMore(p: Piece, s: seq<byte>, more: seq<byte>)
    requires Covers(p, s)
    ensures Covers(p, s + more)
  {
    if !TryDecodeRouter(s).NeedMore? {
      VerdictIsStable(s, more);
    }
    if p.Junk? {
      assert (s + more)[1..p.len] == s[1..p.len];
    }
  }

  /** More bytes arriving leave the account standing. */
  lemma {:induction false} AccountExtend(stream: seq<byte>, pieces: seq<Piece>, rest: seq<byte>, more: seq<byte>)
    requires Accounts(stream, pieces, rest)
    ensures Accounts(stream + more, pieces, rest + more)
    decreases |pieces|
  {
    if pieces != [] {
      var n := Len(pieces[0]);
      CoversMore(pieces[0], stream, more);
      assert (stream + more)[n..] == stream[n..] + more;
      AccountExtend(stream[n..], pieces[1..], rest, more);
    }
  }

  function TotalLen(pieces: seq<Piece>): nat {
    if pieces == [] then 0 else Len(pieces[0]) + TotalLen(pieces[1..])
  }

  /** The piece that byte `o` of the stream went into. */
  function PieceAt(pieces: seq<Piece>, o: nat): Piece
    requires o < TotalLen(pieces)
  {
    if o < Len(pieces[0]) then pieces[0] else PieceAt(pieces[1..], o - Len(pieces[0]))
  }

  /**
   * Byte conservation, and no frame start lost unseen: the pieces and the buffer make up the stream, and every
   * thrown-away magic byte was tried as the start of a frame and rejected for good.
   */
  lemma {:induction false} AccountIsConservative(stream: seq<byte>, pieces: seq<Piece>, rest: seq<byte>)
    requires Accounts(stream, pieces, rest)
    ensures TotalLen(pieces) + |rest| == |stream| && stream[TotalLen(pieces)..] == rest
    ensures forall o :: 0 <= o < TotalLen(pieces) && stream[o] == ROUTER_MAGIC && PieceAt(pieces, o).Junk? ==>
              TryDecodeRouter(stream[o..]).Error?
    decreases |pieces|
  {
    if pieces != [] {
      var n := Len(pieces[0]);
      AccountIsConservative(stream[n..], pieces[1..], rest);
      assert stream[n..][TotalLen(pieces[1..])..] == stream[TotalLen(pieces)..];
      assert pieces[0].Junk? ==> forall o :: 0 < o < n ==> stream[o] == stream[1..n][o - 1] != ROUTER_MAGIC;
      forall o | 0 <= o < TotalLen(pieces) && stream[o] == ROUTER_MAGIC && PieceAt(pieces, o).Junk?
        ensures TryDecodeRouter(stream[o..]).Error?
      {
        if o == 0 {
          assert stream[0..] == stream;
        } else {
          assert stream[o..] == stream[n..][o - n..];
        }
      }
    }
  }

  // ---- Recovery ----

  /** Garbage and then one frame, by its parts. */
  datatype Item = Item(garbage: seq<byte>, segment: seq<byte>, flag: byte, shard: seq<byte>)

  predicate Sound(i: Item) { NoMagic(i.garbage) && WellFormedParts(i.segment, i.shard) }

  function Stream(items: seq<Item>, tail: seq<byte>): seq<byte>
    requires forall i :: 0 <= i < |items| ==> Sound(items[i])
  {
    if items == [] then tail
    else
      var i := items[0];
      assert Sound(i);
      i.garbage + (RouterFrame(i.segment, i.flag, i.shard) + Stream(items[1..], tail))
  }

  function Expected(items: seq<Item>): seq<Decoded>
    requires forall i :: 0 <= i < |items| ==> Sound(items[i])
  {
    if items == [] then []
    else
      var i := items[0];
      assert Sound(i);
      [PartsDecoded(i.segment, i.flag, i.shard)] + Expected(items[1..])
  }

  function FrameLen(i: Item): nat { 7 + |i.segment| + |i.shard| }

  predicate Recoverable(items: seq<Item>, tail: seq<byte>) {
    NoMagic(tail) && forall i :: 0 <= i < |items| ==> Sound(items[i])
  }

  /** The frames are within the limit. */
  predicate Within(items: seq<Item>, limit: nat) {
    forall i :: 0 <= i < |items| ==> FrameLen(items[i]) <= limit
  }

  lemma {:induction false} ExpectedSizes(items: seq<Item>, tail: seq<byte>, limit: nat)
    requires Recoverable(items, tail) && Within(items, limit)
    ensures forall f :: f in Expected(items) ==> f.Frame? && f.frameLen <= limit
  {
    if items != [] {
      ExpectedSizes(items[1..], tail, limit);
    }
  }

  /** Well-formed frames with magic-free bytes before, between and after them are all found, and nothing else is. */
  lemma {:induction false} ParseRecovers(items: seq<Item>, tail: seq<byte>)
    requires Recoverable(items, tail)
    ensures Parse(Stream(items, tail)) == Expected(items)
  {
    if items == [] {
      ParseOfGarbage(tail);
    } else {
      var i := items[0];
      var frame, rest := RouterFrame(i.segment, i.flag, i.shard), Stream(items[1..], tail);
      ParseSkipsGarbage(i.garbage, frame + rest);
      DecodeInvertsGrammar(i.segment, i.flag, i.shard, rest);
      assert (frame + rest)[|frame|..] == rest;
      ParseRecovers(items[1..], tail);
    }
  }

  // ---- How much of a recoverable stream is ever held back ----

  lemma GarbageFirst(items: seq<Item>, tail: seq<byte>)
    requires Recoverable(items, tail)
    ensures (items == [] || items[0].garbage != []) && Stream(items, tail) != [] ==> Stream(items, tail)[0] != ROUTER_MAGIC
    ensures items != [] ==>
              |items[0].garbage| < |Stream(items, tail)| && Stream(items, tail)[|items[0].garbage|] == ROUTER_MAGIC
  {
    assert tail != [] ==> tail[0] in tail;
    if items != [] {
      var g := items[0].garbage;
      assert Sound(items[0]) && (g != [] ==> g[0] in g);
    }
  }

  /** At a magic byte of a recoverable stream a whole frame begins. */
  lemma FrameAtMagic(items: seq<Item>, tail: seq<byte>)
    requires Recoverable(items, tail) && Stream(items, tail) != [] && Stream(items, tail)[0] == ROUTER_MAGIC
    ensures items != [] && items[0].garbage == []
    ensures var i := items[0];
            && Stream(items, tail) == RouterFrame(i.segment, i.flag, i.shard) + Stream(items[1..], tail)
            && TryDecodeRouter(Stream(items, tail)) == PartsDecoded(i.segment, i.flag, i.shard)
  {
    GarbageFirst(items, tail);
    var i := items[0];
    var frame, rest := RouterFrame(i.segment, i.flag, i.shard), Stream(items[1..], tail);
    assert [] + (frame + rest) == frame + rest;
    DecodeInvertsGrammar(i.segment, i.flag, i.shard, rest);
  }

  lemma MagicIsSeen(s: seq<byte>, n: nat, j: nat)
    ensures j < n <= |s| && s[j] == ROUTER_MAGIC ==> !NoMagic(s[..n])
  {
    if j < n <= |s| {
      assert s[..n][j] == s[j];
    }
  }

  /** Dropping magic-free bytes from the front of a recoverable stream. */
  lemma DropGarbage(items: seq<Item>, tail: seq<byte>, n: nat) returns (items': seq<Item>, tail': seq<byte>)
    requires Recoverable(items, tail) && n <= |Stream(items, tail)| && NoMagic(Stream(items, tail)[..n])
    ensures Recoverable(items', tail') && Stream(items', tail') == Stream(items, tail)[n..]
    ensures forall limit :: Within(items, limit) ==> Within(items', limit)
  {
    var s := Stream(items, tail);
    if items == [] {
      items', tail' := items, tail[n..];
    } else {
      var i := items[0];
      GarbageFirst(items, tail);
      MagicIsSeen(s, n, |i.garbage|);
      var frame, rest := RouterFrame(i.segment, i.flag, i.shard), Stream(items[1..], tail);
      assert Sound(i) && s == i.garbage + (frame + rest);
      items', tail' := [i.(garbage := i.garbage[n..])] + items[1..], tail;
      assert items'[1..] == items[1..];
      assert s[n..] == i.garbage[n..] + (frame + rest);
    }
  }

  lemma AfterPiece(items: seq<Item>, tail: seq<byte>, p: Piece) returns (items': seq<Item>, tail': seq<byte>)
    requires Recoverable(items, tail) && Covers(p, Stream(items, tail))
    ensures Len(p) <= |Stream(items, tail)| && Recoverable(items', tail')
    ensures Stream(items', tail') == Stream(items, tail)[Len(p)..]
    ensures forall limit :: Within(items, limit) ==> Within(items', limit)
  {
    var s := Stream(items, tail);
    if s[0] == ROUTER_MAGIC {
      FrameAtMagic(items, tail);
      items', tail' := items[1..], tail;
    } else {
      assert s[..p.len] == [s[0]] + s[1..p.len];
      items', tail' := DropGarbage(items, tail, p.len);
    }
  }

  /** Whatever has been taken or thrown away, what is left of a recoverable stream is recoverable. */
  lemma {:induction false} RestIsRecoverable(items: seq<Item>, tail: seq<byte>, pieces: seq<Piece>, rest: seq<byte>)
    returns (items': seq<Item>, tail': seq<byte>)
    requires Recoverable(items, tail) && Accounts(Stream(items, tail), pieces, rest)
    ensures Recoverable(items', tail') && Stream(items', tail') == rest
    ensures forall limit :: Within(items, limit) ==> Within(items', limit)
    decreases |pieces|
  {
    if pieces == [] {
      items', tail' := items, tail;
    } else {
      var items1, tail1 := AfterPiece(items, tail, pieces[0]);
      items', tail' := RestIsRecoverable(items1, tail1, pieces[1..], rest);
    }
  }

  lemma WholeFrameDecodes(i: Item, rest: seq<byte>, held: seq<byte>, more: seq<byte>)
    requires WellFormedParts(i.segment, i.shard)
    requires held + more == RouterFrame(i.segment, i.flag, i.shard) + rest
    ensures |held| >= FrameLen(i) ==> TryDecodeRouter(held).Frame?
  {
    var frame := RouterFrame(i.segment, i.flag, i.shard);
    if |held| >= |frame| {
      assert held == (held + more)[..|held|] == frame + rest[..|held| - |frame|];
      DecodeInvertsGrammar(i.segment, i.flag, i.shard, rest[..|held| - |frame|]);
    }
  }

  lemma HeldStartsAFrame(held: seq<byte>, more: seq<byte>)
    requires Drained(held) && |held| > TAIL_LIMIT
    ensures TryDecodeRouter(held).NeedMore? && (held + more)[0] == ROUTER_MAGIC
  {}

  lemma HeldInFrame(items: seq<Item>, tail: seq<byte>, held: seq<byte>, more: seq<byte>, limit: nat)
    requires Recoverable(items, tail) && Within(items, limit) && Stream(items, tail) == held + more
    requires Drained(held) && |held| > TAIL_LIMIT
    ensures |held| < limit
  {
    HeldStartsAFrame(held, more);
    FrameAtMagic(items, tail);
    assert Sound(items[0]);
    WholeFrameDecodes(items[0], Stream(items[1..], tail), held, more);
  }

  /**
   * A drained buffer holds at most a short tail or a strict prefix of one of the frames, wherever in a recoverable
   * stream the reading has got to.
   */
  lemma HeldIsShort(items: seq<Item>, tail: seq<byte>, sofar: seq<byte>, pieces: seq<Piece>, held: seq<byte>, limit: nat)
    requires Recoverable(items, tail) && Within(items, limit)
    requires sofar <= Stream(items, tail) && Accounts(sofar, pieces, held) && Drained(held)
    ensures |held| <= TAIL_LIMIT || |held| < limit
  {
    if |held| > TAIL_LIMIT {
      var more := Stream(items, tail)[|sofar|..];
      assert Stream(items, tail) == sofar + more;
      AccountExtend(sofar, pieces, held, more);
      var items', tail' := RestIsRecoverable(items, tail, pieces, held + more);
      assert Within(items', limit);
      HeldInFrame(items', tail', held, more, limit);
    }
  }
}
