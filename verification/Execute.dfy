/** Executing one request: at most three attempts, each under a bridge-local correlation id. */
module Execute {
  import opened Bytes
  import opened RouterCodec

  const MAX_ATTEMPTS: nat := 3

  /** The correlation id of a shard frame. */
  function IdOf(frame: seq<byte>): u32
    requires |frame| >= 5
  {
    FromLE32(frame[1..5])
  }

  /** A frame with its correlation id, bytes 1..5, replaced. */
  function WithId(frame: seq<byte>, id: u32): (r: seq<byte>)
    requires |frame| >= 5
    ensures SameOutsideId(r, frame)
  {
    frame[..1] + LE32(id) + frame[5..]
  }

  predicate SameOutsideId(a: seq<byte>, b: seq<byte>) {
    |a| == |b| >= 5 && a[0] == b[0] && a[5..] == b[5..]
  }

  lemma WithIdLaws(frame: seq<byte>, id: u32)
    requires |frame| >= 5
    ensures IdOf(WithId(frame, id)) == id
    ensures WithId(frame, id)[1..5] == LE32(id)
    ensures WithId(frame, IdOf(frame)) == frame
    ensures forall g :: SameOutsideId(g, frame) ==> WithId(g, id) == WithId(frame, id)
  {
    LE32RoundTrip(id);
    assert WithId(frame, id)[1..5] == LE32(id);
    FromLE32RoundTrip(frame[1..5]);
    assert frame == frame[..1] + frame[1..5] + frame[5..];
  }

  /** What the rest of the bridge makes of one attempt. */
  datatype Attempt =
    | NoConnection
    | SendFailed(id: u32)
    | ChannelDropped(id: u32)
    | Answered(id: u32, response: seq<byte>)

  datatype ExecError = InvalidFrame | NoLeaderAvailable | NoFollowerNodeAvailable | Timeout
  datatype Result = Ok(reply: seq<byte>) | Err(error: ExecError)

  /** A response on its way back: one that is long enough gets the client's id. */
  function Restore(response: seq<byte>, clrid: u32): (r: seq<byte>)
  {
    if |response| >= 9 then WithId(response, clrid) else response
  }

  predicate Executable(frame: seq<byte>) { |frame| >= 9 && frame[0] == SHARD_MAGIC }

  /** The frames handed to connections in the first `n` attempts. */
  function SentFrames(frame: seq<byte>, attemptAt: nat -> Attempt, n: nat): seq<seq<byte>>
    requires |frame| >= 5
  {
    if n == 0 then []
    else SentFrames(frame, attemptAt, n - 1) +
         if attemptAt(n - 1).NoConnection? then [] else [WithId(frame, attemptAt(n - 1).id)]
  }

  function FailureOf(isWrite: bool, attempt: Attempt): ExecError {
    if !attempt.NoConnection? then Timeout else if isWrite then NoLeaderAvailable else NoFollowerNodeAvailable
  }

  /** The first answer from attempt `k` on, under the client's id; without one, the failure of the third attempt. */
  function ResultFrom(isWrite: bool, clrid: u32, attemptAt: nat -> Attempt, k: nat): Result
    requires k < MAX_ATTEMPTS
    decreases MAX_ATTEMPTS - k
  {
    if attemptAt(k).Answered? then Ok(Restore(attemptAt(k).response, clrid))
    else if k + 1 == MAX_ATTEMPTS then Err(FailureOf(isWrite, attemptAt(k)))
    else ResultFrom(isWrite, clrid, attemptAt, k + 1)
  }

  function ResultOf(isWrite: bool, frame: seq<byte>, attemptAt: nat -> Attempt): Result {
    if Executable(frame) then ResultFrom(isWrite, IdOf(frame), attemptAt, 0) else Err(InvalidFrame)
  }

  // ---- What a request comes to, in terms of its attempts ----

  /** Attempt `k` is the first that got an answer, within the allowed number. */
  ghost predicate FirstAnswer(attemptAt: nat -> Attempt, k: nat) {
    k < MAX_ATTEMPTS && attemptAt(k).Answered? && forall j :: 0 <= j < k ==> !attemptAt(j).Answered?
  }

  ghost predicate NoAnswer(attemptAt: nat -> Attempt) {
    forall k :: 0 <= k < MAX_ATTEMPTS ==> !attemptAt(k).Answered?
  }

  /** The reply is the response with the client's bytes 1..5; one too short to hold an id is the response itself. */
  predicate ReturnedUnder(reply: seq<byte>, response: seq<byte>, frame: seq<byte>) {
    && |reply| == |response|
    && if |response| < 9 then reply == response
       else |frame| >= 5 && reply[..1] == response[..1] && reply[1..5] == frame[1..5] && reply[5..] == response[5..]
  }

  /** The result is the first answer among three attempts, or the failure of the third. */
  ghost predicate Explains(isWrite: bool, frame: seq<byte>, attemptAt: nat -> Attempt, r: Result) {
    if !(|frame| >= 9 && frame[0] == 0xFF) then r == Err(InvalidFrame)
    else if NoAnswer(attemptAt) then
      r == Err(if !attemptAt(2).NoConnection? then Timeout
               else if isWrite then NoLeaderAvailable else NoFollowerNodeAvailable)
    else
      r.Ok? && exists k :: FirstAnswer(attemptAt, k) && ReturnedUnder(r.reply, attemptAt(k).response, frame)
  }

  lemma RestoreReturns(response: seq<byte>, frame: seq<byte>)
    requires |frame| >= 5
    ensures ReturnedUnder(Restore(response, IdOf(frame)), response, frame)
  {
    FromLE32RoundTrip(frame[1..5]);
    if |response| >= 9 {
      WithIdLaws(response, IdOf(frame));
    }
  }

  lemma {:induction false} ResultFromExplained(isWrite: bool, frame: seq<byte>, attemptAt: nat -> Attempt, k: nat)
    requires k < MAX_ATTEMPTS && Executable(frame) && forall j :: 0 <= j < k ==> !attemptAt(j).Answered?
    ensures Explains(isWrite, frame, attemptAt, ResultFrom(isWrite, IdOf(frame), attemptAt, k))
    decreases MAX_ATTEMPTS - k
  {
    if attemptAt(k).Answered? {
      assert FirstAnswer(attemptAt, k);
      RestoreReturns(attemptAt(k).response, frame);
    } else if k + 1 < MAX_ATTEMPTS {
      ResultFromExplained(isWrite, frame, attemptAt, k + 1);
    }
  }

  lemma ResultExplained(isWrite: bool, frame: seq<byte>, attemptAt: nat -> Attempt)
    ensures Explains(isWrite, frame, attemptAt, ResultOf(isWrite, frame, attemptAt))
  {
    if Executable(frame) {
      ResultFromExplained(isWrite, frame, attemptAt, 0);
    }
  }

  /** A request's attempts leave one result only. */
  lemma ExplainedOnce(isWrite: bool, frame: seq<byte>, attemptAt: nat -> Attempt, r: Result, r': Result)
    requires Explains(isWrite, frame, attemptAt, r) && Explains(isWrite, frame, attemptAt, r')
    ensures r == r'
  {
    if r.Ok? && r'.Ok? {
      var k :| FirstAnswer(attemptAt, k) && ReturnedUnder(r.reply, attemptAt(k).response, frame);
      var k' :| FirstAnswer(attemptAt, k') && ReturnedUnder(r'.reply, attemptAt(k').response, frame);
      assert k == k';
      if |r.reply| >= 9 {
        assert r.reply == r.reply[..1] + r.reply[1..5] + r.reply[5..];
        assert r'.reply == r'.reply[..1] + r'.reply[1..5] + r'.reply[5..];
      }
    }
  }

  /**
   * Runs the attempt loop on the frame in place.  The reply is the first answer among the first three attempts, under
   * the client's id; without one, the third attempt's failure is reported.
   */
  method Execute(isWrite: bool, frame: array<byte>, attemptAt: nat -> Attempt)
    returns (r: Result, sent: seq<seq<byte>>, used: nat)
    modifies frame
    ensures r == ResultOf(isWrite, old(frame[..]), attemptAt)
    ensures Explains(isWrite, old(frame[..]), attemptAt, r)
    ensures r.Ok? ==> used > 0 && FirstAnswer(attemptAt, used - 1) &&
                      ReturnedUnder(r.reply, attemptAt(used - 1).response, old(frame[..]))
    ensures !Executable(old(frame[..])) ==> sent == [] && used == 0
    ensures Executable(old(frame[..])) ==>
              && 1 <= used <= MAX_ATTEMPTS
              && (forall k :: 0 <= k < used - 1 ==> !attemptAt(k).Answered?)
              && sent == SentFrames(old(frame[..]), attemptAt, used)
              && (if r.Ok? then attemptAt(used - 1).Answered? else used == MAX_ATTEMPTS)
  {
    sent, used := [], 0;
    ResultExplained(isWrite, frame[..], attemptAt);
    if frame.Length < 9 || frame[0] != SHARD_MAGIC {
      return Err(InvalidFrame), sent, used;
    }
    var originalClrid := FromLE32(frame[1..5]);
    assert frame[1..5] == old(frame[..])[1..5];
    var attempts := 0;
    while true
      invariant attempts == used < MAX_ATTEMPTS
      invariant SameOutsideId(frame[..], old(frame[..]))
      invariant forall k :: 0 <= k < used ==> !attemptAt(k).Answered?
      invariant ResultFrom(isWrite, originalClrid, attemptAt, used) ==
                ResultFrom(isWrite, originalClrid, attemptAt, 0)
      invariant sent == SentFrames(old(frame[..]), attemptAt, used)
      decreases MAX_ATTEMPTS - attempts
    {
      var attempt := attemptAt(used);
      used := used + 1;
      if !attempt.NoConnection? {
        Patch(frame, attempt.id);
        sent := sent + [frame[..]];
        WithIdLaws(old(frame[..]), attempt.id);
      }
      if attempt.Answered? {
        RestoreReturns(attempt.response, old(frame[..]));
        return Ok(Restore(attempt.response, originalClrid)), sent, used;
      }
      attempts := attempts + 1;
      if attempts >= 3 {
        return Err(FailureOf(isWrite, attempt)), sent, used;
      }
    }
  }

  /** Writes the id into the frame in place. */
  method Patch(frame: array<byte>, id: u32)
    requires frame.Length >= 9
    modifies frame
    ensures frame[..] == WithId(old(frame[..]), id)
  {
    var bytes := LE32(id);
    frame[1], frame[2], frame[3], frame[4] := bytes[0], bytes[1], bytes[2], bytes[3];
  }

  /** `at` lists the attempts among the first `n` that got a connection, in order. */
  ghost predicate Connected(attemptAt: nat -> Attempt, n: nat, at: seq<nat>) {
    && (forall i :: 0 <= i < |at| ==> at[i] < n && !attemptAt(at[i]).NoConnection?)
    && (forall i, j :: 0 <= i < j < |at| ==> at[i] < at[j])
    && (forall k :: 0 <= k < n && !attemptAt(k).NoConnection? ==> k in at)
  }

  ghost function Connections(attemptAt: nat -> Attempt, n: nat): seq<nat> {
    if n == 0 then []
    else Connections(attemptAt, n - 1) + if attemptAt(n - 1).NoConnection? then [] else [n - 1]
  }

  lemma {:induction false} ConnectionsAreListed(attemptAt: nat -> Attempt, n: nat)
    ensures Connected(attemptAt, n, Connections(attemptAt, n)) && |Connections(attemptAt, n)| <= n
  {
    if n > 0 {
      ConnectionsAreListed(attemptAt, n - 1);
    }
  }

  /** The client's frame outside bytes 1..5, which hold the id. */
  predicate SentUnder(sent: seq<byte>, frame: seq<byte>, id: u32) {
    SameOutsideId(sent, frame) && IdOf(sent) == id
  }

  lemma WithIdIsSent(frame: seq<byte>, id: u32)
    requires |frame| >= 5
    ensures SentUnder(WithId(frame, id), frame, id)
  {
    WithIdLaws(frame, id);
  }

  lemma {:induction false} SentFrameAt(frame: seq<byte>, attemptAt: nat -> Attempt, n: nat, i: nat)
    requires |frame| >= 5
    ensures |SentFrames(frame, attemptAt, n)| == |Connections(attemptAt, n)|
    ensures i < |Connections(attemptAt, n)| ==>
              var k := Connections(attemptAt, n)[i];
              !attemptAt(k).NoConnection? && SentFrames(frame, attemptAt, n)[i] == WithId(frame, attemptAt(k).id)
  {
    if n > 0 {
      SentFrameAt(frame, attemptAt, n - 1, i);
    }
  }

  /**
   * One frame goes out for every attempt that gets a connection, in order: the client's frame outside the id, and under
   * the id of that attempt.
   */
  lemma SentFramesAreTheClients(frame: seq<byte>, attemptAt: nat -> Attempt, n: nat) returns (at: seq<nat>)
    requires |frame| >= 5
    ensures Connected(attemptAt, n, at)
    ensures |SentFrames(frame, attemptAt, n)| == |at| <= n
    ensures forall i :: 0 <= i < |at| ==>
              SentUnder(SentFrames(frame, attemptAt, n)[i], frame, attemptAt(at[i]).id)
  {
    at := Connections(attemptAt, n);
    ConnectionsAreListed(attemptAt, n);
    SentFrameAt(frame, attemptAt, n, 0);
    forall i | 0 <= i < |at| ensures SentUnder(SentFrames(frame, attemptAt, n)[i], frame, attemptAt(at[i]).id) {
      SentFrameAt(frame, attemptAt, n, i);
      WithIdIsSent(frame, attemptAt(at[i]).id);
    }
  }

  /** A restored reply that is long enough to hold an id holds the client's, and is the response elsewhere. */
  lemma RestoreGivesClientId(response: seq<byte>, clrid: u32)
    ensures |Restore(response, clrid)| == |response|
    ensures |response| >= 9 ==> Restore(response, clrid)[1..5] == LE32(clrid) && SameOutsideId(Restore(response, clrid), response)
    ensures |response| < 9 ==> Restore(response, clrid) == response
  {
    if |response| >= 9 {
      WithIdLaws(response, clrid);
    }
  }
}
