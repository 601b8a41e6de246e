/** Outgoing messages: an oversized client message is cut into base64 segments, and the cut is made
    finer until every frame fits. */
module Segmentation {
  import opened Wrappers
  import opened JsonValues
  import opened Chunking
  import Base64

  const SEGMENT_TARGET_BYTES: nat := 100 * 1024
  const MAX_FRAME_BYTES: nat := 150 * 1024
  const MAX_MESSAGE_BYTES: nat := 64 * 1024 * 1024
  // MAX_MESSAGE_BYTES over SEGMENT_TARGET_BYTES, rounded up; see FirstPassSuffices.
  const MAX_SEGMENTS: nat := 656

  datatype SegmentError =
    | OnlyClientMessages
    | NoMessage
    | MessageTooLarge
    | MetadataTooLarge

  /** How a call ends.  `Spins` is the retry loop going round for ever. */
  datatype SegmentOutcome = Finished(result: Result<seq<Json>, SegmentError>) | Spins

  function AtLeastOne(n: nat): nat {
    if n == 0 then 1 else n
  }

  function ChunkSize(n: nat, count: nat): (size: nat)
    requires count > 0
    ensures size > 0
  {
    AtLeastOne(DivCeil(n, count))
  }

  function FirstCount(n: nat): (count: nat)
    ensures count > 0
  {
    AtLeastOne(DivCeil(n, SEGMENT_TARGET_BYTES))
  }

  /** One segment: the envelope without its message, relabelled and carrying one piece. */
  function Segment(fields: map<string, Json>, chunk: Bytes, id: nat, count: nat, size: nat): Json {
    Obj((fields["type" := Str("client_message_chunk")] - {"message"})
        ["segment_id" := Int(id)]
        ["segment_count" := Int(count)]
        ["message_size_bytes" := Int(size)]
        ["message_chunk_base64" := Str(Base64.Encode(chunk))])
  }

  function Cut(fields: map<string, Json>, message: Bytes, size: nat): (segments: seq<Json>)
    requires size > 0
    ensures |segments| == |Chunks(message, size)|
  {
    var chunks := Chunks(message, size);
    seq(|chunks|, i requires 0 <= i < |chunks| => Segment(fields, chunks[i], i, |chunks|, |message|))
  }

  predicate Fits(wire: Wire, segments: seq<Json>) {
    forall i | 0 <= i < |segments| :: |wire.encode(segments[i])| <= MAX_FRAME_BYTES
  }

  /** What the retry loop comes to when it is entered with a segment count. */
  function Retry(wire: Wire, fields: map<string, Json>, message: Bytes, count: nat): SegmentOutcome
    requires count > 0
    decreases ChunkSize(|message|, count)
  {
    var size := ChunkSize(|message|, count);
    var segments := Cut(fields, message, size);
    if Fits(wire, segments) then Finished(Ok(segments))
    else if size == 1 then Finished(Err(MetadataTooLarge))
    else
      var next := SaturatingAdd(|segments|, 1);
      if ChunkSize(|message|, next) < size then Retry(wire, fields, message, next) else Spins
  }

  function SegmentationOf(wire: Wire, envelope: Json): SegmentOutcome {
    if |wire.encode(envelope)| <= SEGMENT_TARGET_BYTES then Finished(Ok([envelope]))
    else if envelope.StringField("type") != Some("client_message") then Finished(Err(OnlyClientMessages))
    else
      match envelope.Get("message")
      case None => Finished(Err(NoMessage))
      case Some(message) =>
        var bytes := wire.encode(message);
        if |bytes| > MAX_MESSAGE_BYTES then Finished(Err(MessageTooLarge))
        else Retry(wire, envelope.fields, bytes, FirstCount(|bytes|))
  }

  /** The retry loop itself.  It is only callable where it does return. */
  method SegmentClientMessage(wire: Wire, envelope: Json)
    returns (r: Result<seq<Json>, SegmentError>)
    requires SegmentationOf(wire, envelope).Finished?
    ensures SegmentationOf(wire, envelope) == Finished(r)
  {
    if |wire.encode(envelope)| <= SEGMENT_TARGET_BYTES {
      return Ok([envelope]);
    }
    if envelope.StringField("type") != Some("client_message") {
      return Err(OnlyClientMessages);
    }
    var message := envelope.Get("message");
    if message.None? {
      return Err(NoMessage);
    }
    var bytes := wire.encode(message.value);
    if |bytes| > MAX_MESSAGE_BYTES {
      return Err(MessageTooLarge);
    }
    var segmentCount := AtLeastOne(DivCeil(|bytes|, SEGMENT_TARGET_BYTES));
    while true
      invariant segmentCount > 0
      invariant Retry(wire, envelope.fields, bytes, segmentCount) == SegmentationOf(wire, envelope)
      decreases ChunkSize(|bytes|, segmentCount)
    {
      var chunkSize := AtLeastOne(DivCeil(|bytes|, segmentCount));
      var segments := Cut(envelope.fields, bytes, chunkSize);
      if Fits(wire, segments) {
        return Ok(segments);
      }
      if chunkSize == 1 {
        return Err(MetadataTooLarge);
      }
      segmentCount := SaturatingAdd(|segments|, 1);
    }
  }

  // ---------- When the loop returns ----------

  /** The state at the head of the loop, or how it was left. */
  datatype Loop = Looping(count: nat) | Left(result: Result<seq<Json>, SegmentError>)

  function Pass(wire: Wire, fields: map<string, Json>, message: Bytes, count: nat): (next: Loop)
    requires count > 0
    ensures next.Looping? ==> next.count > 0
  {
    var size := ChunkSize(|message|, count);
    var segments := Cut(fields, message, size);
    if Fits(wire, segments) then Left(Ok(segments))
    else if size == 1 then Left(Err(MetadataTooLarge))
    else Looping(SaturatingAdd(|segments|, 1))
  }

  function After(wire: Wire, fields: map<string, Json>, message: Bytes, count: nat, passes: nat): Loop
    requires count > 0
    decreases passes
  {
    if passes == 0 then Looping(count)
    else
      match Pass(wire, fields, message, count)
      case Looping(next) => After(wire, fields, message, next, passes - 1)
      case Left(result) => Left(result)
  }

  /** A retry never makes the chunks larger, so a chunk size that does not fall stays put. */
  lemma ChunkSizeNeverGrows(message: Bytes, size: nat)
    requires 0 < size
    ensures var count := |Chunks(message, size)|;
            ChunkSize(|message|, count + 1) <= size
  {
    ChunksPartition(message, size);
    var count := |Chunks(message, size)|;
    MulMonotone(count, count + 1, size);
    DivCeilLeast(|message|, count + 1, size);
  }

  lemma {:induction false} StuckStaysStuck(wire: Wire, fields: map<string, Json>, message: Bytes, count: nat, passes: nat)
    requires count > 0
    requires Pass(wire, fields, message, count) == Looping(count)
    ensures After(wire, fields, message, count, passes).Looping?
  {
    if passes > 0 {
      StuckStaysStuck(wire, fields, message, count, passes - 1);
    }
  }

  ghost predicate NeverLeft(wire: Wire, fields: map<string, Json>, message: Bytes, count: nat)
    requires count > 0
  {
    forall passes: nat :: After(wire, fields, message, count, passes).Looping?
  }

  ghost predicate LeftWith(wire: Wire, fields: map<string, Json>, message: Bytes, count: nat,
                           result: Result<seq<Json>, SegmentError>)
    requires count > 0
  {
    exists passes: nat :: After(wire, fields, message, count, passes) == Left(result)
  }

  /** Going round once changes nothing about how the loop ends. */
  lemma PassShifts(wire: Wire, fields: map<string, Json>, message: Bytes, count: nat, next: nat)
    requires count > 0 && next > 0
    requires Pass(wire, fields, message, count) == Looping(next)
    ensures NeverLeft(wire, fields, message, next) ==> NeverLeft(wire, fields, message, count)
    ensures forall result :: LeftWith(wire, fields, message, next, result)
                             ==> LeftWith(wire, fields, message, count, result)
  {
    if NeverLeft(wire, fields, message, next) {
      forall passes: nat ensures After(wire, fields, message, count, passes).Looping? {
        if passes > 0 {
          assert After(wire, fields, message, next, passes - 1).Looping?;
        }
      }
    }
    forall result | LeftWith(wire, fields, message, next, result)
      ensures LeftWith(wire, fields, message, count, result)
    {
      var passes: nat :| After(wire, fields, message, next, passes) == Left(result);
      assert After(wire, fields, message, count, passes + 1) == Left(result);
    }
  }

  /** `Spins` is exact: the loop is never left when it is reported, and is left with the reported
      result when it is not. */
  lemma {:induction false} RetryIsExact(wire: Wire, fields: map<string, Json>, message: Bytes, count: nat)
    requires count > 0 && |message| <= MAX_MESSAGE_BYTES
    ensures var outcome := Retry(wire, fields, message, count);
            if outcome.Spins? then NeverLeft(wire, fields, message, count)
            else LeftWith(wire, fields, message, count, outcome.result)
    decreases ChunkSize(|message|, count)
  {
    var outcome := Retry(wire, fields, message, count);
    var size := ChunkSize(|message|, count);
    match Pass(wire, fields, message, count)
    case Left(result) =>
      assert After(wire, fields, message, count, 1) == Left(outcome.result);
    case Looping(next) =>
      CountAtMostLength(message, size);
      ChunkSizeNeverGrows(message, size);
      PassShifts(wire, fields, message, count, next);
      if ChunkSize(|message|, next) < size {
        RetryIsExact(wire, fields, message, next);
      } else {
        forall passes: nat ensures After(wire, fields, message, next, passes).Looping? {
          StuckStaysStuck(wire, fields, message, next, passes);
        }
      }
  }

  lemma CountAtMostLength(message: Bytes, size: nat)
    requires size > 0 && |message| <= MAX_MESSAGE_BYTES
    ensures |Chunks(message, size)| <= |message|
    ensures SaturatingAdd(|Chunks(message, size)|, 1) == |Chunks(message, size)| + 1
  {
    ChunksPartition(message, size);
    MulMonotone(1, size, |message|);
    DivCeilLeast(|message|, size, |message|);
  }
}
