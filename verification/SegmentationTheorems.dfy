/** What segmentation promises: when it returns, what it returns, and where it does not. */
module SegmentationTheorems {
  import opened Wrappers
  import opened JsonValues
  import opened Chunking
  import opened Segmentation
  import Base64

  /** Non-payload bytes of every frame that a message of `n` bytes can be cut into. */
  ghost predicate MetadataAtMost(wire: Wire, fields: map<string, Json>, n: nat, limit: nat) {
    forall id: nat, count: nat | id < count <= n :: |wire.encode(Segment(fields, [], id, count, n))| <= limit
  }

  ghost predicate MetadataAbove(wire: Wire, fields: map<string, Json>, n: nat, limit: nat) {
    forall id: nat, count: nat | id < count <= n :: |wire.encode(Segment(fields, [], id, count, n))| > limit
  }

  lemma FrameSize(wire: Wire, fields: map<string, Json>, chunk: Bytes, id: nat, count: nat, size: nat)
    requires wire.ChargesPlainStringsByLength()
    ensures |wire.encode(Segment(fields, chunk, id, count, size))|
            == |wire.encode(Segment(fields, [], id, count, size))| + (|chunk| + 2) / 3 * 4
  {
    var bare := (fields["type" := Str("client_message_chunk")] - {"message"})
      ["segment_id" := Int(id)]["segment_count" := Int(count)]["message_size_bytes" := Int(size)];
    Base64.EncodedIsPlain(chunk);
    Base64.EncodedLength(chunk);
    assert wire.Size(bare, "message_chunk_base64", Base64.Encode(chunk))
        == wire.Size(bare, "message_chunk_base64", "") + |Base64.Encode(chunk)|;
    assert Base64.Encode([]) == "";
  }

  lemma SmallChunksFit(wire: Wire, fields: map<string, Json>, message: Bytes, size: nat, limit: nat)
    requires wire.ChargesPlainStringsByLength() && size > 0 && |message| <= MAX_MESSAGE_BYTES
    requires MetadataAtMost(wire, fields, |message|, limit)
    requires limit + (size + 2) / 3 * 4 <= MAX_FRAME_BYTES
    ensures Fits(wire, Cut(fields, message, size))
  {
    hide Chunks, Flatten, Segment;
    var chunks, segments := Chunks(message, size), Cut(fields, message, size);
    ChunksPartition(message, size);
    CountAtMostLength(message, size);
    forall i | 0 <= i < |segments| ensures |wire.encode(segments[i])| <= MAX_FRAME_BYTES {
      FrameSize(wire, fields, chunks[i], i, |chunks|, |message|);
    }
  }

  lemma TradeOne(size: nat, count: nat)
    requires size > count
    ensures count * size <= (size - 1) * (count + 1)
  {
    assert (size - 1) * (count + 1) == size * count + size - count - 1;
  }

  /** While a chunk is longer than there are chunks, one more chunk makes every chunk shorter. */
  lemma RetryShrinks(message: Bytes, size: nat)
    requires size > 1 && size > |Chunks(message, size)|
    ensures ChunkSize(|message|, |Chunks(message, size)| + 1) < size
  {
    ChunksPartition(message, size);
    var count := |Chunks(message, size)|;
    TradeOne(size, count);
    DivCeilLeast(|message|, count + 1, size - 1);
  }

  /** Within the message limit, chunks above 8192 bytes always outnumber the chunks themselves. */
  lemma LongChunksAreFew(message: Bytes, size: nat)
    requires size > 8192 && |message| <= MAX_MESSAGE_BYTES
    ensures |Chunks(message, size)| < size
  {
    ChunksPartition(message, size);
    MulMonotone(8192, size, 8192);
    DivCeilLeast(|message|, size, 8192);
  }

  /** A cut that does not fit has long chunks, and the next one has shorter chunks. */
  lemma MisfitShrinks(wire: Wire, fields: map<string, Json>, message: Bytes, size: nat)
    requires wire.ChargesPlainStringsByLength() && size > 0 && |message| <= MAX_MESSAGE_BYTES
    requires MetadataAtMost(wire, fields, |message|, 142_676)
    requires !Fits(wire, Cut(fields, message, size))
    ensures size > 1 && ChunkSize(|message|, |Chunks(message, size)| + 1) < size
    ensures SaturatingAdd(|Chunks(message, size)|, 1) == |Chunks(message, size)| + 1
  {
    hide Chunks, Fits, Cut, ChunkSize;
    if size <= 8193 {
      SmallChunksFit(wire, fields, message, size, 142_676);
    }
    LongChunksAreFew(message, size);
    RetryShrinks(message, size);
    CountAtMostLength(message, size);
  }

  lemma {:induction false} RetryReturns(wire: Wire, fields: map<string, Json>, message: Bytes, count: nat)
    requires count > 0 && wire.ChargesPlainStringsByLength() && |message| <= MAX_MESSAGE_BYTES
    requires MetadataAtMost(wire, fields, |message|, 142_676)
    ensures var outcome := Retry(wire, fields, message, count);
            outcome.Finished? && outcome.result.Ok? && Fits(wire, outcome.result.value)
    decreases ChunkSize(|message|, count)
  {
    hide Chunks, Fits, Cut, ChunkSize, MetadataAtMost;
    var size := ChunkSize(|message|, count);
    if !Fits(wire, Cut(fields, message, size)) {
      MisfitShrinks(wire, fields, message, size);
      RetryReturns(wire, fields, message, |Chunks(message, size)| + 1);
    }
  }

  /** Termination: if no frame carries more than 142,676 bytes besides its payload, the call returns,
      and for a message that has to be cut every returned frame is within the frame limit. */
  lemma SegmentationTerminates(wire: Wire, envelope: Json)
    requires wire.ChargesPlainStringsByLength()
    requires forall message: Json | envelope.Get("message") == Some(message) ::
               MetadataAtMost(wire, envelope.fields, |wire.encode(message)|, 142_676)
    ensures SegmentationOf(wire, envelope).Finished?
    ensures SegmentationOf(wire, envelope).result != Err(MetadataTooLarge)
    ensures SegmentationOf(wire, envelope).result.Ok? ==> Fits(wire, SegmentationOf(wire, envelope).result.value)
  {
    match envelope.Get("message")
    case None =>
    case Some(message) =>
      var bytes := wire.encode(message);
      if |bytes| <= MAX_MESSAGE_BYTES {
        RetryReturns(wire, envelope.fields, bytes, FirstCount(|bytes|));
      }
  }

  lemma FirstChunkSize(n: nat)
    requires 0 < n <= MAX_MESSAGE_BYTES
    ensures ChunkSize(n, FirstCount(n)) <= SEGMENT_TARGET_BYTES && FirstCount(n) <= MAX_SEGMENTS
  {
    DivCeilLeast(n, FirstCount(n), SEGMENT_TARGET_BYTES);
    DivCeilLeast(n, SEGMENT_TARGET_BYTES, MAX_SEGMENTS);
  }

  lemma FirstPassArithmetic(message: Bytes)
    requires 0 < |message| <= MAX_MESSAGE_BYTES
    ensures var size := ChunkSize(|message|, FirstCount(|message|));
            size <= SEGMENT_TARGET_BYTES && |Chunks(message, size)| == FirstCount(|message|) <= MAX_SEGMENTS
  {
    hide Chunks, Flatten, EvenPieces;
    var n, count := |message|, FirstCount(|message|);
    var size := ChunkSize(n, count);
    FirstChunkSize(n);
    ChunksPartition(message, size);
    DivCeilLeast(n, size, count);
    DivCeilAntitone(n, size, SEGMENT_TARGET_BYTES);
  }

  /** First pass: with at most 17,064 non-payload bytes a frame, the first cut is already returned,
      in ceil(n / 100 KiB) <= 656 segments. */
  lemma FirstPassSuffices(wire: Wire, fields: map<string, Json>, message: Bytes)
    requires wire.ChargesPlainStringsByLength() && 0 < |message| <= MAX_MESSAGE_BYTES
    requires MetadataAtMost(wire, fields, |message|, 17_064)
    ensures var count := FirstCount(|message|);
            var segments := Cut(fields, message, ChunkSize(|message|, count));
            && Retry(wire, fields, message, count) == Finished(Ok(segments))
            && Fits(wire, segments)
            && |segments| == DivCeil(|message|, SEGMENT_TARGET_BYTES) <= MAX_SEGMENTS
  {
    FirstPassArithmetic(message);
    SmallChunksFit(wire, fields, message, ChunkSize(|message|, FirstCount(|message|)), 17_064);
  }

  const SEGMENT_FIELDS: set<string> :=
    {"type", "segment_id", "segment_count", "message_size_bytes", "message_chunk_base64"}

  /** The bytes a segment carries. */
  function Payload(segment: Json): Bytes {
    match segment.StringField("message_chunk_base64")
    case None => []
    case Some(text) =>
      match Base64.Decode(text)
      case None => []
      case Some(bytes) => bytes
  }

  function Payloads(segments: seq<Json>): seq<Bytes> {
    seq(|segments|, i requires 0 <= i < |segments| => Payload(segments[i]))
  }

  /** The segments carry the message exactly once, in order, and nothing else has changed. */
  ghost predicate ExactSplit(fields: map<string, Json>, message: Bytes, segments: seq<Json>) {
    && (exists size: nat :: EvenPieces(Payloads(segments), size))
    && Flatten(Payloads(segments)) == message
    && forall i | 0 <= i < |segments| :: NumberedPart(fields, |message|, segments[i], i, |segments|)
  }

  ghost predicate NumberedPart(fields: map<string, Json>, size: nat, segment: Json, id: nat, count: nat) {
    && segment.Obj?
    && segment.Get("type") == Some(Str("client_message_chunk"))
    && segment.Get("segment_id") == Some(Int(id))
    && segment.Get("segment_count") == Some(Int(count))
    && segment.Get("message_size_bytes") == Some(Int(size))
    && segment.fields.Keys == fields.Keys - {"message"} + SEGMENT_FIELDS
    && forall name | name in fields && name != "message" && name !in SEGMENT_FIELDS ::
         segment.fields[name] == fields[name]
  }

  lemma SegmentIsNumbered(fields: map<string, Json>, chunk: Bytes, id: nat, count: nat, size: nat)
    ensures NumberedPart(fields, size, Segment(fields, chunk, id, count, size), id, count)
    ensures Payload(Segment(fields, chunk, id, count, size)) == chunk
  {
    Base64.DecodeEncode(chunk);
  }

  lemma CutIsExact(fields: map<string, Json>, message: Bytes, size: nat)
    requires size > 0
    ensures Payloads(Cut(fields, message, size)) == Chunks(message, size)
    ensures ExactSplit(fields, message, Cut(fields, message, size))
  {
    var chunks, segments := Chunks(message, size), Cut(fields, message, size);
    ChunksPartition(message, size);
    forall i | 0 <= i < |segments|
      ensures Payloads(segments)[i] == chunks[i]
      ensures NumberedPart(fields, |message|, segments[i], i, |segments|)
    {
      SegmentIsNumbered(fields, chunks[i], i, |chunks|, |message|);
    }
    assert Payloads(segments) == chunks;
    assert EvenPieces(Payloads(segments), size);
  }

  /** Exact partition: whatever a retry returns is an exact split of the message. */
  lemma {:induction false} ReturnedSegmentsAreExact(wire: Wire, fields: map<string, Json>, message: Bytes, count: nat)
    requires count > 0
    requires Retry(wire, fields, message, count).Finished? && Retry(wire, fields, message, count).result.Ok?
    ensures ExactSplit(fields, message, Retry(wire, fields, message, count).result.value)
    decreases ChunkSize(|message|, count)
  {
    var size := ChunkSize(|message|, count);
    var segments := Cut(fields, message, size);
    if Fits(wire, segments) {
      CutIsExact(fields, message, size);
    } else {
      ReturnedSegmentsAreExact(wire, fields, message, SaturatingAdd(|segments|, 1));
    }
  }

  /** Whatever a retry returns is one cut, and it fits. */
  lemma {:induction false} ReturnedIsCut(wire: Wire, fields: map<string, Json>, message: Bytes, count: nat)
    returns (size: nat)
    requires count > 0
    requires Retry(wire, fields, message, count).Finished? && Retry(wire, fields, message, count).result.Ok?
    ensures size > 0 && Retry(wire, fields, message, count).result.value == Cut(fields, message, size)
    ensures Fits(wire, Cut(fields, message, size))
    decreases ChunkSize(|message|, count)
  {
    hide Fits, Chunks, Segment;
    size := ChunkSize(|message|, count);
    if !Fits(wire, Cut(fields, message, size)) {
      size := ReturnedIsCut(wire, fields, message, SaturatingAdd(|Cut(fields, message, size)|, 1));
    }
  }

  lemma {:induction false} NoLimitError(wire: Wire, fields: map<string, Json>, message: Bytes, count: nat)
    requires 4 <= |message| <= MAX_MESSAGE_BYTES && 0 < count < |message|
    ensures Retry(wire, fields, message, count) != Finished(Err(MetadataTooLarge))
    decreases ChunkSize(|message|, count)
  {
    var n, size := |message|, ChunkSize(|message|, count);
    assert size >= 2;
    CountAtMostLength(message, size);
    ChunksPartition(message, size);
    DivCeilAntitone(n, 2, size);
    var next := |Chunks(message, size)| + 1;
    if ChunkSize(n, next) < size {
      NoLimitError(wire, fields, message, next);
    }
  }

  /** The loop's own limit error needs a message of at most three bytes; any longer message whose
      frames can never fit makes the loop spin instead. */
  lemma LimitErrorNeedsTinyMessage(wire: Wire, fields: map<string, Json>, message: Bytes)
    requires 4 <= |message| <= MAX_MESSAGE_BYTES
    ensures Retry(wire, fields, message, FirstCount(|message|)) != Finished(Err(MetadataTooLarge))
    ensures wire.ChargesPlainStringsByLength() && MetadataAbove(wire, fields, |message|, MAX_FRAME_BYTES)
            ==> Retry(wire, fields, message, FirstCount(|message|)).Spins?
  {
    DivCeilAntitone(|message|, 2, SEGMENT_TARGET_BYTES);
    NoLimitError(wire, fields, message, FirstCount(|message|));
    if wire.ChargesPlainStringsByLength() && MetadataAbove(wire, fields, |message|, MAX_FRAME_BYTES) {
      NeverReturned(wire, fields, message, FirstCount(|message|));
    }
  }

  lemma {:induction false} NeverReturned(wire: Wire, fields: map<string, Json>, message: Bytes, count: nat)
    requires count > 0 && 0 < |message| <= MAX_MESSAGE_BYTES
    requires wire.ChargesPlainStringsByLength() && MetadataAbove(wire, fields, |message|, MAX_FRAME_BYTES)
    ensures Retry(wire, fields, message, count).Spins?
            || Retry(wire, fields, message, count) == Finished(Err(MetadataTooLarge))
    decreases ChunkSize(|message|, count)
  {
    var size := ChunkSize(|message|, count);
    var chunks, segments := Chunks(message, size), Cut(fields, message, size);
    ChunksPartition(message, size);
    CountAtMostLength(message, size);
    FrameSize(wire, fields, chunks[0], 0, |chunks|, |message|);
    assert segments[0] == Segment(fields, chunks[0], 0, |chunks|, |message|);
    assert !Fits(wire, segments);
    var next := |chunks| + 1;
    if size != 1 && ChunkSize(|message|, next) < size {
      NeverReturned(wire, fields, message, next);
    }
  }

  // ---------- A message on which it spins ----------

  lemma LongPlainMember(wire: Wire, fields: map<string, Json>, name: string, text: string)
    requires wire.ChargesPlainStringsByLength() && IsPlain(text)
    requires name in fields && fields[name] == Str(text)
    ensures |wire.encode(Obj(fields))| >= |text|
  {
    assert fields[name := Str(text)] == fields;
    assert wire.Size(fields, name, text) == wire.Size(fields, name, "") + |text|;
  }

  lemma LongClientIdFillsFrames(wire: Wire, fields: map<string, Json>, n: nat, text: string, limit: nat)
    requires wire.ChargesPlainStringsByLength() && IsPlain(text) && |text| > limit
    requires "client_id" in fields && fields["client_id"] == Str(text)
    ensures MetadataAbove(wire, fields, n, limit)
  {
    hide IsPlain, Base64.Encode, wire.ChargesPlainStringsByLength;
    forall id: nat, count: nat | id < count <= n
      ensures |wire.encode(Segment(fields, [], id, count, n))| > limit
    {
      LongPlainMember(wire, Segment(fields, [], id, count, n).fields, "client_id", text);
    }
  }

  /** The loop does spin: with a plain client id longer than a frame, every message of 4 bytes to 64 MiB
      sends it round for ever. */
  lemma LongClientIdSpins(wire: Wire, envelope: Json, message: Json, text: string)
    requires wire.ChargesPlainStringsByLength()
    requires envelope.StringField("type") == Some("client_message") && envelope.Get("message") == Some(message)
    requires envelope.StringField("client_id") == Some(text) && IsPlain(text) && |text| > MAX_FRAME_BYTES
    requires 4 <= |wire.encode(message)| <= MAX_MESSAGE_BYTES
    ensures SegmentationOf(wire, envelope).Spins?
    ensures NeverLeft(wire, envelope.fields, wire.encode(message), FirstCount(|wire.encode(message)|))
  {
    hide IsPlain, wire.ChargesPlainStringsByLength, MetadataAbove, NeverLeft, Retry;
    var bytes := wire.encode(message);
    LongPlainMember(wire, envelope.fields, "client_id", text);
    LongClientIdFillsFrames(wire, envelope.fields, |bytes|, text, MAX_FRAME_BYTES);
    LimitErrorNeedsTinyMessage(wire, envelope.fields, bytes);
    RetryIsExact(wire, envelope.fields, bytes, FirstCount(|bytes|));
  }

  // ---------- Exactly when it returns ----------

  /** From one count to another, one more chunk always makes the chunks shorter. */
  ghost predicate KeepsShrinking(n: nat, from: nat, to: nat)
    requires from > 0
  {
    forall count: nat | from <= count < to :: ChunkSize(n, count + 1) < ChunkSize(n, count)
  }

  predicate GoodEnough(wire: Wire, fields: map<string, Json>, message: Bytes, count: nat)
    requires count > 0
  {
    var size := ChunkSize(|message|, count);
    Fits(wire, Cut(fields, message, size)) || size == 1
  }

  /** Some cut is good enough before the chunk size stops falling. */
  ghost predicate ReachesGoodEnough(wire: Wire, fields: map<string, Json>, message: Bytes, count: nat)
    requires count > 0
  {
    exists good: nat :: count <= good && KeepsShrinking(|message|, count, good) && GoodEnough(wire, fields, message, good)
  }

  /** If a count is met exactly and one more chunk is shorter, the next count is met exactly too. */
  lemma NextCountIsMet(n: nat, count: nat)
    requires 0 < n && 0 < count && DivCeil(n, ChunkSize(n, count)) == count
    requires ChunkSize(n, count + 1) < ChunkSize(n, count)
    ensures DivCeil(n, ChunkSize(n, count + 1)) == count + 1
  {
    hide DivCeil;
    var size := ChunkSize(n, count + 1);
    var met := DivCeil(n, size);
    DivCeilLeast(n, size, count + 1);
    if met <= count {
      DivCeilLeast(n, met, size);
      DivCeilAntitone(n, met, count);
    }
  }

  lemma OneCountOn(wire: Wire, fields: map<string, Json>, message: Bytes, count: nat)
    requires count > 0 && !GoodEnough(wire, fields, message, count)
    ensures ReachesGoodEnough(wire, fields, message, count)
            <==> ChunkSize(|message|, count + 1) < ChunkSize(|message|, count)
                 && ReachesGoodEnough(wire, fields, message, count + 1)
  {
    hide GoodEnough, ChunkSize;
    var n := |message|;
    if ReachesGoodEnough(wire, fields, message, count) {
      var good: nat :| count <= good && KeepsShrinking(n, count, good) && GoodEnough(wire, fields, message, good);
      assert KeepsShrinking(n, count + 1, good);
    }
    if ChunkSize(n, count + 1) < ChunkSize(n, count) && ReachesGoodEnough(wire, fields, message, count + 1) {
      var good: nat :| count + 1 <= good && KeepsShrinking(n, count + 1, good) && GoodEnough(wire, fields, message, good);
      assert KeepsShrinking(n, count, good);
    }
  }

  lemma {:induction false} RetryReturnsIff(wire: Wire, fields: map<string, Json>, message: Bytes, count: nat)
    requires count > 0 && 0 < |message| <= MAX_MESSAGE_BYTES
    requires DivCeil(|message|, ChunkSize(|message|, count)) == count
    ensures Retry(wire, fields, message, count).Finished? <==> ReachesGoodEnough(wire, fields, message, count)
    decreases ChunkSize(|message|, count)
  {
    hide ReachesGoodEnough, Fits, Cut;
    var n, size := |message|, ChunkSize(|message|, count);
    if GoodEnough(wire, fields, message, count) {
      AtOnce(wire, fields, message, count);
    } else {
      ChunksPartition(message, size);
      CountAtMostLength(message, size);
      OneCountOn(wire, fields, message, count);
      if ChunkSize(n, count + 1) < size {
        NextCountIsMet(n, count);
        RetryReturnsIff(wire, fields, message, count + 1);
      }
    }
  }

  lemma AtOnce(wire: Wire, fields: map<string, Json>, message: Bytes, count: nat)
    requires count > 0 && GoodEnough(wire, fields, message, count)
    ensures ReachesGoodEnough(wire, fields, message, count)
  {
    assert KeepsShrinking(|message|, count, count);
  }

  /** The retry loop, entered with its own first count, returns if and only if some cut is good enough
      at a count that is reached while the chunk size still falls; otherwise it never returns. */
  lemma LoopReturnsIff(wire: Wire, fields: map<string, Json>, message: Bytes)
    requires 0 < |message| <= MAX_MESSAGE_BYTES
    ensures var count := FirstCount(|message|);
            if ReachesGoodEnough(wire, fields, message, count)
            then exists result :: LeftWith(wire, fields, message, count, result)
            else NeverLeft(wire, fields, message, count)
  {
    hide ReachesGoodEnough, Retry, LeftWith, NeverLeft;
    var count := FirstCount(|message|);
    FirstPassArithmetic(message);
    ChunksPartition(message, ChunkSize(|message|, count));
    RetryReturnsIff(wire, fields, message, count);
    RetryIsExact(wire, fields, message, count);
    if Retry(wire, fields, message, count).Finished? {
      assert LeftWith(wire, fields, message, count, Retry(wire, fields, message, count).result);
    }
  }

  // ---------- Everything the call can return ----------

  /** Frames: up to 100 KiB the envelope goes out as it is; above, its own message goes out as an exact
      split, every frame within 150 KiB, and there is a frame unless the message has no bytes. */
  lemma FramesAreExact(wire: Wire, envelope: Json)
    requires SegmentationOf(wire, envelope).Finished? && SegmentationOf(wire, envelope).result.Ok?
    ensures var frames := SegmentationOf(wire, envelope).result.value;
            if |wire.encode(envelope)| <= 102_400 then frames == [envelope]
            else
              && envelope.StringField("type") == Some("client_message") && envelope.Get("message").Some?
              && var bytes := wire.encode(envelope.Get("message").value);
                 && |bytes| <= 67_108_864
                 && ExactSplit(envelope.fields, bytes, frames)
                 && (forall i | 0 <= i < |frames| :: |wire.encode(frames[i])| <= 153_600)
                 && (bytes != [] ==> frames != [])
  {
    hide Cut, ChunkSize, Retry, FirstCount, ExactSplit;
    if |wire.encode(envelope)| > 102_400 {
      var bytes := wire.encode(envelope.Get("message").value);
      var size := ReturnedIsCut(wire, envelope.fields, bytes, FirstCount(|bytes|));
      CutIsExact(envelope.fields, bytes, size);
      assert bytes != [] ==> Chunks(bytes, size) != [];
    }
  }

  /** Errors before the loop: each has its one cause. */
  lemma EarlyErrorsAreExact(wire: Wire, envelope: Json)
    ensures var outcome := SegmentationOf(wire, envelope);
            var large := |wire.encode(envelope)| > 102_400;
            var isMessage := envelope.StringField("type") == Some("client_message");
            var message := envelope.Get("message");
            && (outcome == Finished(Err(OnlyClientMessages)) <==> large && !isMessage)
            && (outcome == Finished(Err(NoMessage)) <==> large && isMessage && message.None?)
            && (outcome == Finished(Err(MessageTooLarge)) <==>
                  large && isMessage && message.Some? && |wire.encode(message.value)| > 67_108_864)
  {
    hide Cut;
    if envelope.Get("message").Some? {
      var bytes := wire.encode(envelope.Get("message").value);
      LoopErrors(wire, envelope.fields, bytes, FirstCount(|bytes|));
    }
  }

  lemma {:induction false} LoopErrors(wire: Wire, fields: map<string, Json>, message: Bytes, count: nat)
    requires count > 0
    ensures var outcome := Retry(wire, fields, message, count);
            outcome.Finished? && outcome.result.Err? ==> outcome.result.error == MetadataTooLarge
    decreases ChunkSize(|message|, count)
  {
    hide Fits, Chunks, Segment;
    var size := ChunkSize(|message|, count);
    if !Fits(wire, Cut(fields, message, size)) && size != 1 {
      var next := SaturatingAdd(|Cut(fields, message, size)|, 1);
      if ChunkSize(|message|, next) < size {
        LoopErrors(wire, fields, message, next);
      }
    }
  }
}
