/** Incoming messages: chunks of several messages arrive in any order and are put back together. */
module Reassembler {
  import opened Wrappers
  import opened JsonValues
  import opened Chunking
  import opened Segmentation
  import Base64
  import Decimals

  const MAX_CONCURRENT_ASSEMBLIES: nat := 8
  const MAX_BUFFERED_ASSEMBLY_BYTES: nat := MAX_MESSAGE_BYTES

  datatype RelayError =
    | FrameTooLarge
    | NotAnObject
    | MissingField(name: string)
    | InvalidMetadata
    | InvalidBase64
    | InvalidDecodedSize
    | TooManyAssemblies
    | MetadataChanged
    | SegmentChanged
    | SizeLimitExceeded
    | WrongSize
    | InvalidPayload
    | PayloadNotObject
    | WrongTarget
    | NoSequence
    | SequenceGap
    | NoPayload
    | NoPendingRequest

  datatype Assembly = Assembly(
    chunks: seq<Option<Bytes>>,
    first: map<string, Json>,
    messageSize: nat,
    receivedBytes: nat)

  /** The partial assemblies by key, and the bytes they hold together. */
  datatype Buffer = Buffer(assemblies: map<string, Assembly>, bufferedBytes: nat)

  const EMPTY_BUFFER: Buffer := Buffer(map[], 0)

  function AssemblyKey(environment: string, stream: string, sequence: nat): string {
    environment + ":" + stream + ":" + Decimals.Render(sequence)
  }

  // ---------- Reading one chunk ----------

  datatype Header = Header(id: nat, count: nat, size: nat, key: string, chunk: Bytes)

  function StringOf(envelope: Json, name: string): Result<string, RelayError> {
    match envelope.StringField(name)
    case Some(text) => Ok(text)
    case None => Err(MissingField(name))
  }

  function NumberOf(envelope: Json, name: string): Result<nat, RelayError> {
    match envelope.U64Field(name)
    case Some(number) => Ok(number)
    case None => Err(MissingField(name))
  }

  predicate MetadataValid(id: nat, count: nat, size: nat) {
    1 < count <= MAX_SEGMENTS && id < count && 0 < size <= MAX_MESSAGE_BYTES
  }

  function ReadNumbers(envelope: Json): (r: Result<(nat, nat, nat), RelayError>)
    ensures r.Ok? ==> MetadataValid(r.value.0, r.value.1, r.value.2)
  {
    match (NumberOf(envelope, "segment_id"), NumberOf(envelope, "segment_count"), NumberOf(envelope, "message_size_bytes"))
    case (Err(e), _, _) => Err(e)
    case (Ok(_), Err(e), _) => Err(e)
    case (Ok(_), Ok(_), Err(e)) => Err(e)
    case (Ok(id), Ok(count), Ok(size)) =>
      if MetadataValid(id, count, size) then Ok((id, count, size)) else Err(InvalidMetadata)
  }

  function ReadKey(envelope: Json): Result<string, RelayError> {
    match (StringOf(envelope, "env_id"), StringOf(envelope, "stream_id"), NumberOf(envelope, "seq_id"))
    case (Err(e), _, _) => Err(e)
    case (Ok(_), Err(e), _) => Err(e)
    case (Ok(_), Ok(_), Err(e)) => Err(e)
    case (Ok(environment), Ok(stream), Ok(sequence)) => Ok(AssemblyKey(environment, stream, sequence))
  }

  function ReadChunk(envelope: Json, size: nat): (r: Result<Bytes, RelayError>)
    ensures r.Ok? ==> 0 < |r.value| <= size
  {
    match StringOf(envelope, "message_chunk_base64")
    case Err(e) => Err(e)
    case Ok(text) =>
      match Base64.Decode(text)
      case None => Err(InvalidBase64)
      case Some(chunk) => if 0 < |chunk| <= size then Ok(chunk) else Err(InvalidDecodedSize)
  }

  /** Every check that is made before any state is touched. */
  function ReadHeader(wire: Wire, envelope: Json): (r: Result<Header, RelayError>)
    ensures r.Ok? ==> envelope.Obj? && MetadataValid(r.value.id, r.value.count, r.value.size)
    ensures r.Ok? ==> 0 < |r.value.chunk| <= r.value.size
    ensures r.Ok? ==> ReadKey(envelope) == Ok(r.value.key)
  {
    if |wire.encode(envelope)| > MAX_FRAME_BYTES then Err(FrameTooLarge)
    else if !envelope.Obj? then Err(NotAnObject)
    else
      match ReadNumbers(envelope)
      case Err(e) => Err(e)
      case Ok((id, count, size)) =>
        match ReadKey(envelope)
        case Err(e) => Err(e)
        case Ok(key) =>
          match ReadChunk(envelope, size)
          case Err(e) => Err(e)
          case Ok(chunk) => Ok(Header(id, count, size, key, chunk))
  }

  // ---------- Storing it ----------

  predicate Complete(chunks: seq<Option<Bytes>>) {
    forall i | 0 <= i < |chunks| :: chunks[i].Some?
  }

  /** The bytes present, in order. */
  function Collected(chunks: seq<Option<Bytes>>): Bytes {
    if |chunks| == 0 then []
    else (match chunks[0] case Some(chunk) => chunk case None => []) + Collected(chunks[1..])
  }

  function NewAssembly(header: Header, fields: map<string, Json>): Assembly {
    Assembly(seq(header.count, _ => None), fields, header.size, 0)
  }

  function Entry(buffer: Buffer, header: Header, fields: map<string, Json>): Assembly {
    if header.key in buffer.assemblies then buffer.assemblies[header.key] else NewAssembly(header, fields)
  }

  /** Dropping one assembly gives back the bytes it held. */
  function Without(buffer: Buffer, key: string): Buffer {
    if key in buffer.assemblies then
      Buffer(buffer.assemblies - {key},
             SaturatingSub(buffer.bufferedBytes, buffer.assemblies[key].receivedBytes))
    else buffer
  }

  predicate TooMany(buffer: Buffer, header: Header) {
    header.key !in buffer.assemblies && |buffer.assemblies| >= MAX_CONCURRENT_ASSEMBLIES
  }

  predicate Agrees(entry: Assembly, header: Header) {
    |entry.chunks| == header.count && entry.messageSize == header.size
  }

  predicate OverBuffer(buffer: Buffer, header: Header) {
    SaturatingAdd(buffer.bufferedBytes, |header.chunk|) > MAX_BUFFERED_ASSEMBLY_BYTES
  }

  /** The buffer after one chunk, and the assembly it completed, if it did. */
  function Accept(buffer: Buffer, header: Header, fields: map<string, Json>)
    : (Buffer, Result<Option<Assembly>, RelayError>)
    requires MetadataValid(header.id, header.count, header.size)
  {
    var entry := Entry(buffer, header, fields);
    if TooMany(buffer, header) then (buffer, Err(TooManyAssemblies))
    else if !Agrees(entry, header) then (Without(buffer, header.key), Err(MetadataChanged))
    else if entry.chunks[header.id].Some? then
      if entry.chunks[header.id].value != header.chunk then (Without(buffer, header.key), Err(SegmentChanged))
      else Settle(buffer, header.key, entry)
    else if SaturatingAdd(entry.receivedBytes, |header.chunk|) > entry.messageSize || OverBuffer(buffer, header) then
      (Without(buffer, header.key), Err(SizeLimitExceeded))
    else
      Settle(buffer.(bufferedBytes := buffer.bufferedBytes + |header.chunk|), header.key, Grown(entry, header))
  }

  function Grown(entry: Assembly, header: Header): Assembly
    requires header.id < |entry.chunks|
  {
    entry.(receivedBytes := entry.receivedBytes + |header.chunk|,
           chunks := entry.chunks[header.id := Some(header.chunk)])
  }

  /** Keep an incomplete assembly; take a complete one out. */
  function Settle(buffer: Buffer, key: string, entry: Assembly): (Buffer, Result<Option<Assembly>, RelayError>) {
    var kept := buffer.(assemblies := buffer.assemblies[key := entry]);
    if Complete(entry.chunks) then (Without(kept, key), Ok(Some(entry))) else (kept, Ok(None))
  }

  const COPIED_FIELDS: set<string> := {"client_id", "seq_id", "stream_id", "cursor", "env_id", "skip_history"}

  function ServerMessage(first: map<string, Json>, message: Json): Json {
    Obj((map name | name in COPIED_FIELDS && name in first :: first[name])
        ["type" := Str("server_message")]["message" := message])
  }

  function Rebuild(wire: Wire, assembly: Assembly): Result<Json, RelayError> {
    var bytes := Collected(assembly.chunks);
    if |bytes| != assembly.messageSize then Err(WrongSize)
    else
      match wire.decode(bytes)
      case None => Err(InvalidPayload)
      case Some(message) =>
        if message.Obj? then Ok(ServerMessage(assembly.first, message)) else Err(PayloadNotObject)
  }

  function ObserveStep(wire: Wire, buffer: Buffer, envelope: Json): (Buffer, Result<Option<Json>, RelayError>) {
    if envelope.StringField("type") != Some("server_message_chunk") then (buffer, Ok(Some(envelope)))
    else
      match ReadHeader(wire, envelope)
      case Err(e) => (buffer, Err(e))
      case Ok(header) =>
        var (next, accepted) := Accept(buffer, header, envelope.fields);
        match accepted
        case Err(e) => (next, Err(e))
        case Ok(None) => (next, Ok(None))
        case Ok(Some(assembly)) =>
          match Rebuild(wire, assembly)
          case Err(e) => (next, Err(e))
          case Ok(message) => (next, Ok(Some(message)))
  }

  // ---------- Coherence ----------

  function PresentLength(chunks: seq<Option<Bytes>>): nat {
    if |chunks| == 0 then 0
    else (match chunks[0] case Some(chunk) => |chunk| case None => 0) + PresentLength(chunks[1..])
  }

  ghost function TotalReceived(assemblies: map<string, Assembly>): nat {
    if assemblies.Keys == {} then 0
    else
      var key :| key in assemblies;
      assemblies[key].receivedBytes + TotalReceived(assemblies - {key})
  }

  ghost predicate Accounted(assembly: Assembly) {
    && assembly.receivedBytes == PresentLength(assembly.chunks)
    && 1 <= assembly.receivedBytes <= assembly.messageSize <= MAX_MESSAGE_BYTES
    && 2 <= |assembly.chunks| <= MAX_SEGMENTS
  }

  ghost predicate Coherent(buffer: Buffer) {
    && buffer.bufferedBytes == TotalReceived(buffer.assemblies) <= MAX_BUFFERED_ASSEMBLY_BYTES
    && |buffer.assemblies| <= MAX_CONCURRENT_ASSEMBLIES
    && forall key | key in buffer.assemblies ::
         Accounted(buffer.assemblies[key]) && !Complete(buffer.assemblies[key].chunks)
  }

  lemma MinusTwice(assemblies: map<string, Assembly>, a: string, b: string)
    ensures assemblies - {a} - {b} == assemblies - {b} - {a}
  {
  }

  lemma {:induction false} TotalWithout(assemblies: map<string, Assembly>, key: string)
    requires key in assemblies
    ensures TotalReceived(assemblies) == assemblies[key].receivedBytes + TotalReceived(assemblies - {key})
    decreases |assemblies|
  {
    var picked :| picked in assemblies
      && TotalReceived(assemblies) == assemblies[picked].receivedBytes + TotalReceived(assemblies - {picked});
    if picked != key {
      TotalWithout(assemblies - {picked}, key);
      TotalWithout(assemblies - {key}, picked);
      MinusTwice(assemblies, picked, key);
    }
  }

  lemma TotalWith(assemblies: map<string, Assembly>, key: string, entry: Assembly)
    ensures TotalReceived(assemblies[key := entry]) == entry.receivedBytes + TotalReceived(assemblies - {key})
  {
    TotalWithout(assemblies[key := entry], key);
    assert assemblies[key := entry] - {key} == assemblies - {key};
  }

  lemma {:induction false} PresentLengthOfNew(count: nat)
    ensures PresentLength(seq(count, _ => None)) == 0
  {
    if count > 0 {
      PresentLengthOfNew(count - 1);
      assert seq(count, _ => None)[1..] == seq<Option<Bytes>>(count - 1, _ => None);
    }
  }

  lemma {:induction false} PresentLengthWith(chunks: seq<Option<Bytes>>, id: nat, chunk: Bytes)
    requires id < |chunks| && chunks[id].None?
    ensures PresentLength(chunks[id := Some(chunk)]) == PresentLength(chunks) + |chunk|
  {
    if id == 0 {
      assert chunks[id := Some(chunk)][1..] == chunks[1..];
    } else {
      PresentLengthWith(chunks[1..], id - 1, chunk);
      assert chunks[id := Some(chunk)][1..] == chunks[1..][id - 1 := Some(chunk)];
    }
  }

  function ReceivedFor(buffer: Buffer, key: string): nat {
    if key in buffer.assemblies then buffer.assemblies[key].receivedBytes else 0
  }

  lemma TotalAfterStore(assemblies: map<string, Assembly>, key: string, entry: Assembly, added: nat)
    requires entry.receivedBytes == (if key in assemblies then assemblies[key].receivedBytes else 0) + added
    ensures TotalReceived(assemblies[key := entry]) == TotalReceived(assemblies) + added
  {
    TotalWith(assemblies, key, entry);
    if key in assemblies {
      TotalWithout(assemblies, key);
    } else {
      assert assemblies - {key} == assemblies;
    }
  }

  lemma SizeAfterStore(assemblies: map<string, Assembly>, key: string, entry: Assembly)
    ensures |assemblies[key := entry]| == |assemblies| + (if key in assemblies then 0 else 1)
    ensures |assemblies - {key}| <= |assemblies|
  {
    SizeOfKeys(assemblies);
    SizeOfKeys(assemblies[key := entry]);
    SizeOfKeys(assemblies - {key});
    assert assemblies[key := entry].Keys == assemblies.Keys + {key};
    assert (assemblies - {key}).Keys == assemblies.Keys - {key};
  }

  lemma SizeOfKeys(assemblies: map<string, Assembly>)
    ensures |assemblies| == |assemblies.Keys|
  {
  }

  /** Coherence but for one entry, which may be complete. */
  ghost predicate CoherentBut(buffer: Buffer, key: string) {
    && buffer.bufferedBytes == TotalReceived(buffer.assemblies) <= MAX_BUFFERED_ASSEMBLY_BYTES
    && |buffer.assemblies| <= MAX_CONCURRENT_ASSEMBLIES
    && forall k | k in buffer.assemblies ::
         Accounted(buffer.assemblies[k]) && (k != key ==> !Complete(buffer.assemblies[k].chunks))
  }

  lemma StoreKeepsCoherenceBut(buffer: Buffer, key: string, entry: Assembly, added: nat)
    requires Coherent(buffer) && Accounted(entry)
    requires key in buffer.assemblies || |buffer.assemblies| < MAX_CONCURRENT_ASSEMBLIES
    requires entry.receivedBytes == ReceivedFor(buffer, key) + added
    requires buffer.bufferedBytes + added <= MAX_BUFFERED_ASSEMBLY_BYTES
    ensures CoherentBut(Buffer(buffer.assemblies[key := entry], buffer.bufferedBytes + added), key)
  {
    TotalAfterStore(buffer.assemblies, key, entry, added);
    SizeAfterStore(buffer.assemblies, key, entry);
  }

  lemma WithoutRestoresCoherence(buffer: Buffer, key: string)
    requires CoherentBut(buffer, key) && key in buffer.assemblies
    ensures Coherent(Without(buffer, key))
  {
    TotalWithout(buffer.assemblies, key);
    SizeAfterStore(buffer.assemblies, key, buffer.assemblies[key]);
  }

  lemma SettleKeepsCoherence(buffer: Buffer, key: string, entry: Assembly, added: nat)
    requires Coherent(buffer) && Accounted(entry)
    requires key in buffer.assemblies || |buffer.assemblies| < MAX_CONCURRENT_ASSEMBLIES
    requires entry.receivedBytes == ReceivedFor(buffer, key) + added
    requires buffer.bufferedBytes + added <= MAX_BUFFERED_ASSEMBLY_BYTES
    ensures Coherent(Settle(buffer.(bufferedBytes := buffer.bufferedBytes + added), key, entry).0)
  {
    StoreKeepsCoherenceBut(buffer, key, entry, added);
    if Complete(entry.chunks) {
      WithoutRestoresCoherence(Buffer(buffer.assemblies[key := entry], buffer.bufferedBytes + added), key);
    }
  }

  /** Giving back an assembly's bytes never falls below zero, and leaves a coherent buffer. */
  lemma WithoutKeepsCoherence(buffer: Buffer, key: string)
    requires Coherent(buffer)
    ensures Coherent(Without(buffer, key))
    ensures Without(buffer, key).bufferedBytes + ReceivedFor(buffer, key) == buffer.bufferedBytes
  {
    if key in buffer.assemblies {
      TotalWithout(buffer.assemblies, key);
      SizeAfterStore(buffer.assemblies, key, buffer.assemblies[key]);
    }
  }

  /** A new piece of a chunk, within both limits. */
  lemma GrownIsAccounted(entry: Assembly, header: Header)
    requires Accounted(entry) || (entry.receivedBytes == 0 == PresentLength(entry.chunks))
    requires Agrees(entry, header) && header.id < header.count && entry.chunks[header.id].None?
    requires MetadataValid(header.id, header.count, header.size) && 0 < |header.chunk|
    requires SaturatingAdd(entry.receivedBytes, |header.chunk|) <= entry.messageSize
    ensures Accounted(Grown(entry, header))
  {
    PresentLengthWith(entry.chunks, header.id, header.chunk);
  }

  /** The chunk is new, fits its message and fits the buffer. */
  predicate Stores(buffer: Buffer, header: Header, fields: map<string, Json>)
    requires MetadataValid(header.id, header.count, header.size)
  {
    var entry := Entry(buffer, header, fields);
    && !TooMany(buffer, header)
    && Agrees(entry, header)
    && entry.chunks[header.id].None?
    && SaturatingAdd(entry.receivedBytes, |header.chunk|) <= entry.messageSize
    && !OverBuffer(buffer, header)
  }

  lemma StoringKeepsCoherence(buffer: Buffer, header: Header, fields: map<string, Json>)
    requires Coherent(buffer)
    requires MetadataValid(header.id, header.count, header.size) && 0 < |header.chunk|
    requires Stores(buffer, header, fields)
    ensures Coherent(Accept(buffer, header, fields).0)
  {
    var entry := Entry(buffer, header, fields);
    PresentLengthOfNew(header.count);
    GrownIsAccounted(entry, header);
    SettleKeepsCoherence(buffer, header.key, Grown(entry, header), |header.chunk|);
  }

  /** Coherence is kept on every success and every error exit. */
  lemma AcceptKeepsCoherence(buffer: Buffer, header: Header, fields: map<string, Json>)
    requires Coherent(buffer)
    requires MetadataValid(header.id, header.count, header.size) && 0 < |header.chunk|
    ensures Coherent(Accept(buffer, header, fields).0)
  {
    hide TotalReceived, PresentLength;
    WithoutKeepsCoherence(buffer, header.key);
    if Stores(buffer, header, fields) {
      StoringKeepsCoherence(buffer, header, fields);
    } else if header.key in buffer.assemblies {
      assert buffer.assemblies[header.key := buffer.assemblies[header.key]] == buffer.assemblies;
    }
  }

  lemma ObserveKeepsCoherence(wire: Wire, buffer: Buffer, envelope: Json)
    requires Coherent(buffer)
    ensures Coherent(ObserveStep(wire, buffer, envelope).0)
  {
    if envelope.StringField("type") == Some("server_message_chunk") && ReadHeader(wire, envelope).Ok? {
      AcceptKeepsCoherence(buffer, ReadHeader(wire, envelope).value, envelope.fields);
    }
  }

  /** Only this key's assembly has changed, in step with the byte counter, and it is there if `kept`. */
  ghost predicate KeptOrForgotten(buffer: Buffer, next: Buffer, key: string, kept: bool) {
    && next.assemblies - {key} == buffer.assemblies - {key}
    && (key in next.assemblies <==> kept)
    && next.bufferedBytes + ReceivedFor(buffer, key) == buffer.bufferedBytes + ReceivedFor(next, key)
  }

  lemma WithoutForgets(buffer: Buffer, key: string)
    requires Coherent(buffer)
    ensures KeptOrForgotten(buffer, Without(buffer, key), key, false)
  {
    hide Coherent;
    WithoutKeepsCoherence(buffer, key);
  }

  lemma SettleKeepsOrForgets(buffer: Buffer, key: string, entry: Assembly, added: nat)
    requires entry.receivedBytes == ReceivedFor(buffer, key) + added && ReceivedFor(buffer, key) <= buffer.bufferedBytes
    ensures var (next, r) := Settle(buffer.(bufferedBytes := buffer.bufferedBytes + added), key, entry);
            && r == (if Complete(entry.chunks) then Ok(Some(entry)) else Ok(None))
            && KeptOrForgotten(buffer, next, key, !Complete(entry.chunks))
  {
    hide Complete;
    assert buffer.assemblies[key := entry] - {key} == buffer.assemblies - {key};
  }

  lemma AcceptKeepsOrForgets(buffer: Buffer, header: Header, fields: map<string, Json>)
    requires Coherent(buffer)
    requires MetadataValid(header.id, header.count, header.size) && 0 < |header.chunk|
    ensures var (next, accepted) := Accept(buffer, header, fields);
            if accepted == Err(TooManyAssemblies) then next == buffer
            else KeptOrForgotten(buffer, next, header.key, accepted == Ok(None))
  {
    hide Coherent, KeptOrForgotten, Complete, Without, Settle, PresentLength;
    WithoutKeepsCoherence(buffer, header.key);
    WithoutForgets(buffer, header.key);
    var entry := Entry(buffer, header, fields);
    SettleKeepsOrForgets(buffer, header.key, entry, 0);
    if Stores(buffer, header, fields) {
      SettleKeepsOrForgets(buffer, header.key, Grown(entry, header), |header.chunk|);
    }
    assert buffer.(bufferedBytes := buffer.bufferedBytes + 0) == buffer;
  }

  /** A chunk either grows its assembly or ends it: unless it was refused before that, an error or a
      completed message leaves nothing of the message behind and gives back all its bytes, so that later
      chunks start it afresh. */
  lemma ObserveKeepsOrForgets(wire: Wire, buffer: Buffer, envelope: Json)
    requires Coherent(buffer)
    requires envelope.StringField("type") == Some("server_message_chunk")
    ensures var (next, outcome) := ObserveStep(wire, buffer, envelope);
            if ReadHeader(wire, envelope).Err? || outcome == Err(TooManyAssemblies) then next == buffer && outcome.Err?
            else KeptOrForgotten(buffer, next, ReadHeader(wire, envelope).value.key, outcome == Ok(None))
  {
    hide Coherent, Accept, KeptOrForgotten, ReadHeader;
    if ReadHeader(wire, envelope).Ok? {
      AcceptKeepsOrForgets(buffer, ReadHeader(wire, envelope).value, envelope.fields);
    }
  }

  // ---------- Exactly what each chunk does ----------

  /** Which chunks are readable: within 150 KiB, an object with all fields in range, and canonical base64
      of one byte up to the announced size. */
  lemma ReadableIff(wire: Wire, envelope: Json)
    ensures var id, count := envelope.U64Field("segment_id"), envelope.U64Field("segment_count");
            var size, number := envelope.U64Field("message_size_bytes"), envelope.U64Field("seq_id");
            var environment, stream := envelope.StringField("env_id"), envelope.StringField("stream_id");
            var text := envelope.StringField("message_chunk_base64");
            && (ReadHeader(wire, envelope).Ok? <==>
                  && |wire.encode(envelope)| <= 153_600
                  && id.Some? && count.Some? && size.Some? && number.Some?
                  && environment.Some? && stream.Some? && text.Some?
                  && id.value < count.value && 2 <= count.value <= 656 && 1 <= size.value <= 67_108_864
                  && Base64.Decode(text.value).Some? && 1 <= |Base64.Decode(text.value).value| <= size.value)
            && (ReadHeader(wire, envelope).Ok? ==>
                  ReadHeader(wire, envelope).value
                  == Header(id.value, count.value, size.value,
                            environment.value + ":" + stream.value + ":" + Decimals.Render(number.value),
                            Base64.Decode(text.value).value))
  {
    hide Base64.Decode, Decimals.Render;
  }

  /** The chunks that are present once `chunk` has taken its place. */
  function WithPiece(buffer: Buffer, header: Header): seq<Option<Bytes>>
    requires header.id < header.count
    requires header.key in buffer.assemblies ==> |buffer.assemblies[header.key].chunks| == header.count
  {
    var before := if header.key in buffer.assemblies then buffer.assemblies[header.key].chunks
                  else seq(header.count, _ => None);
    before[header.id := Some(header.chunk)]
  }

  predicate Conflicts(buffer: Buffer, header: Header) {
    && header.key in buffer.assemblies
    && var assembly := buffer.assemblies[header.key];
       || |assembly.chunks| != header.count
       || assembly.messageSize != header.size
       || (header.id < |assembly.chunks| && assembly.chunks[header.id].Some?
           && assembly.chunks[header.id].value != header.chunk)
  }

  /** A readable chunk that contradicts what is stored for its message, in count, in size or in the bytes
      at its place, is an error, and nothing of the message is left. */
  lemma ConflictEndsTheMessage(wire: Wire, buffer: Buffer, envelope: Json)
    requires Coherent(buffer) && envelope.StringField("type") == Some("server_message_chunk")
    requires ReadHeader(wire, envelope).Ok?
    requires var header := ReadHeader(wire, envelope).value;
             && header.key in buffer.assemblies
             && var assembly := buffer.assemblies[header.key];
                || |assembly.chunks| != header.count
                || assembly.messageSize != header.size
                || assembly.chunks[header.id] !in {None, Some(header.chunk)}
    ensures var (next, outcome) := ObserveStep(wire, buffer, envelope);
            && outcome.Err?
            && next.assemblies == buffer.assemblies - {ReadHeader(wire, envelope).value.key}
  {
    hide ReadHeader, Coherent;
    ObserveKeepsOrForgets(wire, buffer, envelope);
  }

  /** A chunk of a ninth message is refused and changes nothing; up to eight messages are put together
      side by side. */
  lemma NinthMessageIsRefused(wire: Wire, buffer: Buffer, envelope: Json)
    requires Coherent(buffer) && envelope.StringField("type") == Some("server_message_chunk")
    requires ReadHeader(wire, envelope).Ok? && ReadHeader(wire, envelope).value.key !in buffer.assemblies
    ensures ObserveStep(wire, buffer, envelope).1 == Err(TooManyAssemblies) <==> |buffer.assemblies| == 8
    ensures |buffer.assemblies| == 8 ==> ObserveStep(wire, buffer, envelope).0 == buffer
  {
    hide ReadHeader, Complete, Collected, TotalReceived;
  }

  /** The remaining chunks contradict nothing and find a slot.  A repeat changes nothing. */
  lemma RepeatChangesNothing(buffer: Buffer, header: Header, fields: map<string, Json>)
    requires Coherent(buffer) && MetadataValid(header.id, header.count, header.size)
    requires header.key in buffer.assemblies && !Conflicts(buffer, header)
    requires buffer.assemblies[header.key].chunks[header.id].Some?
    ensures Accept(buffer, header, fields) == (buffer, Ok(None))
  {
    hide TotalReceived, PresentLength;
    assert buffer.assemblies[header.key := buffer.assemblies[header.key]] == buffer.assemblies;
  }

  predicate IsNewPiece(buffer: Buffer, header: Header) {
    && !Conflicts(buffer, header)
    && (header.key in buffer.assemblies ==>
          header.id < |buffer.assemblies[header.key].chunks|
          && buffer.assemblies[header.key].chunks[header.id].None?)
    && (header.key !in buffer.assemblies ==> |buffer.assemblies| < 8)
  }

  lemma WithoutIsMinus(buffer: Buffer, key: string)
    ensures Without(buffer, key).assemblies == buffer.assemblies - {key}
  {
    if key !in buffer.assemblies {
      assert buffer.assemblies - {key} == buffer.assemblies;
    }
  }

  lemma SharedLimit(buffer: Buffer)
    requires Coherent(buffer)
    ensures buffer.bufferedBytes <= 67_108_864
  {
  }

  /** A piece that would exceed its message, or the 64 MiB that all messages share, ends the message. */
  lemma OversizedPieceEndsTheMessage(buffer: Buffer, header: Header, fields: map<string, Json>)
    requires Coherent(buffer) && MetadataValid(header.id, header.count, header.size)
    requires IsNewPiece(buffer, header)
    requires || ReceivedFor(buffer, header.key) + |header.chunk| > header.size
             || buffer.bufferedBytes + |header.chunk| > 67_108_864
    ensures Accept(buffer, header, fields).1 == Err(SizeLimitExceeded)
    ensures Accept(buffer, header, fields).0.assemblies == buffer.assemblies - {header.key}
  {
    hide TotalReceived, PresentLength, Complete, Settle, Without, Coherent;
    WithoutKeepsCoherence(buffer, header.key);
    SharedLimit(buffer);
    WithoutIsMinus(buffer, header.key);
  }

  /** The assembly with the piece in its place. */
  function Extended(buffer: Buffer, header: Header, fields: map<string, Json>): Assembly
    requires header.id < header.count && !Conflicts(buffer, header)
  {
    Assembly(WithPiece(buffer, header),
             if header.key in buffer.assemblies then buffer.assemblies[header.key].first else fields,
             header.size,
             ReceivedFor(buffer, header.key) + |header.chunk|)
  }

  /** Any other piece is stored in its place, and the last one missing takes all of them out. */
  lemma PieceIsStored(buffer: Buffer, header: Header, fields: map<string, Json>)
    requires Coherent(buffer) && MetadataValid(header.id, header.count, header.size)
    requires IsNewPiece(buffer, header)
    requires ReceivedFor(buffer, header.key) + |header.chunk| <= header.size
    requires buffer.bufferedBytes + |header.chunk| <= 67_108_864
    ensures var (next, accepted) := Accept(buffer, header, fields);
            var stored := Extended(buffer, header, fields);
            if exists i :: 0 <= i < header.count && stored.chunks[i] == None then
              next == Buffer(buffer.assemblies[header.key := stored], buffer.bufferedBytes + |header.chunk|)
              && accepted == Ok(None)
            else
              next.assemblies == buffer.assemblies - {header.key} && accepted == Ok(Some(stored))
  {
    hide TotalReceived, PresentLength, Settle, Without, Coherent, Complete;
    StoredIsExtended(buffer, header, fields);
    SettleIsExact(buffer.(bufferedBytes := buffer.bufferedBytes + |header.chunk|), header.key,
                  Extended(buffer, header, fields));
  }

  lemma StoredIsExtended(buffer: Buffer, header: Header, fields: map<string, Json>)
    requires Coherent(buffer) && MetadataValid(header.id, header.count, header.size)
    requires IsNewPiece(buffer, header)
    requires ReceivedFor(buffer, header.key) + |header.chunk| <= header.size
    requires buffer.bufferedBytes + |header.chunk| <= 67_108_864
    ensures Stores(buffer, header, fields)
    ensures Accept(buffer, header, fields)
            == Settle(buffer.(bufferedBytes := buffer.bufferedBytes + |header.chunk|), header.key,
                      Extended(buffer, header, fields))
  {
    hide TotalReceived, PresentLength, Settle, Complete;
    assert Grown(Entry(buffer, header, fields), header) == Extended(buffer, header, fields);
  }

  lemma SettleIsExact(buffer: Buffer, key: string, entry: Assembly)
    ensures var (next, r) := Settle(buffer, key, entry);
            if exists i :: 0 <= i < |entry.chunks| && entry.chunks[i] == None then
              next == buffer.(assemblies := buffer.assemblies[key := entry]) && r == Ok(None)
            else
              next.assemblies == buffer.assemblies - {key} && r == Ok(Some(entry))
  {
    assert buffer.assemblies[key := entry] - {key} == buffer.assemblies - {key};
  }

  /** What comes out of a chunk is the payload parsed from bytes of exactly the announced length, an
      object, under the header of a stored or of this chunk. */
  lemma ReleasedHasAnnouncedLength(wire: Wire, buffer: Buffer, envelope: Json) returns (assembly: Assembly)
    requires Coherent(buffer) && envelope.StringField("type") == Some("server_message_chunk")
    requires ObserveStep(wire, buffer, envelope).1.Ok? && ObserveStep(wire, buffer, envelope).1.value.Some?
    ensures ReadHeader(wire, envelope).Ok?
    ensures var header := ReadHeader(wire, envelope).value;
            var complete := ObserveStep(wire, buffer, envelope).1.value.value;
            && !Conflicts(buffer, header)
            && assembly.chunks == WithPiece(buffer, header) && Complete(assembly.chunks)
            && |Collected(assembly.chunks)| == header.size
            && wire.decode(Collected(assembly.chunks)) == complete.Get("message")
            && complete.Get("message").Some? && complete.Get("message").value.Obj?
  {
    hide ReadHeader, Coherent, Complete, Collected;
    var header := ReadHeader(wire, envelope).value;
    assembly := Accept(buffer, header, envelope.fields).1.value.value;
    ReleasedIsWhole(buffer, header, envelope.fields);
  }

  lemma ReleasedIsWhole(buffer: Buffer, header: Header, fields: map<string, Json>)
    requires Coherent(buffer) && MetadataValid(header.id, header.count, header.size) && 0 < |header.chunk|
    requires Accept(buffer, header, fields).1.Ok? && Accept(buffer, header, fields).1.value.Some?
    ensures var assembly := Accept(buffer, header, fields).1.value.value;
            && !Conflicts(buffer, header)
            && assembly.chunks == WithPiece(buffer, header) && Complete(assembly.chunks)
            && assembly.messageSize == header.size
  {
    hide TotalReceived, PresentLength;
  }

  // ---------- The object that the transport owns ----------

  lemma StoreTwice(assemblies: map<string, Assembly>, key: string, first: Assembly, second: Assembly)
    ensures assemblies[key := first][key := second] == assemblies[key := second]
  {
  }

  /** Dropping an entry undoes inserting it when the key was free, and otherwise just drops it. */
  lemma DropInserted(buffer: Buffer, key: string, entry: Assembly)
    requires if key in buffer.assemblies then entry == buffer.assemblies[key] else entry.receivedBytes == 0
    ensures Without(buffer.(assemblies := buffer.assemblies[key := entry]), key) == Without(buffer, key)
  {
    assert buffer.assemblies[key := entry] - {key} == buffer.assemblies - {key};
  }

  class ServerMessageReassembler {
    var assemblies: map<string, Assembly>
    var bufferedBytes: nat

    ghost function State(): Buffer
      reads this
    {
      Buffer(assemblies, bufferedBytes)
    }

    ghost predicate Valid()
      reads this
    {
      Coherent(State())
    }

    constructor ()
      ensures State() == EMPTY_BUFFER && Valid()
    {
      assemblies := map[];
      bufferedBytes := 0;
    }

    method Observe(wire: Wire, envelope: Json) returns (r: Result<Option<Json>, RelayError>)
      requires Valid()
      modifies this
      ensures Valid()
      ensures (State(), r) == ObserveStep(wire, old(State()), envelope)
    {
      ObserveKeepsCoherence(wire, State(), envelope);
      if envelope.StringField("type") != Some("server_message_chunk") {
        return Ok(Some(envelope));
      }
      var header := ReadHeader(wire, envelope);
      if header.Err? {
        return Err(header.error);
      }
      var accepted := AcceptChunk(header.value, envelope.fields);
      if accepted.Err? {
        return Err(accepted.error);
      }
      if accepted.value.None? {
        return Ok(None);
      }
      var rebuilt := Rebuild(wire, accepted.value.value);
      if rebuilt.Err? {
        return Err(rebuilt.error);
      }
      return Ok(Some(rebuilt.value));
    }

    method AcceptChunk(header: Header, fields: map<string, Json>)
      returns (r: Result<Option<Assembly>, RelayError>)
      requires MetadataValid(header.id, header.count, header.size)
      modifies this
      ensures (State(), r) == Accept(old(State()), header, fields)
    {
      hide Complete, TotalReceived, PresentLength, Coherent, SaturatingAdd, Without;
      var key := header.key;
      if key !in assemblies && |assemblies| >= MAX_CONCURRENT_ASSEMBLIES {
        return Err(TooManyAssemblies);
      }
      var assembly := EntryOrInsert(header, fields);
      DropInserted(old(State()), key, assembly);
      if |assembly.chunks| != header.count || assembly.messageSize != header.size {
        RemoveAssembly(key);
        return Err(MetadataChanged);
      }
      if assembly.chunks[header.id].Some? {
        if assembly.chunks[header.id].value != header.chunk {
          RemoveAssembly(key);
          return Err(SegmentChanged);
        }
      } else {
        if SaturatingAdd(assembly.receivedBytes, |header.chunk|) > assembly.messageSize
           || SaturatingAdd(bufferedBytes, |header.chunk|) > MAX_BUFFERED_ASSEMBLY_BYTES
        {
          RemoveAssembly(key);
          return Err(SizeLimitExceeded);
        }
        assembly := assembly.(receivedBytes := assembly.receivedBytes + |header.chunk|,
                              chunks := assembly.chunks[header.id := Some(header.chunk)]);
        bufferedBytes := bufferedBytes + |header.chunk|;
      }
      StoreTwice(old(assemblies), key, Entry(old(State()), header, fields), assembly);
      r := StoreAssembly(key, assembly);
    }

    method EntryOrInsert(header: Header, fields: map<string, Json>) returns (assembly: Assembly)
      modifies this
      ensures assembly == Entry(old(State()), header, fields)
      ensures State() == old(State()).(assemblies := old(assemblies)[header.key := assembly])
    {
      assembly := NewAssembly(header, fields);
      if header.key in assemblies {
        assembly := assemblies[header.key];
      }
      assemblies := assemblies[header.key := assembly];
    }

    /** Write an entry back; take it out again if it has become complete. */
    method StoreAssembly(key: string, assembly: Assembly) returns (r: Result<Option<Assembly>, RelayError>)
      modifies this
      ensures (State(), r) == Settle(old(State()), key, assembly)
    {
      assemblies := assemblies[key := assembly];
      if !Complete(assembly.chunks) {
        return Ok(None);
      }
      assemblies := assemblies - {key};
      bufferedBytes := SaturatingSub(bufferedBytes, assembly.receivedBytes);
      return Ok(Some(assembly));
    }

    method RemoveAssembly(key: string)
      modifies this
      ensures State() == Without(old(State()), key)
    {
      if key in assemblies {
        var assembly := assemblies[key];
        assemblies := assemblies - {key};
        bufferedBytes := SaturatingSub(bufferedBytes, assembly.receivedBytes);
      }
    }
  }
}
