/** Segments from the sender, relabelled by the server and delivered in any order with repeats,
    give back the message. */
module RoundTrip {
  import opened Wrappers
  import opened JsonValues
  import opened Chunking
  import opened Segmentation
  import opened SegmentationTheorems
  import opened Reassembler
  import opened ReassemblerRuns
  import Base64
  import Decimals

  /** Some of the pieces of a message, each in its place. */
  ghost predicate PartOf(present: seq<Option<Bytes>>, pieces: seq<Bytes>) {
    && |present| == |pieces|
    && forall i | 0 <= i < |present| :: present[i] == None || present[i] == Some(pieces[i])
  }

  lemma {:induction false} PartIsShorter(present: seq<Option<Bytes>>, pieces: seq<Bytes>)
    requires PartOf(present, pieces)
    ensures PresentLength(present) <= TotalLength(pieces)
  {
    if |present| > 0 {
      assert PartOf(present[1..], pieces[1..]);
      PartIsShorter(present[1..], pieces[1..]);
    }
  }

  lemma RoomForMissing(present: seq<Option<Bytes>>, pieces: seq<Bytes>, id: nat)
    requires PartOf(present, pieces) && id < |pieces| && present[id].None?
    ensures PresentLength(present) + |pieces[id]| <= |Flatten(pieces)|
  {
    PresentLengthWith(present, id, pieces[id]);
    PartIsShorter(present[id := Some(pieces[id])], pieces);
    FlattenLength(pieces);
  }

  lemma {:induction false} CompletePartIsWhole(present: seq<Option<Bytes>>, pieces: seq<Bytes>)
    requires PartOf(present, pieces) && Complete(present)
    ensures Collected(present) == Flatten(pieces)
  {
    if |present| > 0 {
      assert PartOf(present[1..], pieces[1..]);
      assert Complete(present[1..]);
      CompletePartIsWhole(present[1..], pieces[1..]);
    }
  }

  /** The relay hands a client segment on as a server chunk. */
  function ServerCopy(segment: Json): Json {
    if segment.Obj? then Obj(segment.fields["type" := Str("server_message_chunk")]) else segment
  }

  /** A message on its way: its envelope fields, its pieces and its key. */
  datatype Shipment = Shipment(fields: map<string, Json>, pieces: seq<Bytes>, size: nat, key: string) {
    ghost predicate Valid() {
      && 2 <= |pieces| <= MAX_SEGMENTS
      && size == |Flatten(pieces)| <= MAX_MESSAGE_BYTES
      && (forall i | 0 <= i < |pieces| :: 0 < |pieces[i]| <= size)
      && ReadKey(Obj(fields)) == Ok(key)
    }

    function Envelope(id: nat): Json
      requires id < |pieces|
    {
      ServerCopy(Segment(fields, pieces[id], id, |pieces|, size))
    }

    ghost predicate FramesFit(wire: Wire) {
      forall id: nat | id < |pieces| :: |wire.encode(Envelope(id))| <= MAX_FRAME_BYTES
    }

    ghost predicate HasRoom(buffer: Buffer) {
      && Coherent(buffer)
      && key !in buffer.assemblies
      && |buffer.assemblies| < MAX_CONCURRENT_ASSEMBLIES
      && buffer.bufferedBytes + size <= MAX_BUFFERED_ASSEMBLY_BYTES
    }

    function Mask(arrived: set<nat>): seq<Option<Bytes>> {
      seq(|pieces|, i requires 0 <= i < |pieces| => if i in arrived then Some(pieces[i]) else None)
    }

    /** `buffer` is `before` plus the pieces that have arrived. */
    ghost predicate Holds(before: Buffer, buffer: Buffer, arrived: set<nat>) {
      if arrived == {} then buffer == before
      else
        && key in buffer.assemblies
        && buffer.assemblies - {key} == before.assemblies
        && buffer.bufferedBytes == before.bufferedBytes + PresentLength(Mask(arrived))
        && var entry := buffer.assemblies[key];
           && entry.chunks == Mask(arrived)
           && entry.messageSize == size
           && entry.receivedBytes == PresentLength(Mask(arrived))
           && SameHeader(entry.first)
    }

    ghost predicate SameHeader(first: map<string, Json>) {
      forall name | name in COPIED_FIELDS :: Obj(first).Get(name) == Obj(fields).Get(name)
    }
  }

  /** The envelope carries one piece of a message, numbered and measured. */
  ghost predicate CarriesPiece(envelope: Json, id: nat, count: nat, size: nat, chunk: Bytes) {
    && envelope.Obj?
    && envelope.StringField("type") == Some("server_message_chunk")
    && envelope.U64Field("segment_id") == Some(id)
    && envelope.U64Field("segment_count") == Some(count)
    && envelope.U64Field("message_size_bytes") == Some(size)
    && envelope.StringField("message_chunk_base64") == Some(Base64.Encode(chunk))
  }

  lemma HeaderOf(wire: Wire, envelope: Json, id: nat, count: nat, size: nat, chunk: Bytes)
    requires CarriesPiece(envelope, id, count, size, chunk) && ReadKey(envelope).Ok?
    requires MetadataValid(id, count, size) && 0 < |chunk| <= size
    requires |wire.encode(envelope)| <= MAX_FRAME_BYTES
    ensures ReadHeader(wire, envelope) == Ok(Header(id, count, size, ReadKey(envelope).value, chunk))
  {
    hide ReadKey;
    Base64.DecodeEncode(chunk);
    assert ReadNumbers(envelope) == Ok((id, count, size));
    assert ReadChunk(envelope, size) == Ok(chunk);
  }

  lemma ShippedPiece(s: Shipment, id: nat)
    requires id < |s.pieces| <= MAX_SEGMENTS && s.size <= MAX_MESSAGE_BYTES
    ensures CarriesPiece(s.Envelope(id), id, |s.pieces|, s.size, s.pieces[id])
  {
    hide Base64.Encode;
  }

  lemma ShippedMember(s: Shipment, id: nat, name: string)
    requires id < |s.pieces| && name in COPIED_FIELDS
    ensures s.Envelope(id).Get(name) == Obj(s.fields).Get(name)
  {
    hide Base64.Encode;
  }

  lemma ShippedMembers(s: Shipment, id: nat)
    requires id < |s.pieces|
    ensures s.Envelope(id).Obj? && s.SameHeader(s.Envelope(id).fields)
    ensures ReadKey(s.Envelope(id)) == ReadKey(Obj(s.fields))
  {
    hide Segment, AssemblyKey;
    assert s.Envelope(id).Obj? by { ShippedIsObject(s, id); }
    forall name | name in COPIED_FIELDS ensures s.Envelope(id).Get(name) == Obj(s.fields).Get(name) {
      ShippedMember(s, id, name);
    }
  }

  lemma ShippedIsObject(s: Shipment, id: nat)
    requires id < |s.pieces|
    ensures s.Envelope(id).Obj?
  {
    hide Base64.Encode;
  }

  lemma ShippedHeader(wire: Wire, s: Shipment, id: nat)
    requires s.Valid() && s.FramesFit(wire) && id < |s.pieces|
    ensures ReadHeader(wire, s.Envelope(id)) == Ok(Header(id, |s.pieces|, s.size, s.key, s.pieces[id]))
    ensures s.Envelope(id).StringField("type") == Some("server_message_chunk")
    ensures s.Envelope(id).Obj? && s.SameHeader(s.Envelope(id).fields)
  {
    hide ReadHeader, ReadKey, Base64.Encode, Flatten, Segment, ServerCopy, s.SameHeader;
    ShippedPiece(s, id);
    ShippedMembers(s, id);
    HeaderOf(wire, s.Envelope(id), id, |s.pieces|, s.size, s.pieces[id]);
  }

  lemma MaskWith(s: Shipment, arrived: set<nat>, id: nat)
    requires id < |s.pieces|
    ensures s.Mask(arrived)[id := Some(s.pieces[id])] == s.Mask(arrived + {id})
    ensures PartOf(s.Mask(arrived), s.pieces)
  {
  }

  lemma EmptyMask(s: Shipment)
    ensures s.Mask({}) == seq(|s.pieces|, _ => None) && PresentLength(s.Mask({})) == 0
  {
    assert s.Mask({}) == seq(|s.pieces|, _ => None);
    PresentLengthOfNew(|s.pieces|);
  }

  /** A piece that was already there changes nothing. */
  lemma RepeatIsIgnored(s: Shipment, before: Buffer, buffer: Buffer, arrived: set<nat>, id: nat, fields: map<string, Json>)
    requires s.Valid() && id < |s.pieces| && id in arrived && s.Holds(before, buffer, arrived)
    requires !Complete(s.Mask(arrived))
    ensures Accept(buffer, Header(id, |s.pieces|, s.size, s.key, s.pieces[id]), fields) == (buffer, Ok(None))
  {
    assert buffer.assemblies[s.key := buffer.assemblies[s.key]] == buffer.assemblies;
  }

  lemma MissingPieceFits(s: Shipment, arrived: set<nat>, id: nat)
    requires s.Valid() && id < |s.pieces| && id !in arrived
    ensures PresentLength(s.Mask(arrived)) + |s.pieces[id]| <= s.size
    ensures s.Mask(arrived)[id].None?
  {
    hide Flatten, PresentLength;
    MaskWith(s, arrived, id);
    RoomForMissing(s.Mask(arrived), s.pieces, id);
  }

  /** The assembly that a piece is for. */
  lemma EntryOfShipment(s: Shipment, before: Buffer, buffer: Buffer, arrived: set<nat>, id: nat, fields: map<string, Json>)
    requires s.Valid() && s.HasRoom(before) && id < |s.pieces| && s.Holds(before, buffer, arrived)
    ensures var header := Header(id, |s.pieces|, s.size, s.key, s.pieces[id]);
            var entry := Entry(buffer, header, fields);
            && entry.chunks == s.Mask(arrived) && entry.messageSize == s.size
            && entry.receivedBytes == PresentLength(s.Mask(arrived))
            && buffer.bufferedBytes == before.bufferedBytes + PresentLength(s.Mask(arrived))
            && !TooMany(buffer, header)
  {
    hide Coherent, Flatten, PresentLength, ReadKey;
    EmptyMask(s);
  }

  /** There is room for a piece that is still missing. */
  lemma NewPieceFits(s: Shipment, before: Buffer, buffer: Buffer, arrived: set<nat>, id: nat, fields: map<string, Json>)
    requires s.Valid() && s.HasRoom(before)
    requires id < |s.pieces| && id !in arrived && s.Holds(before, buffer, arrived)
    ensures var header := Header(id, |s.pieces|, s.size, s.key, s.pieces[id]);
            Stores(buffer, header, fields) && Entry(buffer, header, fields).chunks == s.Mask(arrived)
  {
    hide Coherent, Flatten, PresentLength, Entry, TooMany, ReadKey, s.Holds;
    MissingPieceFits(s, arrived, id);
    EntryOfShipment(s, before, buffer, arrived, id, fields);
  }

  lemma SettlePiece(s: Shipment, before: Buffer, buffer: Buffer, arrived: set<nat>, entry: Assembly)
    requires s.key !in before.assemblies && arrived != {}
    requires buffer.assemblies - {s.key} == before.assemblies || buffer.assemblies == before.assemblies
    requires entry.chunks == s.Mask(arrived) && entry.messageSize == s.size && s.SameHeader(entry.first)
    requires entry.receivedBytes == PresentLength(s.Mask(arrived))
    requires buffer.bufferedBytes == before.bufferedBytes + entry.receivedBytes
    ensures Settle(buffer, s.key, entry)
            == if Complete(s.Mask(arrived)) then (before, Ok(Some(entry)))
               else (buffer.(assemblies := buffer.assemblies[s.key := entry]), Ok(None))
    ensures s.Holds(before, buffer.(assemblies := buffer.assemblies[s.key := entry]), arrived)
  {
    hide PresentLength;
    assert buffer.assemblies[s.key := entry] - {s.key} == before.assemblies;
  }

  /** A missing piece is stored; the last one takes the whole message out. */
  lemma NewPieceIsStored(s: Shipment, before: Buffer, buffer: Buffer, arrived: set<nat>, id: nat, fields: map<string, Json>)
    requires s.Valid() && s.HasRoom(before) && s.SameHeader(fields)
    requires id < |s.pieces| && id !in arrived && s.Holds(before, buffer, arrived)
    ensures var (next, accepted) := Accept(buffer, Header(id, |s.pieces|, s.size, s.key, s.pieces[id]), fields);
            if Complete(s.Mask(arrived + {id})) then
              && next == before
              && accepted.Ok? && accepted.value.Some?
              && accepted.value.value.chunks == s.Mask(arrived + {id})
              && accepted.value.value.messageSize == s.size
              && s.SameHeader(accepted.value.value.first)
            else
              s.Holds(before, next, arrived + {id}) && accepted == Ok(None)
  {
    hide Coherent, Flatten, PresentLength, Complete;
    var header := Header(id, |s.pieces|, s.size, s.key, s.pieces[id]);
    EmptyMask(s);
    NewPieceFits(s, before, buffer, arrived, id, fields);
    MaskWith(s, arrived, id);
    PresentLengthWith(s.Mask(arrived), id, s.pieces[id]);
    var entry := Grown(Entry(buffer, header, fields), header);
    var grown := buffer.(bufferedBytes := buffer.bufferedBytes + |header.chunk|);
    StoringSettles(buffer, header, fields);
    SettlePiece(s, before, grown, arrived + {id}, entry);
  }

  lemma StoringSettles(buffer: Buffer, header: Header, fields: map<string, Json>)
    requires MetadataValid(header.id, header.count, header.size) && Stores(buffer, header, fields)
    ensures Accept(buffer, header, fields)
            == Settle(buffer.(bufferedBytes := buffer.bufferedBytes + |header.chunk|), header.key,
                      Grown(Entry(buffer, header, fields), header))
  {
  }

  lemma SameHeaderSameMessage(s: Shipment, first: map<string, Json>, message: Json)
    requires s.SameHeader(first)
    ensures ServerMessage(first, message) == ServerMessage(s.fields, message)
  {
    forall name | name in COPIED_FIELDS
      ensures name in first <==> name in s.fields
      ensures name in first ==> first[name] == s.fields[name]
    {
      assert Obj(first).Get(name) == Obj(s.fields).Get(name);
    }
  }

  /** What a complete message comes to: only objects are let through. */
  function Delivered(fields: map<string, Json>, message: Json): Outcome {
    if message.Obj? then Ok(Some(ServerMessage(fields, message))) else Err(PayloadNotObject)
  }

  lemma CompleteIsRebuilt(wire: Wire, s: Shipment, arrived: set<nat>, assembly: Assembly, message: Json)
    requires s.Valid() && assembly.chunks == s.Mask(arrived) && Complete(s.Mask(arrived))
    requires assembly.messageSize == s.size && s.SameHeader(assembly.first)
    requires wire.decode(Flatten(s.pieces)) == Some(message)
    ensures Rebuild(wire, assembly)
            == if message.Obj? then Ok(ServerMessage(s.fields, message)) else Err(PayloadNotObject)
  {
    hide ServerMessage, Collected, Flatten, s.SameHeader, ReadKey;
    assert PartOf(s.Mask(arrived), s.pieces);
    CompletePartIsWhole(assembly.chunks, s.pieces);
    SameHeaderSameMessage(s, assembly.first, message);
  }

  lemma ShipmentStep(wire: Wire, s: Shipment, before: Buffer, buffer: Buffer, arrived: set<nat>, id: nat, message: Json)
    requires s.Valid() && s.FramesFit(wire) && s.HasRoom(before) && s.Holds(before, buffer, arrived)
    requires id < |s.pieces| && !Complete(s.Mask(arrived))
    requires wire.decode(Flatten(s.pieces)) == Some(message)
    ensures var (next, outcome) := ObserveStep(wire, buffer, s.Envelope(id));
            if Complete(s.Mask(arrived + {id})) then next == before && outcome == Delivered(s.fields, message)
            else s.Holds(before, next, arrived + {id}) && outcome == Ok(None)
  {
    hide ReadHeader, Accept, Flatten, PresentLength, Coherent, Rebuild, ServerMessage, Collected, Segment,
         s.SameHeader, s.Mask, s.HasRoom, s.FramesFit;
    ShippedHeader(wire, s, id);
    var fields := s.Envelope(id).fields;
    if id in arrived {
      assert arrived + {id} == arrived;
      RepeatIsIgnored(s, before, buffer, arrived, id, fields);
    } else {
      NewPieceIsStored(s, before, buffer, arrived, id, fields);
      if Complete(s.Mask(arrived + {id})) {
        var assembly := Accept(buffer, Header(id, |s.pieces|, s.size, s.key, s.pieces[id]), fields).1.value.value;
        CompleteIsRebuilt(wire, s, arrived + {id}, assembly, message);
      }
    }
  }

  function Deliveries(s: Shipment, order: seq<nat>): seq<Json>
    requires forall j | 0 <= j < |order| :: order[j] < |s.pieces|
  {
    seq(|order|, j requires 0 <= j < |order| => s.Envelope(order[j]))
  }

  function Silence(n: nat): seq<Outcome> {
    seq(n, _ => Ok(None))
  }

  /** Every piece but the last has arrived or is still to be delivered, perhaps several times. */
  ghost predicate AllButLast(s: Shipment, arrived: set<nat>, order: seq<nat>, last: nat) {
    && last < |s.pieces| && last !in arrived
    && (forall j | 0 <= j < |order| :: order[j] < |s.pieces| && order[j] != last)
    && forall id: nat | id < |s.pieces| && id != last :: id in arrived || id in order
  }

  lemma LastIsMissing(s: Shipment, arrived: set<nat>, order: seq<nat>, last: nat)
    requires AllButLast(s, arrived, order, last)
    ensures !Complete(s.Mask(arrived))
    ensures order == [] ==> Complete(s.Mask(arrived + {last}))
    ensures order != [] ==> AllButLast(s, arrived + {order[0]}, order[1..], last)
  {
    assert s.Mask(arrived)[last] == None;
  }

  lemma RunOf(s: Shipment, order: seq<nat>, last: nat)
    requires last < |s.pieces| && forall j | 0 <= j < |order| :: order[j] < |s.pieces|
    ensures var run := Deliveries(s, order) + [s.Envelope(last)];
            if order == [] then run == [s.Envelope(last)]
            else run[0] == s.Envelope(order[0]) && run[1..] == Deliveries(s, order[1..]) + [s.Envelope(last)]
    ensures order != [] ==> Silence(|order|) == [Ok(None)] + Silence(|order[1..]|)
  {
    hide Segment;
  }

  /** Delivery in any order with any repeats: nothing comes out until the last missing piece, which
      gives the message (or its error) and leaves the buffer as it was before the first piece. */
  lemma {:induction false} DeliverInAnyOrder(wire: Wire, s: Shipment, before: Buffer, buffer: Buffer,
                                             arrived: set<nat>, order: seq<nat>, last: nat, message: Json)
    requires s.Valid() && s.FramesFit(wire) && s.HasRoom(before) && s.Holds(before, buffer, arrived)
    requires AllButLast(s, arrived, order, last)
    requires wire.decode(Flatten(s.pieces)) == Some(message)
    ensures Outcomes(wire, buffer, Deliveries(s, order) + [s.Envelope(last)])
            == Silence(|order|) + [Delivered(s.fields, message)]
    ensures BufferAfter(wire, buffer, Deliveries(s, order) + [s.Envelope(last)]) == before
    decreases |order|
  {
    hide ObserveStep, Outcomes, BufferAfter, Silence, Deliveries, Flatten, Coherent, Complete, Delivered,
         s.Valid, s.FramesFit, s.HasRoom, s.Holds, s.Mask, s.Envelope;
    var run := Deliveries(s, order) + [s.Envelope(last)];
    LastIsMissing(s, arrived, order, last);
    RunOf(s, order, last);
    OutcomesCons(wire, buffer, run);
    if order == [] {
      ShipmentStep(wire, s, before, buffer, arrived, last, message);
      OneOutcome(wire, buffer, run[0]);
      NoSilence();
    } else {
      ShipmentStep(wire, s, before, buffer, arrived, order[0], message);
      LastIsMissing(s, arrived + {order[0]}, order[1..], last);
      DeliverInAnyOrder(wire, s, before, ObserveStep(wire, buffer, run[0]).0, arrived + {order[0]}, order[1..],
                        last, message);
    }
  }

  lemma NoSilence()
    ensures Silence(0) == []
  {
  }

  lemma OutcomesCons(wire: Wire, buffer: Buffer, run: seq<Json>)
    requires run != []
    ensures var (next, outcome) := ObserveStep(wire, buffer, run[0]);
            && Outcomes(wire, buffer, run) == [outcome] + Outcomes(wire, next, run[1..])
            && BufferAfter(wire, buffer, run) == BufferAfter(wire, next, run[1..])
  {
    hide ObserveStep;
  }

  lemma OneOutcome(wire: Wire, buffer: Buffer, envelope: Json)
    ensures Outcomes(wire, buffer, [envelope]) == [ObserveStep(wire, buffer, envelope).1]
    ensures BufferAfter(wire, buffer, [envelope]) == ObserveStep(wire, buffer, envelope).0
  {
    hide ObserveStep;
    var (next, outcome) := ObserveStep(wire, buffer, envelope);
    assert [envelope][1..] == [];
    assert Outcomes(wire, next, []) == [] && BufferAfter(wire, next, []) == next;
  }

  // ---------- From the sender's loop to the receiver's message ----------

  const CLIENT_LABEL: string := "client_message_chunk"
  const SERVER_LABEL: string := "server_message_chunk"

  lemma LabelsArePlain()
    ensures IsPlain(CLIENT_LABEL) && IsPlain(SERVER_LABEL) && |CLIENT_LABEL| == |SERVER_LABEL|
  {
  }

  lemma LabelSize(wire: Wire, fields: map<string, Json>, text: string)
    requires wire.ChargesPlainStringsByLength() && IsPlain(text)
    ensures wire.Size(fields, "type", text) == wire.Size(fields, "type", "") + |text|
  {
  }

  lemma RelabellingKeepsSize(wire: Wire, segment: Json)
    requires wire.ChargesPlainStringsByLength()
    requires segment.StringField("type") == Some(CLIENT_LABEL)
    ensures |wire.encode(ServerCopy(segment))| == |wire.encode(segment)|
  {
    hide IsPlain, wire.ChargesPlainStringsByLength;
    var fields := segment.fields;
    LabelsArePlain();
    assert fields["type" := Str(CLIENT_LABEL)] == fields;
    LabelSize(wire, fields, CLIENT_LABEL);
    LabelSize(wire, fields, SERVER_LABEL);
  }

  /** The message comes back under the header fields it was sent with, and nothing else. */
  lemma HeaderIsKept(fields: map<string, Json>, message: Json)
    ensures var received := ServerMessage(fields, message);
            var header := {"client_id", "seq_id", "stream_id", "cursor", "env_id", "skip_history"};
            && received.Get("message") == Some(message)
            && received.Get("type") == Some(Str("server_message"))
            && (forall name | name in header :: received.Get(name) == Obj(fields).Get(name))
            && received.fields.Keys <= header + {"type", "message"}
  {
  }

  /** Each place in `order` and `last` names a segment; all of them but `last` are named in `order`. */
  ghost predicate CoversAllButLast(order: seq<nat>, last: nat, count: nat) {
    && last < count
    && (forall j | 0 <= j < |order| :: order[j] < count && order[j] != last)
    && forall id: nat | id < count && id != last :: id in order
  }

  function ServerRun(segments: seq<Json>, order: seq<nat>, last: nat): seq<Json>
    requires last < |segments| && forall j | 0 <= j < |order| :: order[j] < |segments|
  {
    seq(|order|, j requires 0 <= j < |order| => ServerCopy(segments[order[j]])) + [ServerCopy(segments[last])]
  }

  /** The relay has slots and space for one more message under this key. */
  ghost predicate RoomFor(buffer: Buffer, key: string, size: nat) {
    && Coherent(buffer)
    && key !in buffer.assemblies
    && |buffer.assemblies| < MAX_CONCURRENT_ASSEMBLIES
    && buffer.bufferedBytes + size <= MAX_BUFFERED_ASSEMBLY_BYTES
  }

  lemma ShipmentOfCut(wire: Wire, fields: map<string, Json>, bytes: Bytes, size: nat, key: string)
    returns (s: Shipment)
    requires wire.ChargesPlainStringsByLength()
    requires size > 0 && |bytes| <= MAX_MESSAGE_BYTES && ReadKey(Obj(fields)) == Ok(key)
    requires Fits(wire, Cut(fields, bytes, size)) && 2 <= |Chunks(bytes, size)| <= MAX_SEGMENTS
    ensures s == Shipment(fields, Chunks(bytes, size), |bytes|, key)
    ensures Flatten(s.pieces) == bytes && s.Valid() && s.FramesFit(wire)
  {
    hide ReadKey, Segment;
    s := Shipment(fields, Chunks(bytes, size), |bytes|, key);
    ChunksPartition(bytes, size);
    var segments := Cut(fields, bytes, size);
    forall id: nat | id < |s.pieces| ensures |wire.encode(s.Envelope(id))| <= MAX_FRAME_BYTES {
      assert segments[id] == Segment(fields, s.pieces[id], id, |s.pieces|, s.size);
      SegmentIsNumbered(fields, s.pieces[id], id, |s.pieces|, s.size);
      RelabellingKeepsSize(wire, segments[id]);
    }
    PieceWithinWhole(s.pieces);
  }

  lemma {:induction false} PieceWithinWhole(pieces: seq<Bytes>)
    ensures forall i | 0 <= i < |pieces| :: |pieces[i]| <= |Flatten(pieces)|
  {
    if |pieces| > 0 {
      PieceWithinWhole(pieces[1..]);
    }
  }

  /** What the sender returned for an envelope that it had to cut. */
  ghost predicate WasCut(wire: Wire, envelope: Json, message: Json, segments: seq<Json>) {
    && |wire.encode(envelope)| > SEGMENT_TARGET_BYTES
    && envelope.Get("message") == Some(message)
    && SegmentationOf(wire, envelope) == Finished(Ok(segments))
  }

  lemma CutSize(wire: Wire, envelope: Json, message: Json, segments: seq<Json>) returns (size: nat)
    requires WasCut(wire, envelope, message, segments)
    ensures size > 0 && |wire.encode(message)| <= MAX_MESSAGE_BYTES
    ensures segments == Cut(envelope.fields, wire.encode(message), size) && Fits(wire, segments)
  {
    hide Cut, Fits, ChunkSize;
    var bytes := wire.encode(message);
    size := ReturnedIsCut(wire, envelope.fields, bytes, FirstCount(|bytes|));
  }

  /** Round trip: whatever the sender's loop returned for a message, as long as it is 2 to 656 segments,
      relabelled by the server and delivered in any order with repeats, is silent until the last missing
      segment and then the message under its own header, exactly as it was. */
  lemma MessageRoundTrip(wire: Wire, envelope: Json, message: Json, segments: seq<Json>, before: Buffer,
                         order: seq<nat>, last: nat)
    requires wire.ChargesPlainStringsByLength()
    requires WasCut(wire, envelope, message, segments) && wire.decode(wire.encode(message)) == Some(message)
    requires ReadKey(envelope).Ok? && RoomFor(before, ReadKey(envelope).value, |wire.encode(message)|)
    requires 2 <= |segments| <= MAX_SEGMENTS && CoversAllButLast(order, last, |segments|)
    ensures var run := ServerRun(segments, order, last);
            && Outcomes(wire, before, run) == Silence(|order|) + [Delivered(envelope.fields, message)]
            && BufferAfter(wire, before, run) == before
  {
    hide ReadKey, Outcomes, BufferAfter, Silence, Coherent, Fits, SegmentationOf, Segment, Delivered;
    var bytes := wire.encode(message);
    var size := CutSize(wire, envelope, message, segments);
    var s := ShipmentOfCut(wire, envelope.fields, bytes, size, ReadKey(envelope).value);
    assert ServerRun(segments, order, last) == Deliveries(s, order) + [s.Envelope(last)];
    NothingArrived(s, before);
    DeliverInAnyOrder(wire, s, before, before, {}, order, last, message);
  }

  lemma NothingArrived(s: Shipment, before: Buffer)
    requires RoomFor(before, s.key, s.size)
    ensures s.HasRoom(before) && s.Holds(before, before, {})
  {
  }

  /** Outside that range every single segment is refused, whatever is buffered. */
  lemma OtherCountsAreRefused(wire: Wire, envelope: Json, message: Json, segments: seq<Json>, buffer: Buffer, i: nat)
    requires wire.ChargesPlainStringsByLength()
    requires WasCut(wire, envelope, message, segments) && i < |segments|
    requires !(2 <= |segments| <= MAX_SEGMENTS)
    ensures ObserveStep(wire, buffer, ServerCopy(segments[i])) == (buffer, Err(InvalidMetadata))
  {
    hide ObserveStep, Fits, SegmentationOf, NumberedPart;
    var bytes := wire.encode(message);
    var size := CutSize(wire, envelope, message, segments);
    CountAtMostLength(bytes, size);
    SegmentIsNumbered(envelope.fields, Chunks(bytes, size)[i], i, |segments|, |bytes|);
    FittingFrame(wire, segments, i);
    BadCountIsRefused(wire, envelope.fields, |bytes|, segments[i], i, |segments|, buffer);
  }

  lemma FittingFrame(wire: Wire, segments: seq<Json>, i: nat)
    requires Fits(wire, segments) && i < |segments|
    ensures |wire.encode(segments[i])| <= MAX_FRAME_BYTES
  {
  }

  lemma BadCountIsRefused(wire: Wire, fields: map<string, Json>, size: nat, segment: Json, id: nat, count: nat,
                          buffer: Buffer)
    requires wire.ChargesPlainStringsByLength()
    requires id < count <= MAX_MESSAGE_BYTES && size <= MAX_MESSAGE_BYTES && !(2 <= count <= MAX_SEGMENTS)
    requires NumberedPart(fields, size, segment, id, count) && |wire.encode(segment)| <= MAX_FRAME_BYTES
    ensures ObserveStep(wire, buffer, ServerCopy(segment)) == (buffer, Err(InvalidMetadata))
  {
    hide ReadKey, ReadChunk;
    RelabellingKeepsSize(wire, segment);
    var copy := ServerCopy(segment);
    assert copy.StringField("type") == Some("server_message_chunk");
    assert ReadNumbers(copy) == Err(InvalidMetadata);
  }

  /** In every order, and with any repeats before the last missing one, the segments give `whole`. */
  ghost predicate ComesBack(wire: Wire, before: Buffer, segments: seq<Json>, whole: Json) {
    && segments != []
    && forall order: seq<nat>, last: nat | CoversAllButLast(order, last, |segments|) ::
         Outcomes(wire, before, ServerRun(segments, order, last)) == Silence(|order|) + [Ok(Some(whole))]
  }

  ghost predicate AlwaysGives(wire: Wire, envelope: Json, outcome: Outcome) {
    forall buffer: Buffer :: ObserveStep(wire, buffer, envelope).1 == outcome
  }

  lemma {:induction false} LastOutcome(wire: Wire, buffer: Buffer, run: seq<Json>, outcome: Outcome)
    requires run != [] && AlwaysGives(wire, run[|run| - 1], outcome)
    ensures |Outcomes(wire, buffer, run)| == |run| && Outcomes(wire, buffer, run)[|run| - 1] == outcome
    decreases |run|
  {
    hide ObserveStep;
    if |run| > 1 {
      LastOutcome(wire, ObserveStep(wire, buffer, run[0]).0, run[1..], outcome);
    } else {
      assert run[1..] == [];
      assert Outcomes(wire, ObserveStep(wire, buffer, run[0]).0, []) == [];
    }
  }

  function InSequence(count: nat): seq<nat>
    requires count > 0
  {
    seq(count - 1, i requires 0 <= i < count - 1 => i)
  }

  lemma InSequenceCovers(count: nat)
    requires count > 0
    ensures CoversAllButLast(InSequence(count), count - 1, count)
  {
    forall id: nat | id < count && id != count - 1 ensures id in InSequence(count) {
      assert InSequence(count)[id] == id;
    }
  }

  /** The sender's output is accepted back exactly when it is 2 to 656 segments of an object. */
  lemma CutMessageComesBackIff(wire: Wire, envelope: Json, message: Json, segments: seq<Json>, before: Buffer)
    requires wire.ChargesPlainStringsByLength()
    requires WasCut(wire, envelope, message, segments) && wire.decode(wire.encode(message)) == Some(message)
    requires ReadKey(envelope).Ok? && RoomFor(before, ReadKey(envelope).value, |wire.encode(message)|)
    ensures ComesBack(wire, before, segments, ServerMessage(envelope.fields, message))
            <==> 2 <= |segments| <= MAX_SEGMENTS && message.Obj?
  {
    hide ReadKey, Outcomes, RoomFor, SegmentationOf, ServerMessage, ServerRun, ObserveStep;
    if 2 <= |segments| <= MAX_SEGMENTS {
      forall order: seq<nat>, last: nat | CoversAllButLast(order, last, |segments|)
        ensures Outcomes(wire, before, ServerRun(segments, order, last))
                == Silence(|order|) + [Delivered(envelope.fields, message)]
      {
        MessageRoundTrip(wire, envelope, message, segments, before, order, last);
      }
      if !message.Obj? {
        InSequenceCovers(|segments|);
        var order := InSequence(|segments|);
        assert (Silence(|order|) + [Delivered(envelope.fields, message)])[|Silence(|order|)|]
            != (Silence(|order|) + [Ok(Some(ServerMessage(envelope.fields, message)))])[|Silence(|order|)|];
      }
    } else if segments != [] {
      RefusedDoesNotComeBack(wire, envelope, message, segments, before);
    }
  }

  lemma RefusedDoesNotComeBack(wire: Wire, envelope: Json, message: Json, segments: seq<Json>, before: Buffer)
    requires wire.ChargesPlainStringsByLength() && WasCut(wire, envelope, message, segments)
    requires segments != [] && !(2 <= |segments| <= MAX_SEGMENTS)
    ensures !ComesBack(wire, before, segments, ServerMessage(envelope.fields, message))
  {
    hide Outcomes, SegmentationOf, ServerMessage, ObserveStep, AlwaysGives;
    var order, last := InSequence(|segments|), |segments| - 1;
    InSequenceCovers(|segments|);
    RunInBounds(order, last, |segments|);
    var run := ServerRun(segments, order, last);
    LastIsAlwaysRefused(wire, envelope, message, segments);
    LastOutcome(wire, before, run, Err(InvalidMetadata));
    assert (Silence(|order|) + [Ok(Some(ServerMessage(envelope.fields, message)))])[|run| - 1]
        == Ok(Some(ServerMessage(envelope.fields, message)));
  }

  lemma LastIsAlwaysRefused(wire: Wire, envelope: Json, message: Json, segments: seq<Json>)
    requires wire.ChargesPlainStringsByLength() && WasCut(wire, envelope, message, segments)
    requires segments != [] && !(2 <= |segments| <= MAX_SEGMENTS)
    ensures AlwaysGives(wire, ServerCopy(segments[|segments| - 1]), Err(InvalidMetadata))
  {
    hide ObserveStep, SegmentationOf;
    var copy := ServerCopy(segments[|segments| - 1]);
    forall buffer: Buffer ensures ObserveStep(wire, buffer, copy).1 == Err(InvalidMetadata) {
      OtherCountsAreRefused(wire, envelope, message, segments, buffer, |segments| - 1);
    }
  }

  lemma RunInBounds(order: seq<nat>, last: nat, count: nat)
    requires CoversAllButLast(order, last, count)
    ensures last < count && forall j | 0 <= j < |order| :: order[j] < count
  {
  }

  /** First pass: with at most 17,064 other bytes a frame, every message of 100 KiB to 64 MiB is cut into
      ceil(n / 100 KiB) segments, and comes back if it is an object. */
  lemma FirstPassComesBack(wire: Wire, envelope: Json, message: Json, before: Buffer)
    requires wire.ChargesPlainStringsByLength()
    requires envelope.StringField("type") == Some("client_message") && envelope.Get("message") == Some(message)
    requires |wire.encode(envelope)| > SEGMENT_TARGET_BYTES
    requires SEGMENT_TARGET_BYTES < |wire.encode(message)| <= MAX_MESSAGE_BYTES
    requires MetadataAtMost(wire, envelope.fields, |wire.encode(message)|, 17_064)
    requires wire.decode(wire.encode(message)) == Some(message) && message.Obj?
    requires ReadKey(envelope).Ok? && RoomFor(before, ReadKey(envelope).value, |wire.encode(message)|)
    ensures SegmentationOf(wire, envelope).Finished? && SegmentationOf(wire, envelope).result.Ok?
    ensures var segments := SegmentationOf(wire, envelope).result.value;
            && |segments| == DivCeil(|wire.encode(message)|, SEGMENT_TARGET_BYTES)
            && ComesBack(wire, before, segments, ServerMessage(envelope.fields, message))
  {
    hide ReadKey, ComesBack, RoomFor, Fits, Retry, ServerMessage, MetadataAtMost;
    var bytes := wire.encode(message);
    FirstPassSuffices(wire, envelope.fields, bytes);
    CutMessageComesBackIff(wire, envelope, message, SegmentationOf(wire, envelope).result.value, before);
  }

  /** Heavy metadata: above `limit` other bytes a frame, a message too long for 656 such frames can only
      be cut into more than 656 segments, and every one of them is refused. */
  lemma HeavyMetadataIsRefused(wire: Wire, envelope: Json, message: Json, segments: seq<Json>, limit: nat,
                               buffer: Buffer, i: nat)
    requires wire.ChargesPlainStringsByLength() && WasCut(wire, envelope, message, segments)
    requires limit < MAX_FRAME_BYTES && MetadataAbove(wire, envelope.fields, |wire.encode(message)|, limit)
    requires |wire.encode(message)| > MAX_SEGMENTS * ((MAX_FRAME_BYTES - limit) / 4 * 3)
    requires i < |segments|
    ensures |segments| > MAX_SEGMENTS
    ensures ObserveStep(wire, buffer, ServerCopy(segments[i])) == (buffer, Err(InvalidMetadata))
  {
    hide ObserveStep, SegmentationOf, MetadataAbove;
    var bytes := wire.encode(message);
    var size := CutSize(wire, envelope, message, segments);
    FittingChunksAreShort(wire, envelope.fields, bytes, size, limit);
    OtherCountsAreRefused(wire, envelope, message, segments, buffer, i);
  }

  /** Such messages exist: with a plain client id above 100,000 bytes, and no more than 142,676 other bytes
      a frame, every message above 26,371,200 bytes is cut, and refused segment by segment. */
  lemma HeavyClientIdIsRefused(wire: Wire, envelope: Json, message: Json, text: string, buffer: Buffer)
    requires wire.ChargesPlainStringsByLength()
    requires envelope.StringField("type") == Some("client_message") && envelope.Get("message") == Some(message)
    requires envelope.StringField("client_id") == Some(text) && IsPlain(text)
    requires 100_000 < |text| && |wire.encode(envelope)| > SEGMENT_TARGET_BYTES
    requires MetadataAtMost(wire, envelope.fields, |wire.encode(message)|, 142_676)
    requires 26_371_200 < |wire.encode(message)| <= MAX_MESSAGE_BYTES
    ensures SegmentationOf(wire, envelope).Finished? && SegmentationOf(wire, envelope).result.Ok?
    ensures var segments := SegmentationOf(wire, envelope).result.value;
            && |segments| > MAX_SEGMENTS
            && forall i | 0 <= i < |segments| ::
                 ObserveStep(wire, buffer, ServerCopy(segments[i])) == (buffer, Err(InvalidMetadata))
  {
    hide IsPlain, wire.ChargesPlainStringsByLength, MetadataAtMost, MetadataAbove, Retry, ObserveStep, Fits, ServerCopy;
    var bytes := wire.encode(message);
    RetryReturns(wire, envelope.fields, bytes, FirstCount(|bytes|));
    LongClientIdFillsFrames(wire, envelope.fields, |bytes|, text, 100_000);
    var segments := SegmentationOf(wire, envelope).result.value;
    NonEmptyIsCut(wire, envelope, message, segments);
    HeavyMetadataIsRefused(wire, envelope, message, segments, 100_000, buffer, 0);
    forall i | 0 <= i < |segments|
      ensures ObserveStep(wire, buffer, ServerCopy(segments[i])) == (buffer, Err(InvalidMetadata))
    {
      HeavyMetadataIsRefused(wire, envelope, message, segments, 100_000, buffer, i);
    }
  }

  lemma NonEmptyIsCut(wire: Wire, envelope: Json, message: Json, segments: seq<Json>)
    requires WasCut(wire, envelope, message, segments) && wire.encode(message) != []
    ensures segments != []
  {
    hide Fits, SegmentationOf;
    var size := CutSize(wire, envelope, message, segments);
  }

  lemma FittingChunksAreShort(wire: Wire, fields: map<string, Json>, bytes: Bytes, size: nat, limit: nat)
    requires wire.ChargesPlainStringsByLength() && size > 0 && |bytes| <= MAX_MESSAGE_BYTES
    requires limit < MAX_FRAME_BYTES && MetadataAbove(wire, fields, |bytes|, limit)
    requires Fits(wire, Cut(fields, bytes, size)) && Chunks(bytes, size) != []
    ensures |bytes| <= |Chunks(bytes, size)| * ((MAX_FRAME_BYTES - limit) / 4 * 3)
  {
    hide Chunks, Flatten, Segment;
    var chunks, segments := Chunks(bytes, size), Cut(fields, bytes, size);
    var most := (MAX_FRAME_BYTES - limit) / 4 * 3;
    ChunksPartition(bytes, size);
    CountAtMostLength(bytes, size);
    forall id | 0 <= id < |chunks| ensures |chunks[id]| <= most {
      FrameSize(wire, fields, chunks[id], id, |chunks|, |bytes|);
      assert segments[id] == Segment(fields, chunks[id], id, |chunks|, |bytes|);
    }
    FlattenLength(chunks);
    ShortPiecesAreShort(chunks, most);
  }

  lemma {:induction false} ShortPiecesAreShort(pieces: seq<Bytes>, most: nat)
    requires forall i | 0 <= i < |pieces| :: |pieces[i]| <= most
    ensures TotalLength(pieces) <= |pieces| * most
  {
    if pieces != [] {
      ShortPiecesAreShort(pieces[1..], most);
    }
  }

  /** A piece that arrives once more after its message was completed opens a new assembly, so the
      reassembler by itself does not deliver exactly once. */
  lemma LateRepeatReopens(wire: Wire, s: Shipment, before: Buffer, id: nat, message: Json)
    requires s.Valid() && s.FramesFit(wire) && s.HasRoom(before) && id < |s.pieces|
    requires wire.decode(Flatten(s.pieces)) == Some(message)
    ensures var (next, outcome) := ObserveStep(wire, before, s.Envelope(id));
            outcome == Ok(None) && s.key in next.assemblies && s.key !in before.assemblies
  {
    hide ObserveStep, Flatten;
    var other := if id == 0 then 1 else 0;
    assert s.Mask({})[other] == None;
    assert s.Mask({} + {id})[other] == None;
    ShipmentStep(wire, s, before, before, {}, id, message);
  }

  /** When the envelope is above 100 KiB but its message is not, what the first pass returns is a single
      segment. */
  lemma SingleSegmentIsRefused(wire: Wire, envelope: Json, message: Json, buffer: Buffer)
    requires wire.ChargesPlainStringsByLength()
    requires envelope.StringField("type") == Some("client_message") && envelope.Get("message") == Some(message)
    requires |wire.encode(envelope)| > SEGMENT_TARGET_BYTES
    requires 0 < |wire.encode(message)| <= SEGMENT_TARGET_BYTES
    requires Fits(wire, Cut(envelope.fields, wire.encode(message), |wire.encode(message)|))
    ensures SegmentationOf(wire, envelope).Finished? && SegmentationOf(wire, envelope).result.Ok?
    ensures var segments := SegmentationOf(wire, envelope).result.value;
            |segments| == 1 && ObserveStep(wire, buffer, ServerCopy(segments[0])) == (buffer, Err(InvalidMetadata))
  {
    hide Segment, ObserveStep, Fits;
    var bytes := wire.encode(message);
    DivCeilLeast(|bytes|, SEGMENT_TARGET_BYTES, 1);
    DivCeilLeast(|bytes|, 1, |bytes|);
    assert FirstCount(|bytes|) == 1 && ChunkSize(|bytes|, 1) == |bytes|;
    OtherCountsAreRefused(wire, envelope, message, SegmentationOf(wire, envelope).result.value, buffer, 0);
  }
}
