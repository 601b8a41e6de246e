/** One relay connection: client messages go out numbered within a stream, server envelopes come in
    and are admitted in sequence, and replies without an id are attributed to pending requests. */
module Transport {
  import opened Wrappers
  import opened JsonValues
  import opened Segmentation
  import opened Reassembler

  datatype Session = Session(
    clientId: string,
    environmentId: string,
    streamId: string,
    nextClientSequence: nat,
    pending: seq<Json>,
    buffer: Buffer,
    seen: Option<nat>)

  // ---------- Outgoing ----------

  predicate IsInitialize(message: Json) {
    message.StringField("method") == Some("initialize")
  }

  /** A new stream starts with nothing sent, nothing seen, nothing pending and nothing buffered. */
  function StartStream(s: Session, freshStreamId: string): Session {
    s.(streamId := freshStreamId, nextClientSequence := 1, pending := [], buffer := EMPTY_BUFFER, seen := None)
  }

  /** The id under which a reply is expected, if the message asks for one. */
  function RequestId(message: Json): seq<Json> {
    match message.Get("id")
    case Some(id) => if id.Str? || id.Int? || id.Float? then [id] else []
    case None => []
  }

  function ClientEnvelope(s: Session, message: Json): Json {
    Obj(map["type" := Str("client_message"),
            "client_id" := Str(s.clientId),
            "seq_id" := Int(s.nextClientSequence),
            "stream_id" := Str(s.streamId),
            "env_id" := Str(s.environmentId),
            "skip_history" := Bool(false),
            "message" := message])
  }

  /** The session in which the envelope of `message` is made. */
  function Prepared(s: Session, message: Json, freshStreamId: string): Session {
    var started := if IsInitialize(message) then StartStream(s, freshStreamId) else s;
    started.(pending := started.pending + RequestId(message))
  }

  function OutgoingStep(wire: Wire, s: Session, message: Json, freshStreamId: string): (Session, SegmentOutcome) {
    var ready := Prepared(s, message, freshStreamId);
    (ready.(nextClientSequence := SaturatingAdd(ready.nextClientSequence, 1)),
     SegmentationOf(wire, ClientEnvelope(ready, message)))
  }

  // ---------- Incoming ----------

  function TargetsActiveStream(envelope: Json, clientId: string, environmentId: string, streamId: string)
    : Result<bool, RelayError>
  {
    if !envelope.Obj? then Err(NotAnObject)
    else
      match StringOf(envelope, "client_id")
      case Err(e) => Err(e)
      case Ok(client) =>
        if client != clientId then Err(WrongTarget)
        else
          match StringOf(envelope, "env_id")
          case Err(e) => Err(e)
          case Ok(environment) =>
            if environment != environmentId then Err(WrongTarget)
            else
              match StringOf(envelope, "stream_id")
              case Err(e) => Err(e)
              case Ok(stream) => Ok(stream == streamId)
  }

  predicate IsServerMessage(envelope: Json) {
    envelope.StringField("type") in {Some("server_message"), Some("server_message_chunk")}
  }

  /** Whole server messages are let through in sequence: repeats are dropped and gaps are errors. */
  function Sequence(s: Session, envelope: Json): (Session, Result<Option<Json>, RelayError>) {
    match envelope.U64Field("seq_id")
    case None => (s, Err(NoSequence))
    case Some(sequence) =>
      if s.seen.Some? && sequence <= s.seen.value then (s, Ok(None))
      else if s.seen.Some? && sequence != SaturatingAdd(s.seen.value, 1) then (s, Err(SequenceGap))
      else
        var next := s.(seen := Some(sequence));
        match envelope.Get("message")
        case None => (next, Err(NoPayload))
        case Some(message) => (next, Ok(Some(message)))
  }

  /** The app-server payload that an envelope releases, if any. */
  function Admit(wire: Wire, s: Session, envelope: Json): (Session, Result<Option<Json>, RelayError>) {
    if !IsServerMessage(envelope) then (s, Ok(None))
    else
      match TargetsActiveStream(envelope, s.clientId, s.environmentId, s.streamId)
      case Err(e) => (s, Err(e))
      case Ok(false) => (s, Ok(None))
      case Ok(true) =>
        var (buffer, outcome) := ObserveStep(wire, s.buffer, envelope);
        var next := s.(buffer := buffer);
        match outcome
        case Err(e) => (next, Err(e))
        case Ok(None) => (next, Ok(None))
        case Ok(Some(complete)) => Sequence(next, complete)
  }

  /** An error reply that does not say which request it answers. */
  predicate IsAnonymousError(message: Json) {
    message.StringField("type") == Some("error") && message.Get("id").None?
  }

  function AttributedError(id: Json, message: Json): Json
    requires message.Obj?
  {
    Obj(map["id" := id, "error" := Obj(message.fields - {"type"})])
  }

  /** The reply made of an error that named no request: the id of the request and, as its error, the
      payload without its type. */
  ghost predicate Attributed(id: Json, message: Json, out: Json) {
    && out.Obj? && out.fields.Keys == {"id", "error"}
    && out.Get("id") == Some(id)
    && var error := out.fields["error"];
       && error.Obj? && message.Obj?
       && error.fields.Keys == message.fields.Keys - {"type"}
       && forall name | name in error.fields :: error.fields[name] == message.fields[name]
  }

  /** The queue without its first occurrence of an id. */
  function RemoveFirst(queue: seq<Json>, id: Json): seq<Json> {
    if queue == [] then []
    else if queue[0] == id then queue[1..]
    else [queue[0]] + RemoveFirst(queue[1..], id)
  }

  /** Hands a payload on, keeping the queue of pending request ids up to date. */
  function Attribute(s: Session, message: Json): (Session, Result<Json, RelayError>) {
    if IsAnonymousError(message) then
      if s.pending == [] then (s, Err(NoPendingRequest))
      else (s.(pending := s.pending[1..]), Ok(AttributedError(s.pending[0], message)))
    else
      match message.Get("id")
      case None => (s, Ok(message))
      case Some(id) => (s.(pending := RemoveFirst(s.pending, id)), Ok(message))
  }

  function IncomingStep(wire: Wire, s: Session, envelope: Json): (Session, Result<Option<Json>, RelayError>) {
    var (admitted, payload) := Admit(wire, s, envelope);
    match payload
    case Err(e) => (admitted, Err(e))
    case Ok(None) => (admitted, Ok(None))
    case Ok(Some(message)) =>
      var (next, attributed) := Attribute(admitted, message);
      match attributed
      case Err(e) => (next, Err(e))
      case Ok(out) => (next, Ok(Some(out)))
  }

  // ---------- What the steps come to ----------

  /** Sending: "initialize" opens a stream, in which nothing has been sent, seen or buffered and nothing
      is pending; a string or a number as id is queued; the sequence number goes up by one. */
  lemma OutgoingSession(wire: Wire, s: Session, message: Json, freshStreamId: string)
    ensures var next := OutgoingStep(wire, s, message, freshStreamId).0;
            var opens := message.StringField("method") == Some("initialize");
            var id := message.Get("id");
            var expectsReply := id.Some? && (id.value.Str? || id.value.Int? || id.value.Float?);
            && next.clientId == s.clientId && next.environmentId == s.environmentId
            && next.streamId == (if opens then freshStreamId else s.streamId)
            && next.pending == (if opens then [] else s.pending) + (if expectsReply then [id.value] else [])
            && next.buffer == (if opens then Buffer(map[], 0) else s.buffer)
            && next.seen == (if opens then None else s.seen)
            && next.nextClientSequence == SaturatingAdd(if opens then 1 else s.nextClientSequence, 1)
  {
    hide SegmentationOf;
  }

  /** Receiving: other kinds of envelopes and other streams are ignored; one for another client or
      environment, or without a stream, is an error; none of them changes anything. */
  lemma ForeignEnvelopesChangeNothing(wire: Wire, s: Session, envelope: Json)
    ensures var kind := envelope.StringField("type");
            var (next, payload) := Admit(wire, s, envelope);
            if kind != Some("server_message") && kind != Some("server_message_chunk") then
              next == s && payload == Ok(None)
            else if || envelope.StringField("client_id") != Some(s.clientId)
                    || envelope.StringField("env_id") != Some(s.environmentId)
                    || envelope.StringField("stream_id").None? then
              next == s && payload.Err?
            else if envelope.StringField("stream_id") != Some(s.streamId) then
              next == s && payload == Ok(None)
            else
              var (buffer, outcome) := ObserveStep(wire, s.buffer, envelope);
              && next.buffer == buffer
              && (outcome.Err? || outcome == Ok(None) ==> next.seen == s.seen)
              && (outcome.Err? ==> payload.Err?) && (outcome == Ok(None) ==> payload == Ok(None))
  {
    hide ObserveStep;
  }

  /** A whole message is let through exactly if its number is the next one, or any if none was seen yet,
      and it has a payload; an earlier number is dropped, a later one and anything missing is an error. */
  lemma SequenceIsExact(s: Session, envelope: Json)
    ensures var number, message := envelope.U64Field("seq_id"), envelope.Get("message");
            var (next, payload) := Sequence(s, envelope);
            && (number.None? ==> next == s && payload.Err?)
            && (number.Some? && s.seen.Some? && number.value <= s.seen.value ==> next == s && payload == Ok(None))
            && (number.Some? && s.seen.Some? && number.value > s.seen.value + 1 ==> next == s && payload.Err?)
            && (number.Some? && (s.seen.None? || number.value == s.seen.value + 1) ==>
                  && next == s.(seen := number)
                  && (if message.Some? then payload == Ok(message) else payload.Err?))
  {
  }

  /** An error without an id is handed on under the oldest pending id, or is an error if there is none. */
  lemma AnonymousErrorIsAttributed(s: Session, message: Json)
    requires message.StringField("type") == Some("error") && message.Get("id") == None
    ensures var (next, out) := Attribute(s, message);
            if s.pending == [] then next == s && out.Err?
            else
              && next == s.(pending := s.pending[1..])
              && out.Ok? && Attributed(s.pending[0], message, out.value)
  {
  }

  /** Every other payload is handed on as it is; the first pending occurrence of its id, if there is one,
      leaves the queue. */
  lemma OtherPayloadsPassThrough(s: Session, message: Json)
    requires message.StringField("type") != Some("error") || message.Get("id") != None
    ensures var (next, out) := Attribute(s, message);
            var id := message.Get("id");
            && out == Ok(message)
            && next == s.(pending := next.pending)
            && (id.None? || id.value !in s.pending ==> next.pending == s.pending)
            && (id.Some? && id.value in s.pending ==>
                  exists i: nat :: TakenOut(s.pending, i, id.value, next.pending))
  {
    var id := message.Get("id");
    if id.Some? && id.value in s.pending {
      var i := FirstPlace(s.pending, id.value);
      RemoveFirstAt(s.pending, id.value, i);
      assert TakenOut(s.pending, i, id.value, Attribute(s, message).0.pending);
    } else if id.Some? {
      RemoveFirstAbsent(s.pending, id.value);
    }
  }

  /** `rest` is the queue without its first `id`, which stands at position `i`. */
  ghost predicate TakenOut(queue: seq<Json>, i: nat, id: Json, rest: seq<Json>) {
    i < |queue| && queue[i] == id && id !in queue[..i] && rest == queue[..i] + queue[i + 1..]
  }

  lemma {:induction false} FirstPlace(queue: seq<Json>, id: Json) returns (i: nat)
    requires id in queue
    ensures i < |queue| && queue[i] == id && id !in queue[..i]
  {
    if queue[0] == id {
      i := 0;
    } else {
      var k := FirstPlace(queue[1..], id);
      i := k + 1;
      assert queue[..i] == [queue[0]] + queue[1..][..k];
    }
  }

  // ---------- The connection object ----------

  class RelayTransport {
    var clientId: string
    var environmentId: string
    var nextClientSequence: nat
    var pendingRequestIds: seq<Json>
    var reassembler: ServerMessageReassembler
    var seenServerSequence: Option<nat>
    var streamId: string

    ghost function State(): Session
      reads this, reassembler
    {
      Session(clientId, environmentId, streamId, nextClientSequence, pendingRequestIds,
              reassembler.State(), seenServerSequence)
    }

    ghost predicate Valid()
      reads this, reassembler
    {
      reassembler.Valid()
    }

    constructor (clientId: string, environmentId: string, freshStreamId: string)
      ensures Valid() && fresh(reassembler)
      ensures State() == Session(clientId, environmentId, freshStreamId, 1, [], EMPTY_BUFFER, None)
    {
      this.clientId := clientId;
      this.environmentId := environmentId;
      nextClientSequence := 1;
      pendingRequestIds := [];
      reassembler := new ServerMessageReassembler();
      seenServerSequence := None;
      streamId := freshStreamId;
    }

    method OutgoingAppSegments(wire: Wire, message: Json, freshStreamId: string)
      returns (r: Result<seq<Json>, SegmentError>)
      requires Valid()
      requires OutgoingStep(wire, State(), message, freshStreamId).1.Finished?
      modifies this
      ensures Valid() && (reassembler == old(reassembler) || fresh(reassembler))
      ensures (State(), Finished(r)) == OutgoingStep(wire, old(State()), message, freshStreamId)
    {
      hide SegmentationOf, Coherent;
      if message.StringField("method") == Some("initialize") {
        streamId := freshStreamId;
        nextClientSequence := 1;
        seenServerSequence := None;
        pendingRequestIds := [];
        reassembler := new ServerMessageReassembler();
      }
      var id := message.Get("id");
      if id.Some? && (id.value.Str? || id.value.Int? || id.value.Float?) {
        pendingRequestIds := pendingRequestIds + [id.value];
      }
      assert pendingRequestIds == Prepared(old(State()), message, freshStreamId).pending;
      var envelope := Obj(map["type" := Str("client_message"),
                              "client_id" := Str(clientId),
                              "seq_id" := Int(nextClientSequence),
                              "stream_id" := Str(streamId),
                              "env_id" := Str(environmentId),
                              "skip_history" := Bool(false),
                              "message" := message]);
      assert envelope == ClientEnvelope(Prepared(old(State()), message, freshStreamId), message);
      nextClientSequence := SaturatingAdd(nextClientSequence, 1);
      r := SegmentClientMessage(wire, envelope);
    }

    method ObserveServerEnvelope(wire: Wire, envelope: Json) returns (r: Result<Option<Json>, RelayError>)
      requires Valid()
      modifies this, reassembler
      ensures Valid() && reassembler == old(reassembler)
      ensures (State(), r) == IncomingStep(wire, old(State()), envelope)
    {
      var payload := AdmitEnvelope(wire, envelope);
      if payload.Err? {
        return Err(payload.error);
      }
      if payload.value.None? {
        return Ok(None);
      }
      var message := payload.value.value;
      if message.StringField("type") == Some("error") && message.Get("id").None? {
        if pendingRequestIds == [] {
          return Err(NoPendingRequest);
        }
        var id := pendingRequestIds[0];
        pendingRequestIds := pendingRequestIds[1..];
        message := Obj(map["id" := id, "error" := Obj(message.fields - {"type"})]);
      } else if message.Get("id").Some? {
        var position := FindPending(message.Get("id").value);
        if position.Some? {
          pendingRequestIds := pendingRequestIds[..position.value] + pendingRequestIds[position.value + 1..];
        }
      }
      return Ok(Some(message));
    }

    /** The part of the observation before the payload itself is looked at. */
    method AdmitEnvelope(wire: Wire, envelope: Json) returns (r: Result<Option<Json>, RelayError>)
      requires Valid()
      modifies this, reassembler
      ensures Valid() && reassembler == old(reassembler)
      ensures (State(), r) == Admit(wire, old(State()), envelope)
    {
      hide ObserveStep, TargetsActiveStream, Coherent;
      var kind := envelope.StringField("type");
      if kind != Some("server_message") && kind != Some("server_message_chunk") {
        return Ok(None);
      }
      var targets := TargetsActiveStream(envelope, clientId, environmentId, streamId);
      if targets.Err? {
        return Err(targets.error);
      }
      if !targets.value {
        return Ok(None);
      }
      var observed := reassembler.Observe(wire, envelope);
      if observed.Err? {
        return Err(observed.error);
      }
      if observed.value.None? {
        return Ok(None);
      }
      var complete := observed.value.value;
      var sequence := complete.U64Field("seq_id");
      if sequence.None? {
        return Err(NoSequence);
      }
      if seenServerSequence.Some? && sequence.value <= seenServerSequence.value {
        return Ok(None);
      }
      if seenServerSequence.Some? && sequence.value != SaturatingAdd(seenServerSequence.value, 1) {
        return Err(SequenceGap);
      }
      seenServerSequence := Some(sequence.value);
      var message := complete.Get("message");
      if message.None? {
        return Err(NoPayload);
      }
      return Ok(Some(message.value));
    }

    /** Position of the first pending occurrence of an id. */
    method FindPending(id: Json) returns (position: Option<nat>)
      ensures position.None? ==> RemoveFirst(pendingRequestIds, id) == pendingRequestIds
      ensures position.Some? ==>
                && position.value < |pendingRequestIds|
                && pendingRequestIds[position.value] == id
                && id !in pendingRequestIds[..position.value]
                && RemoveFirst(pendingRequestIds, id)
                   == pendingRequestIds[..position.value] + pendingRequestIds[position.value + 1..]
    {
      var i := 0;
      while i < |pendingRequestIds|
        invariant i <= |pendingRequestIds|
        invariant id !in pendingRequestIds[..i]
      {
        if pendingRequestIds[i] == id {
          RemoveFirstAt(pendingRequestIds, id, i);
          return Some(i);
        }
        i := i + 1;
      }
      assert pendingRequestIds[..i] == pendingRequestIds;
      RemoveFirstAbsent(pendingRequestIds, id);
      return None;
    }
  }

  lemma {:induction false} RemoveFirstAt(queue: seq<Json>, id: Json, i: nat)
    requires i < |queue| && queue[i] == id && id !in queue[..i]
    ensures RemoveFirst(queue, id) == queue[..i] + queue[i + 1..]
  {
    if i > 0 {
      assert queue[0] == queue[..i][0];
      assert queue[1..][..i - 1] == queue[..i][1..];
      RemoveFirstAt(queue[1..], id, i - 1);
    }
  }

  lemma {:induction false} RemoveFirstAbsent(queue: seq<Json>, id: Json)
    requires id !in queue
    ensures RemoveFirst(queue, id) == queue
  {
    if queue != [] {
      RemoveFirstAbsent(queue[1..], id);
    }
  }
}
