/** A connection over its whole life: sends and receipts in any interleaving, up to the first error,
    which ends the bridge.  The history records what went on beside the session itself. */
module TransportRuns {
  import opened Wrappers
  import opened JsonValues
  import opened Segmentation
  import opened Reassembler
  import opened Transport

  datatype Event =
    | Send(message: Json, freshStreamId: string)
    | Receive(envelope: Json)

  /** The name under which one client message goes out. */
  datatype Label = Label(stream: string, number: nat)

  /** One request id that was sent, and whether a reply has been set against it. */
  datatype Ticket = Ticket(id: Json, used: bool)

  /** Payloads admitted in the current stream, and what was handed on for each. */
  datatype Intake = Intake(accepted: seq<Json>, delivered: seq<Json>)

  /** Request ids of the current stream: as sent, as a ledger, and those consumed by a matching reply
      or by an error without an id. */
  datatype Requests = Requests(issued: seq<Json>, ledger: seq<Ticket>, matched: seq<Json>, blamed: seq<Json>)

  datatype History = History(
    session: Session,
    stopped: bool,
    intake: Intake,
    requests: Requests,
    sent: seq<Label>,
    streams: set<string>)

  const NO_INTAKE: Intake := Intake([], [])
  const NO_REQUESTS: Requests := Requests([], [], [], [])

  /** A connection that has just been opened. */
  function Opened(clientId: string, environmentId: string, streamId: string): History {
    History(Session(clientId, environmentId, streamId, 1, [], EMPTY_BUFFER, None),
            false, NO_INTAKE, NO_REQUESTS, [], {streamId})
  }

  // ---------- The ledger: a reference account of the request ids ----------

  function NewTickets(ids: seq<Json>): seq<Ticket> {
    seq(|ids|, i requires 0 <= i < |ids| => Ticket(ids[i], false))
  }

  /** The ids still waiting, oldest first. */
  function Unused(ledger: seq<Ticket>): seq<Json> {
    if ledger == [] then []
    else (if ledger[0].used then [] else [ledger[0].id]) + Unused(ledger[1..])
  }

  /** Set a reply against the oldest waiting request. */
  function UseOldest(ledger: seq<Ticket>): seq<Ticket> {
    if ledger == [] then []
    else if ledger[0].used then [ledger[0]] + UseOldest(ledger[1..])
    else [ledger[0].(used := true)] + ledger[1..]
  }

  /** Set a reply against the oldest waiting request with this id. */
  function UseMatching(ledger: seq<Ticket>, id: Json): seq<Ticket> {
    if ledger == [] then []
    else if ledger[0].used || ledger[0].id != id then [ledger[0]] + UseMatching(ledger[1..], id)
    else [ledger[0].(used := true)] + ledger[1..]
  }

  function NoteIssued(r: Requests, ids: seq<Json>): Requests {
    r.(issued := r.issued + ids, ledger := r.ledger + NewTickets(ids))
  }

  function NoteReply(r: Requests, pending: seq<Json>, message: Json): Requests {
    if IsAnonymousError(message) then
      if pending == [] then r else r.(ledger := UseOldest(r.ledger), blamed := r.blamed + [pending[0]])
    else
      match message.Get("id")
      case None => r
      case Some(id) =>
        if id in pending then r.(ledger := UseMatching(r.ledger, id), matched := r.matched + [id]) else r
  }

  // ---------- Steps ----------

  function AfterSend(wire: Wire, h: History, message: Json, freshStreamId: string): History {
    var ready := Prepared(h.session, message, freshStreamId);
    var (next, outcome) := OutgoingStep(wire, h.session, message, freshStreamId);
    var requests := if IsInitialize(message) then NO_REQUESTS else h.requests;
    var done := outcome.Finished? && outcome.result.Ok?;
    History(next,
            !done,
            if IsInitialize(message) then NO_INTAKE else h.intake,
            NoteIssued(requests, RequestId(message)),
            if done then h.sent + [Label(ready.streamId, ready.nextClientSequence)] else h.sent,
            if IsInitialize(message) then h.streams + {freshStreamId} else h.streams)
  }

  function AfterReceive(wire: Wire, h: History, envelope: Json): History {
    var (admitted, payload) := Admit(wire, h.session, envelope);
    match payload
    case Err(_) => h.(session := admitted, stopped := true)
    case Ok(None) => h.(session := admitted)
    case Ok(Some(message)) => AfterPayload(h, admitted, message)
  }

  function AfterPayload(h: History, admitted: Session, message: Json): History {
    var (next, out) := Attribute(admitted, message);
    match out
    case Err(_) => h.(session := next, stopped := true)
    case Ok(handed) =>
      h.(session := next,
         intake := Intake(h.intake.accepted + [message], h.intake.delivered + [handed]),
         requests := NoteReply(h.requests, admitted.pending, message))
  }

  function Advance(wire: Wire, h: History, event: Event): History {
    if h.stopped then h
    else
      match event
      case Send(message, freshStreamId) => AfterSend(wire, h, message, freshStreamId)
      case Receive(envelope) => AfterReceive(wire, h, envelope)
  }

  function Run(wire: Wire, h: History, events: seq<Event>): History
    decreases |events|
  {
    if events == [] then h else Run(wire, Advance(wire, h, events[0]), events[1..])
  }

  /** The history is the source's own steps, and hands on exactly what they return. */
  lemma HistoryFollowsTheSource(wire: Wire, h: History, envelope: Json)
    requires !h.stopped
    ensures var (next, outcome) := IncomingStep(wire, h.session, envelope);
            var after := Advance(wire, h, Receive(envelope));
            && after.session == next
            && after.stopped == outcome.Err?
            && after.intake.delivered == h.intake.delivered
                 + (if outcome.Ok? && outcome.value.Some? then [outcome.value.value] else [])
  {
    hide Admit;
  }
}
