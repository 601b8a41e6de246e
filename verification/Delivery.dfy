/** The other half of the end-to-end promise: over a channel that loses nothing and keeps the messages
    in order, every message arrives. */
module Delivery {
  import opened Wrappers
  import opened JsonValues
  import opened Chunking
  import opened Segmentation
  import opened SegmentationTheorems
  import opened Reassembler
  import opened ReassemblerRuns
  import opened RoundTrip
  import opened Transport
  import opened TransportRuns
  import Epochs

  /** How one message travels: whole, or in pieces of which `last` is the last to arrive for the first
      time, the others coming before it in any order with repeats. */
  datatype Parcel = Whole(envelope: Json) | Split(shipment: Shipment, order: seq<nat>, last: nat)

  predicate InOrder(parcel: Parcel) {
    parcel.Split? ==>
      && parcel.last < |parcel.shipment.pieces|
      && forall j | 0 <= j < |parcel.order| :: parcel.order[j] < |parcel.shipment.pieces|
  }

  function Envelopes(parcel: Parcel): seq<Json>
    requires InOrder(parcel)
  {
    match parcel
    case Whole(envelope) => [envelope]
    case Split(shipment, order, last) => Deliveries(shipment, order) + [shipment.Envelope(last)]
  }

  predicate IsActive(s: Session, envelope: Json, number: nat) {
    && TargetsActiveStream(envelope, s.clientId, s.environmentId, s.streamId) == Ok(true)
    && envelope.U64Field("seq_id") == Some(number)
  }

  ghost predicate Carries(wire: Wire, s: Session, parcel: Parcel, number: nat, message: Json) {
    match parcel
    case Whole(envelope) =>
      && IsActive(s, envelope, number)
      && envelope.StringField("type") == Some("server_message")
      && envelope.Get("message") == Some(message)
    case Split(shipment, order, last) =>
      && shipment.Valid() && shipment.FramesFit(wire)
      && IsActive(s, Obj(shipment.fields), number)
      && CoversAllButLast(order, last, |shipment.pieces|)
      && wire.decode(Flatten(shipment.pieces)) == Some(message) && message.Obj?
  }

  /** The parcels carry the messages, numbered from `number`. */
  ghost predicate CarryInOrder(wire: Wire, s: Session, parcels: seq<Parcel>, number: nat, messages: seq<Json>) {
    && |parcels| == |messages|
    && forall i | 0 <= i < |parcels| :: Carries(wire, s, parcels[i], number + i, messages[i])
  }

  function Traffic(parcels: seq<Parcel>): seq<Event>
    requires forall i | 0 <= i < |parcels| :: InOrder(parcels[i])
  {
    if parcels == [] then [] else Receives(Envelopes(parcels[0])) + Traffic(parcels[1..])
  }

  function Receives(envelopes: seq<Json>): seq<Event> {
    seq(|envelopes|, i requires 0 <= i < |envelopes| => Receive(envelopes[i]))
  }

  /** Nothing is buffered and `number` comes next. */
  predicate Expects(s: Session, number: nat) {
    s.buffer == EMPTY_BUFFER && (s.seen.Some? ==> s.seen.value + 1 == number)
  }

  /** An error without an id needs a request to be attributed to. */
  predicate CanTake(pending: seq<Json>, message: Json) {
    IsAnonymousError(message) ==> pending != []
  }

  function PendingAfter(pending: seq<Json>, message: Json): seq<Json>
    requires CanTake(pending, message)
  {
    if IsAnonymousError(message) then pending[1..]
    else match message.Get("id") case Some(id) => RemoveFirst(pending, id) case None => pending
  }

  function HandedOn(pending: seq<Json>, message: Json): (out: Json)
    requires CanTake(pending, message)
    ensures if message.StringField("type") == Some("error") && message.Get("id") == None
            then Attributed(pending[0], message, out) else out == message
  {
    if IsAnonymousError(message) then AttributedError(pending[0], message) else message
  }

  /** `next` is `h` with one more message taken in and handed on, or stopped for want of a request. */
  predicate Took(h: History, next: History, buffer: Buffer, number: nat, message: Json) {
    var seen := h.session.(buffer := buffer, seen := Some(number));
    if CanTake(h.session.pending, message) then
      && next.stopped == h.stopped
      && next.session == seen.(pending := PendingAfter(h.session.pending, message))
      && next.intake == Intake(h.intake.accepted + [message],
                               h.intake.delivered + [HandedOn(h.session.pending, message)])
    else next == h.(session := seen, stopped := true)
  }

  lemma ReleasedIsTaken(wire: Wire, h: History, envelope: Json, buffer: Buffer, complete: Json, number: nat, message: Json)
    requires !h.stopped && IsServerMessage(envelope)
    requires TargetsActiveStream(envelope, h.session.clientId, h.session.environmentId, h.session.streamId) == Ok(true)
    requires h.session.seen.Some? ==> h.session.seen.value + 1 == number
    requires ObserveStep(wire, h.session.buffer, envelope) == (buffer, Ok(Some(complete)))
    requires complete.U64Field("seq_id") == Some(number) && complete.Get("message") == Some(message)
    ensures Took(h, Advance(wire, h, Receive(envelope)), buffer, number, message)
  {
    hide ObserveStep, TargetsActiveStream, NoteReply, RemoveFirst;
  }

  lemma SilentOnlyBuffers(wire: Wire, h: History, envelope: Json, buffer: Buffer)
    requires !h.stopped && IsServerMessage(envelope)
    requires TargetsActiveStream(envelope, h.session.clientId, h.session.environmentId, h.session.streamId) == Ok(true)
    requires ObserveStep(wire, h.session.buffer, envelope) == (buffer, Ok(None))
    ensures Advance(wire, h, Receive(envelope)) == h.(session := h.session.(buffer := buffer))
  {
    hide ObserveStep, TargetsActiveStream;
  }

  lemma {:induction false} SilenceThenMessage(wire: Wire, h: History, run: seq<Json>, complete: Json,
                                              number: nat, message: Json)
    requires !h.stopped && run != []
    requires forall e | e in run ::
               IsServerMessage(e)
               && TargetsActiveStream(e, h.session.clientId, h.session.environmentId, h.session.streamId) == Ok(true)
    requires h.session.seen.Some? ==> h.session.seen.value + 1 == number
    requires Outcomes(wire, h.session.buffer, run) == Silence(|run| - 1) + [Ok(Some(complete))]
    requires complete.U64Field("seq_id") == Some(number) && complete.Get("message") == Some(message)
    ensures Took(h, Run(wire, h, Receives(run)), BufferAfter(wire, h.session.buffer, run), number, message)
    decreases |run|
  {
    hide ObserveStep, TargetsActiveStream, IsServerMessage, Advance, CanTake, PendingAfter, HandedOn;
    var (buffer, outcome) := ObserveStep(wire, h.session.buffer, run[0]);
    assert Outcomes(wire, h.session.buffer, run)[0] == outcome;
    assert Receives(run)[1..] == Receives(run[1..]);
    if |run| == 1 {
      ReleasedIsTaken(wire, h, run[0], buffer, complete, number, message);
      assert run[1..] == [];
    } else {
      assert Outcomes(wire, h.session.buffer, run)[1..] == Silence(|run[1..]| - 1) + [Ok(Some(complete))];
      SilentOnlyBuffers(wire, h, run[0], buffer);
      SilenceThenMessage(wire, h.(session := h.session.(buffer := buffer)), run[1..], complete, number, message);
    }
  }

  lemma PieceIsActive(s: Session, shipment: Shipment, number: nat, id: nat)
    requires id < |shipment.pieces| && IsActive(s, Obj(shipment.fields), number)
    ensures IsServerMessage(shipment.Envelope(id))
    ensures TargetsActiveStream(shipment.Envelope(id), s.clientId, s.environmentId, s.streamId) == Ok(true)
  {
    var envelope := shipment.Envelope(id);
    assert forall name | name in {"client_id", "env_id", "stream_id"} ::
        envelope.StringField(name) == Obj(shipment.fields).StringField(name);
  }

  lemma PiecesTakeTheMessage(wire: Wire, h: History, parcel: Parcel, number: nat, message: Json)
    requires parcel.Split? && !h.stopped && Expects(h.session, number)
    requires Carries(wire, h.session, parcel, number, message)
    ensures InOrder(parcel)
    ensures Took(h, Run(wire, h, Receives(Envelopes(parcel))), EMPTY_BUFFER, number, message)
  {
    hide Outcomes, BufferAfter, Run, Flatten, Took, IsServerMessage, TargetsActiveStream,
         parcel.shipment.Valid, parcel.shipment.FramesFit, parcel.shipment.Envelope;
    var s, run := parcel.shipment, Envelopes(parcel);
    NothingBuffered(s);
    DeliverInAnyOrder(wire, s, EMPTY_BUFFER, EMPTY_BUFFER, {}, parcel.order, parcel.last, message);
    HeaderIsKept(s.fields, message);
    forall e | e in run
      ensures IsServerMessage(e)
      ensures TargetsActiveStream(e, h.session.clientId, h.session.environmentId, h.session.streamId) == Ok(true)
    {
      var j :| 0 <= j < |run| && run[j] == e;
      PieceIsActive(h.session, s, number, if j < |parcel.order| then parcel.order[j] else parcel.last);
    }
    SilenceThenMessage(wire, h, run, ServerMessage(s.fields, message), number, message);
  }

  lemma NothingBuffered(s: Shipment)
    requires s.Valid()
    ensures s.HasRoom(EMPTY_BUFFER) && s.Holds(EMPTY_BUFFER, EMPTY_BUFFER, {})
  {
    hide Flatten, ReadKey;
  }

  lemma ParcelTakesTheMessage(wire: Wire, h: History, parcel: Parcel, number: nat, message: Json)
    requires !h.stopped && Expects(h.session, number)
    requires Carries(wire, h.session, parcel, number, message)
    ensures InOrder(parcel)
    ensures Took(h, Run(wire, h, Receives(Envelopes(parcel))), EMPTY_BUFFER, number, message)
  {
    hide TargetsActiveStream, Took, Advance;
    match parcel
    case Split(_, _, _) =>
      PiecesTakeTheMessage(wire, h, parcel, number, message);
    case Whole(envelope) =>
      ReleasedIsTaken(wire, h, envelope, EMPTY_BUFFER, envelope, number, message);
      assert Receives([envelope])[1..] == [];
  }

  lemma {:induction false} RunInTwo(wire: Wire, h: History, first: seq<Event>, second: seq<Event>)
    ensures Run(wire, h, first + second) == Run(wire, Run(wire, h, first), second)
    decreases |first|
  {
    hide Advance;
    if first == [] {
      assert first + second == second;
    } else {
      assert (first + second)[1..] == first[1..] + second;
      RunInTwo(wire, Advance(wire, h, first[0]), first[1..], second);
    }
  }

  lemma RestIsCarried(wire: Wire, s: Session, next: Session, parcels: seq<Parcel>, number: nat, messages: seq<Json>)
    requires parcels != [] && CarryInOrder(wire, s, parcels, number, messages)
    requires next.clientId == s.clientId && next.environmentId == s.environmentId && next.streamId == s.streamId
    ensures CarryInOrder(wire, next, parcels[1..], number + 1, messages[1..])
  {
    hide TargetsActiveStream, Flatten;
    forall i | 0 <= i < |parcels[1..]|
      ensures Carries(wire, next, parcels[1..][i], number + 1 + i, messages[1..][i])
    {
      assert Carries(wire, s, parcels[i + 1], number + (i + 1), messages[i + 1]);
    }
  }

  /** How many messages are taken before an error without an id finds no request waiting. */
  function Taken(pending: seq<Json>, messages: seq<Json>): (count: nat)
    ensures count <= |messages|
    decreases |messages|
  {
    if messages == [] || !CanTake(pending, messages[0]) then 0
    else 1 + Taken(PendingAfter(pending, messages[0]), messages[1..])
  }

  function AllHandedOn(pending: seq<Json>, messages: seq<Json>): seq<Json>
    decreases |messages|
  {
    if messages == [] || !CanTake(pending, messages[0]) then []
    else [HandedOn(pending, messages[0])] + AllHandedOn(PendingAfter(pending, messages[0]), messages[1..])
  }

  /** `end` is `h` with these messages taken in and handed on, up to the first that cannot be. */
  predicate TookAll(h: History, end: History, number: nat, messages: seq<Json>) {
    var count := Taken(h.session.pending, messages);
    && (end.stopped <==> count < |messages|)
    && (!end.stopped ==> Expects(end.session, number + |messages|))
    && end.intake.accepted == h.intake.accepted + messages[..count]
    && end.intake.delivered == h.intake.delivered + AllHandedOn(h.session.pending, messages)
  }

  lemma FirstThenRest(h: History, next: History, end: History, number: nat, messages: seq<Json>)
    requires !h.stopped && messages != [] && Took(h, next, EMPTY_BUFFER, number, messages[0])
    requires if next.stopped then end == next else TookAll(next, end, number + 1, messages[1..])
    ensures TookAll(h, end, number, messages)
  {
    hide IsAnonymousError, RemoveFirst, PendingAfter, HandedOn;
    var count := Taken(h.session.pending, messages);
    if count > 0 {
      assert messages[..count] == [messages[0]] + messages[1..][..count - 1];
    }
  }

  lemma NextIsExpected(h: History, next: History, number: nat, message: Json)
    requires !h.stopped && Took(h, next, EMPTY_BUFFER, number, message)
    ensures next.stopped || Expects(next.session, number + 1)
    ensures next.session.clientId == h.session.clientId
    ensures next.session.environmentId == h.session.environmentId && next.session.streamId == h.session.streamId
  {
  }

  lemma TrafficInTwo(wire: Wire, h: History, parcels: seq<Parcel>)
    requires parcels != [] && forall i | 0 <= i < |parcels| :: InOrder(parcels[i])
    ensures Run(wire, h, Traffic(parcels))
            == Run(wire, Run(wire, h, Receives(Envelopes(parcels[0]))), Traffic(parcels[1..]))
  {
    hide Run, InOrder, Envelopes, Receives;
    RunInTwo(wire, h, Receives(Envelopes(parcels[0])), Traffic(parcels[1..]));
  }

  /** Completeness: when the messages after the last one seen all arrive in order, each whole or in
      all its pieces, they are accepted and handed on one after another and nothing stays buffered; the
      connection stops if and only if an error without an id comes when no request is waiting. */
  lemma {:induction false} LosslessOrderDeliversAll(wire: Wire, h: History, parcels: seq<Parcel>, number: nat,
                                                   messages: seq<Json>)
    requires !h.stopped && Expects(h.session, number)
    requires CarryInOrder(wire, h.session, parcels, number, messages)
    ensures forall i | 0 <= i < |parcels| :: InOrder(parcels[i])
    ensures TookAll(h, Run(wire, h, Traffic(parcels)), number, messages)
    decreases |parcels|
  {
    hide Carries, Envelopes, Receives, InOrder, Took, Run, Traffic, Taken, AllHandedOn;
    EachInOrder(wire, h.session, parcels, number, messages);
    if parcels == [] {
      NothingToTake(wire, h, parcels, number, messages);
    } else {
      hide Expects, TookAll;
      assert Carries(wire, h.session, parcels[0], number + 0, messages[0]);
      ParcelTakesTheMessage(wire, h, parcels[0], number, messages[0]);
      var next := Run(wire, h, Receives(Envelopes(parcels[0])));
      NextIsExpected(h, next, number, messages[0]);
      TrafficInTwo(wire, h, parcels);
      if next.stopped {
        Epochs.StoppedStays(wire, next, Traffic(parcels[1..]));
      } else {
        RestIsCarried(wire, h.session, next.session, parcels, number, messages);
        LosslessOrderDeliversAll(wire, next, parcels[1..], number + 1, messages[1..]);
      }
      FirstThenRest(h, next, Run(wire, h, Traffic(parcels)), number, messages);
    }
  }

  lemma EachInOrder(wire: Wire, s: Session, parcels: seq<Parcel>, number: nat, messages: seq<Json>)
    requires CarryInOrder(wire, s, parcels, number, messages)
    ensures forall i | 0 <= i < |parcels| :: InOrder(parcels[i])
  {
    hide TargetsActiveStream, Flatten;
    forall i | 0 <= i < |parcels| ensures InOrder(parcels[i]) {
      assert Carries(wire, s, parcels[i], number + i, messages[i]);
    }
  }

  /** How many requests the messages can use up between them. */
  function Consumes(messages: seq<Json>): nat {
    if messages == [] then 0
    else (if IsAnonymousError(messages[0]) || messages[0].Get("id").Some? then 1 else 0) + Consumes(messages[1..])
  }

  lemma {:induction false} RemovesAtMostOne(queue: seq<Json>, id: Json)
    ensures |queue| - 1 <= |RemoveFirst(queue, id)| <= |queue|
  {
    if queue != [] && queue[0] != id {
      RemovesAtMostOne(queue[1..], id);
    }
  }

  /** With as many requests waiting as the messages can use up, every message is taken. */
  lemma {:induction false} EnoughRequestsTakeAll(pending: seq<Json>, messages: seq<Json>)
    requires |pending| >= Consumes(messages)
    ensures Taken(pending, messages) == |messages|
    decreases |messages|
  {
    if messages != [] {
      if !IsAnonymousError(messages[0]) && messages[0].Get("id").Some? {
        RemovesAtMostOne(pending, messages[0].Get("id").value);
      }
      EnoughRequestsTakeAll(PendingAfter(pending, messages[0]), messages[1..]);
    }
  }

  lemma NothingToTake(wire: Wire, h: History, parcels: seq<Parcel>, number: nat, messages: seq<Json>)
    requires parcels == [] && messages == [] && !h.stopped && Expects(h.session, number)
    ensures TookAll(h, Run(wire, h, Traffic(parcels)), number, messages)
  {
  }

  /** A whole message out of turn is never taken in: a repeat changes nothing, and a gap ends the
      connection with nothing more accepted. */
  lemma OutOfTurnIsNotTaken(wire: Wire, h: History, envelope: Json, number: nat, message: Json)
    requires !h.stopped && Carries(wire, h.session, Whole(envelope), number, message) && h.session.seen.Some?
    requires number != h.session.seen.value + 1
    ensures Advance(wire, h, Receive(envelope)) == if number <= h.session.seen.value then h else h.(stopped := true)
  {
    hide TargetsActiveStream;
  }
}
