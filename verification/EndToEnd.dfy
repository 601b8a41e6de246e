/** Safety of a whole connection: whatever the channel drops, repeats, reorders or interleaves, the
    payloads taken in within a stream are a contiguous slice of what the server logged for it. */
module EndToEnd {
  import opened Wrappers
  import opened JsonValues
  import opened Chunking
  import opened Segmentation
  import opened Reassembler
  import opened KeyIndependence
  import opened RoundTrip
  import opened Transport
  import opened TransportRuns
  import opened Epochs
  import Base64

  /** One logged message and the pieces it is split into whenever it is split. */
  datatype Entry = Entry(message: Json, pieces: seq<Bytes>)

  /** What the server logged for a stream: consecutive numbers from `first`. */
  datatype Log = Log(first: nat, entries: seq<Entry>)

  function Messages(log: Log): seq<Json> {
    seq(|log.entries|, i requires 0 <= i < |log.entries| => log.entries[i].message)
  }

  /** The pieces of every entry are the bytes of its message. */
  ghost predicate SplitsItsMessages(wire: Wire, log: Log) {
    forall i | 0 <= i < |log.entries| :: wire.decode(Flatten(log.entries[i].pieces)) == Some(log.entries[i].message)
  }

  /** An envelope for entry `i`, whole or as one piece; its other fields are free. */
  ghost predicate CopyOf(envelope: Json, log: Log, i: nat) {
    && i < |log.entries|
    && envelope.U64Field("seq_id") == Some(log.first + i)
    && (|| WholeCopy(envelope, log.entries[i])
        || exists j: nat :: PieceCopy(envelope, log.entries[i], j))
  }

  ghost predicate WholeCopy(envelope: Json, entry: Entry) {
    envelope.StringField("type") == Some("server_message") && envelope.Get("message") == Some(entry.message)
  }

  ghost predicate PieceCopy(envelope: Json, entry: Entry, j: nat) {
    j < |entry.pieces| && CarriesPiece(envelope, j, |entry.pieces|, |Flatten(entry.pieces)|, entry.pieces[j])
  }

  /** The channel does not make up or alter envelopes for the active stream; anything else may come. */
  ghost predicate Authentic(s: Session, log: Log, envelope: Json) {
    IsServerMessage(envelope)
    && TargetsActiveStream(envelope, s.clientId, s.environmentId, s.streamId) == Ok(true)
    ==> exists i: nat :: CopyOf(envelope, log, i)
  }

  ghost predicate AuthenticRun(wire: Wire, h: History, events: seq<Event>, logs: string -> Log)
    decreases |events|
  {
    events == [] ||
    (&& (events[0].Receive? ==> Authentic(h.session, logs(h.session.streamId), events[0].envelope))
     && AuthenticRun(wire, Advance(wire, h, events[0]), events[1..], logs))
  }

  // ---------- What the buffer may hold ----------

  ghost predicate AssemblyFor(assembly: Assembly, log: Log, i: nat)
    requires i < |log.entries|
  {
    && PartOf(assembly.chunks, log.entries[i].pieces)
    && Obj(assembly.first).U64Field("seq_id") == Some(log.first + i)
  }

  ghost predicate BufferFromLog(s: Session, log: Log) {
    forall i | 0 <= i < |log.entries| :: EntryFromLog(s, log, i)
  }

  ghost predicate EntryFromLog(s: Session, log: Log, i: nat)
    requires i < |log.entries|
  {
    var key := AssemblyKey(s.environmentId, s.streamId, log.first + i);
    key in s.buffer.assemblies ==> AssemblyFor(s.buffer.assemblies[key], log, i)
  }

  /** Accepting a genuine piece keeps only genuine pieces together, and completes only genuine messages. */
  lemma AcceptCopy(buffer: Buffer, header: Header, fields: map<string, Json>, log: Log, i: nat)
    requires MetadataValid(header.id, header.count, header.size) && i < |log.entries|
    requires header.key in buffer.assemblies ==> AssemblyFor(buffer.assemblies[header.key], log, i)
    requires header.count == |log.entries[i].pieces| && header.chunk == log.entries[i].pieces[header.id]
    requires Obj(fields).U64Field("seq_id") == Some(log.first + i)
    ensures var (next, accepted) := Accept(buffer, header, fields);
            && (header.key in next.assemblies ==> AssemblyFor(next.assemblies[header.key], log, i))
            && (accepted.Ok? && accepted.value.Some? ==>
                  AssemblyFor(accepted.value.value, log, i) && Complete(accepted.value.value.chunks))
  {
  }

  lemma CopyHeader(wire: Wire, envelope: Json, log: Log, i: nat, j: nat)
    requires i < |log.entries| && PieceCopy(envelope, log.entries[i], j)
    ensures ReadHeader(wire, envelope).Ok? ==>
              ReadHeader(wire, envelope)
              == Ok(Header(j, |log.entries[i].pieces|, |Flatten(log.entries[i].pieces)|, ReadKey(envelope).value,
                           log.entries[i].pieces[j]))
  {
    hide ReadKey, Flatten;
    HeaderMatches(wire, envelope, j, |log.entries[i].pieces|, |Flatten(log.entries[i].pieces)|, log.entries[i].pieces[j]);
  }

  lemma HeaderMatches(wire: Wire, envelope: Json, id: nat, count: nat, size: nat, chunk: Bytes)
    requires CarriesPiece(envelope, id, count, size, chunk)
    ensures ReadHeader(wire, envelope).Ok? ==>
              ReadHeader(wire, envelope) == Ok(Header(id, count, size, ReadKey(envelope).value, chunk))
  {
    hide ReadKey;
    Base64.DecodeEncode(chunk);
  }

  lemma RebuiltCopy(wire: Wire, assembly: Assembly, log: Log, i: nat)
    requires i < |log.entries| && SplitsItsMessages(wire, log)
    requires AssemblyFor(assembly, log, i) && Complete(assembly.chunks)
    ensures var rebuilt := Rebuild(wire, assembly);
            rebuilt.Ok? ==>
              && rebuilt.value.U64Field("seq_id") == Some(log.first + i)
              && rebuilt.value.Get("message") == Some(log.entries[i].message)
  {
    hide Flatten, Collected;
    CompletePartIsWhole(assembly.chunks, log.entries[i].pieces);
    HeaderIsKept(assembly.first, log.entries[i].message);
    assert Obj(assembly.first).Get("seq_id") == ServerMessage(assembly.first, log.entries[i].message).Get("seq_id");
  }

  lemma ActiveKey(s: Session, envelope: Json, number: nat)
    requires TargetsActiveStream(envelope, s.clientId, s.environmentId, s.streamId) == Ok(true)
    requires envelope.U64Field("seq_id") == Some(number)
    ensures ReadKey(envelope) == Ok(AssemblyKey(s.environmentId, s.streamId, number))
  {
    hide AssemblyKey;
  }

  /** What a genuine envelope can do to the buffer, and what it can release. */
  lemma ObserveCopy(wire: Wire, s: Session, log: Log, envelope: Json, i: nat)
    requires SplitsItsMessages(wire, log) && BufferFromLog(s, log) && CopyOf(envelope, log, i)
    requires TargetsActiveStream(envelope, s.clientId, s.environmentId, s.streamId) == Ok(true)
    ensures var (buffer, outcome) := ObserveStep(wire, s.buffer, envelope);
            && BufferFromLog(s.(buffer := buffer), log)
            && (outcome.Ok? && outcome.value.Some? ==>
                  && outcome.value.value.U64Field("seq_id") == Some(log.first + i)
                  && outcome.value.value.Get("message") == Some(log.entries[i].message))
  {
    hide ReadHeader, ReadKey, Accept, AssemblyKey, AssemblyFor, Rebuild, Complete, Flatten, SplitsItsMessages,
         TargetsActiveStream, SameAt;
    var buffer := ObserveStep(wire, s.buffer, envelope).0;
    var key := AssemblyKey(s.environmentId, s.streamId, log.first + i);
    ActiveKey(s, envelope, log.first + i);
    assert EntryFromLog(s, log, i);
    if envelope.StringField("type") == Some("server_message_chunk") && ReadHeader(wire, envelope).Ok? {
      var j: nat :| PieceCopy(envelope, log.entries[i], j);
      var header := ReadHeader(wire, envelope).value;
      CopyHeader(wire, envelope, log, i, j);
      AcceptCopy(s.buffer, header, envelope.fields, log, i);
      var accepted := Accept(s.buffer, header, envelope.fields).1;
      if accepted.Ok? && accepted.value.Some? {
        RebuiltCopy(wire, accepted.value.value, log, i);
      }
    }
    assert EntryFromLog(s.(buffer := buffer), log, i);
    forall k | 0 <= k < |log.entries| ensures EntryFromLog(s.(buffer := buffer), log, k) {
      if k != i {
        assert EntryFromLog(s, log, k);
        OtherEntryUntouched(wire, s, log, envelope, i, k);
      }
    }
  }

  lemma OtherEntryUntouched(wire: Wire, s: Session, log: Log, envelope: Json, i: nat, k: nat)
    requires i < |log.entries| && k < |log.entries| && k != i
    requires ReadKey(envelope) == Ok(AssemblyKey(s.environmentId, s.streamId, log.first + i))
    requires EntryFromLog(s, log, k)
    ensures EntryFromLog(s.(buffer := ObserveStep(wire, s.buffer, envelope).0), log, k)
  {
    hide ReadKey, AssemblyKey, AssemblyFor, ObserveStep;
    KeyIsInjective(s.environmentId, s.streamId, log.first + i, log.first + k);
    OtherKeysUntouched(wire, s.buffer, envelope, AssemblyKey(s.environmentId, s.streamId, log.first + k));
  }

  // ---------- What is taken in ----------

  /** The accepted payloads are the slice of the log that ends with the last number seen. */
  ghost predicate EndsAtSeen(s: Session, log: Log, accepted: seq<Json>) {
    match s.seen
    case None => accepted == []
    case Some(n) =>
      && log.first <= n < log.first + |log.entries|
      && 1 <= |accepted| <= n - log.first + 1
      && accepted == Messages(log)[n - log.first + 1 - |accepted|..n - log.first + 1]
  }

  ghost predicate ContiguousSlice(part: seq<Json>, whole: seq<Json>) {
    exists a: nat, b: nat :: a <= b <= |whole| && part == whole[a..b]
  }

  lemma SeenGivesSlice(s: Session, log: Log, accepted: seq<Json>)
    requires EndsAtSeen(s, log, accepted)
    ensures ContiguousSlice(accepted, Messages(log))
  {
    if s.seen.None? {
      assert accepted == Messages(log)[0..0];
    }
  }

  lemma SliceExtends(messages: seq<Json>, lo: nat, i: nat)
    requires lo <= i < |messages|
    ensures messages[lo..i] + [messages[i]] == messages[lo..i + 1]
  {
  }

  /** What passes the sequence check is the entry right after the last one, or the first of all. */
  lemma SequencePasses(s: Session, complete: Json, n: nat, message: Json)
    requires complete.U64Field("seq_id") == Some(n) && complete.Get("message") == Some(message)
    ensures var (next, payload) := Sequence(s, complete);
            if payload == Ok(Some(message)) then next == s.(seen := Some(n)) && (s.seen.Some? ==> n == s.seen.value + 1)
            else next == s && (payload.Err? || payload == Ok(None))
  {
  }

  lemma SequenceExtends(s: Session, log: Log, accepted: seq<Json>, complete: Json, i: nat)
    requires EndsAtSeen(s, log, accepted) && i < |log.entries|
    requires complete.U64Field("seq_id") == Some(log.first + i)
    requires complete.Get("message") == Some(log.entries[i].message)
    ensures var (next, payload) := Sequence(s, complete);
            if payload.Ok? then
              if payload.value.Some? then EndsAtSeen(next, log, accepted + [payload.value.value]) else next == s
            else next == s && payload.Err?
  {
    hide Sequence;
    var messages := Messages(log);
    SequencePasses(s, complete, log.first + i, log.entries[i].message);
    if s.seen.None? {
      SliceExtends(messages, i, i);
    } else if log.first + i == s.seen.value + 1 {
      SliceExtends(messages, i - |accepted|, i);
    }
  }

  /** What is handed on is the payload, or the same error under a request id. */
  ghost predicate HandedOn(payload: Json, out: Json) {
    if payload.StringField("type") == Some("error") && payload.Get("id") == None then
      exists id :: Attributed(id, payload, out)
    else out == payload
  }

  ghost predicate Faithful(h: History, log: Log) {
    && BufferFromLog(h.session, log)
    && (if h.stopped then ContiguousSlice(h.intake.accepted, Messages(log))
        else EndsAtSeen(h.session, log, h.intake.accepted))
    && |h.intake.delivered| == |h.intake.accepted|
    && forall k | 0 <= k < |h.intake.accepted| :: HandedOn(h.intake.accepted[k], h.intake.delivered[k])
  }

  lemma AdmitCopy(wire: Wire, s: Session, log: Log, accepted: seq<Json>, envelope: Json)
    requires SplitsItsMessages(wire, log) && BufferFromLog(s, log) && EndsAtSeen(s, log, accepted)
    requires Authentic(s, log, envelope)
    ensures var (next, payload) := Admit(wire, s, envelope);
            && next.streamId == s.streamId
            && BufferFromLog(next, log)
            && (payload.Ok? ==>
                  EndsAtSeen(next, log, if payload.value.Some? then accepted + [payload.value.value] else accepted))
  {
    hide ObserveStep, TargetsActiveStream, SplitsItsMessages, CopyOf, Sequence, BufferFromLog, EndsAtSeen;
    if IsServerMessage(envelope)
       && TargetsActiveStream(envelope, s.clientId, s.environmentId, s.streamId) == Ok(true)
    {
      var i: nat :| CopyOf(envelope, log, i);
      ObserveCopy(wire, s, log, envelope, i);
      CopyInLog(envelope, log, i);
      var (buffer, outcome) := ObserveStep(wire, s.buffer, envelope);
      SameSeenEndsThere(s, s.(buffer := buffer), log, accepted);
      if outcome.Ok? && outcome.value.Some? {
        SequenceCopy(s.(buffer := buffer), log, accepted, outcome.value.value, i);
      }
    }
  }

  lemma SameSeenEndsThere(s: Session, t: Session, log: Log, accepted: seq<Json>)
    requires EndsAtSeen(s, log, accepted) && t.seen == s.seen
    ensures EndsAtSeen(t, log, accepted)
  {
  }

  lemma SequenceCopy(s: Session, log: Log, accepted: seq<Json>, complete: Json, i: nat)
    requires BufferFromLog(s, log) && EndsAtSeen(s, log, accepted) && i < |log.entries|
    requires complete.U64Field("seq_id") == Some(log.first + i)
    requires complete.Get("message") == Some(log.entries[i].message)
    ensures var (next, payload) := Sequence(s, complete);
            && next.streamId == s.streamId
            && BufferFromLog(next, log)
            && (payload.Ok? ==>
                  EndsAtSeen(next, log, if payload.value.Some? then accepted + [payload.value.value] else accepted))
  {
    hide Sequence, BufferFromLog, EndsAtSeen;
    SequenceExtends(s, log, accepted, complete, i);
    SequenceKeepsBuffer(s, complete);
    SameBufferFromLog(s, Sequence(s, complete).0, log);
  }

  lemma CopyInLog(envelope: Json, log: Log, i: nat)
    requires CopyOf(envelope, log, i)
    ensures i < |log.entries|
  {
  }

  lemma SequenceKeepsBuffer(s: Session, complete: Json)
    ensures Sequence(s, complete).0 == s.(seen := Sequence(s, complete).0.seen)
  {
  }

  lemma SameBufferFromLog(s: Session, t: Session, log: Log)
    requires BufferFromLog(s, log)
    requires t.buffer == s.buffer && t.environmentId == s.environmentId && t.streamId == s.streamId
    ensures BufferFromLog(t, log)
  {
    hide AssemblyFor, AssemblyKey;
    forall i | 0 <= i < |log.entries| ensures EntryFromLog(t, log, i) {
      assert EntryFromLog(s, log, i);
    }
  }

  lemma PayloadIsHandedOn(h: History, admitted: Session, message: Json, log: Log)
    requires BufferFromLog(admitted, log) && EndsAtSeen(admitted, log, h.intake.accepted + [message])
    requires Faithful(h, log) && !h.stopped
    ensures Faithful(AfterPayload(h, admitted, message), log)
  {
    hide Messages, RemoveFirst, NoteReply, EntryFromLog, BufferFromLog, Attributed, AttributedError;
    var next := AfterPayload(h, admitted, message);
    SeenGivesSlice(h.session, log, h.intake.accepted);
    SameBufferFromLog(admitted, next.session, log);
    if !next.stopped && message.StringField("type") == Some("error") && message.Get("id") == None {
      AnonymousErrorIsAttributed(admitted, message);
      assert Attributed(admitted.pending[0], message, next.intake.delivered[|h.intake.delivered|]);
    }
  }

  lemma ReceiveStaysFaithful(wire: Wire, h: History, envelope: Json, log: Log)
    requires SplitsItsMessages(wire, log) && Faithful(h, log) && !h.stopped
    requires Authentic(h.session, log, envelope)
    ensures Faithful(AfterReceive(wire, h, envelope), log)
    ensures AfterReceive(wire, h, envelope).session.streamId == h.session.streamId
  {
    hide Admit, Messages, BufferFromLog, EndsAtSeen, ContiguousSlice, SplitsItsMessages, Authentic, HandedOn, AfterPayload;
    AdmitCopy(wire, h.session, log, h.intake.accepted, envelope);
    SeenGivesSlice(h.session, log, h.intake.accepted);
    var (admitted, payload) := Admit(wire, h.session, envelope);
    if payload.Ok? && payload.value.Some? {
      PayloadIsHandedOn(h, admitted, payload.value.value, log);
      PayloadKeepsStream(h, admitted, payload.value.value);
    }
  }

  lemma PayloadKeepsStream(h: History, admitted: Session, message: Json)
    ensures AfterPayload(h, admitted, message).session.streamId == admitted.streamId
  {
  }

  lemma EmptyIsFaithful(h: History, log: Log)
    requires h.session.buffer == EMPTY_BUFFER && h.session.seen == None && h.intake == NO_INTAKE
    ensures Faithful(h, log)
  {
    assert [] == Messages(log)[0..0];
  }

  lemma SendStaysFaithful(wire: Wire, h: History, message: Json, freshStreamId: string, logs: string -> Log)
    requires Faithful(h, logs(h.session.streamId)) && !h.stopped
    ensures var next := AfterSend(wire, h, message, freshStreamId); Faithful(next, logs(next.session.streamId))
  {
    hide SegmentationOf, BufferFromLog, Messages, NoteIssued, RequestId, HandedOn;
    var next := AfterSend(wire, h, message, freshStreamId);
    if IsInitialize(message) {
      EmptyIsFaithful(next, logs(next.session.streamId));
    } else {
      var log := logs(h.session.streamId);
      SeenGivesSlice(h.session, log, h.intake.accepted);
      SameBufferFromLog(h.session, next.session, log);
    }
  }

  lemma {:induction false} EveryRunStaysFaithful(wire: Wire, h: History, events: seq<Event>, logs: string -> Log)
    requires forall stream :: SplitsItsMessages(wire, logs(stream))
    requires Faithful(h, logs(h.session.streamId)) && AuthenticRun(wire, h, events, logs)
    ensures var end := Run(wire, h, events); Faithful(end, logs(end.session.streamId))
    decreases |events|
  {
    hide Faithful, AfterSend, AfterReceive, SplitsItsMessages, Authentic;
    if h.stopped || events == [] {
      StoppedStays(wire, h, events);
    } else {
      match events[0] {
        case Send(message, freshStreamId) =>
          SendStaysFaithful(wire, h, message, freshStreamId, logs);
        case Receive(envelope) =>
          ReceiveStaysFaithful(wire, h, envelope, logs(h.session.streamId));
      }
      EveryRunStaysFaithful(wire, Advance(wire, h, events[0]), events[1..], logs);
    }
  }

  /** End-to-end safety.  The server logs a numbered sequence of messages for each stream and sends each
      whole or split in one fixed way; the channel may drop, repeat, reorder and interleave envelopes,
      and anything may be sent meanwhile.  Then at every moment the payloads accepted in the current
      stream are a contiguous slice of its log: in order, each once, with their original content.  Each
      is handed on unchanged, except that an error without an id is given the id of a request. */
  lemma EndToEndSafety(wire: Wire, clientId: string, environmentId: string, streamId: string,
                       events: seq<Event>, logs: string -> Log)
    requires forall stream :: SplitsItsMessages(wire, logs(stream))
    requires AuthenticRun(wire, Opened(clientId, environmentId, streamId), events, logs)
    ensures var h := Run(wire, Opened(clientId, environmentId, streamId), events);
            && ContiguousSlice(h.intake.accepted, Messages(logs(h.session.streamId)))
            && |h.intake.delivered| == |h.intake.accepted|
            && forall k | 0 <= k < |h.intake.accepted| :: HandedOn(h.intake.accepted[k], h.intake.delivered[k])
  {
    hide Run, AuthenticRun, SplitsItsMessages, EndsAtSeen, BufferFromLog, HandedOn, ContiguousSlice;
    var start := Opened(clientId, environmentId, streamId);
    EmptyIsFaithful(start, logs(streamId));
    EveryRunStaysFaithful(wire, start, events, logs);
    var h := Run(wire, start, events);
    if !h.stopped {
      SeenGivesSlice(h.session, logs(h.session.streamId), h.intake.accepted);
    }
  }
}
