/** Streams keep apart: what is buffered belongs to the active stream, and what is sent never reuses
    a name. */
module Epochs {
  import opened Wrappers
  import opened JsonValues
  import opened Segmentation
  import opened SegmentationTheorems
  import opened Chunking
  import opened Reassembler
  import opened Transport
  import opened TransportRuns
  import Decimals

  // ---------- Assembly keys ----------

  ghost predicate KeyOfStream(key: string, environmentId: string, streamId: string) {
    exists n: nat :: n <= U64_MAX && key == AssemblyKey(environmentId, streamId, n)
  }

  /** Within one environment and stream, a key names one sequence number. */
  lemma KeyIsInjective(environmentId: string, streamId: string, m: nat, n: nat)
    ensures AssemblyKey(environmentId, streamId, m) == AssemblyKey(environmentId, streamId, n) ==> m == n
  {
    var prefix := environmentId + ":" + streamId + ":";
    if AssemblyKey(environmentId, streamId, m) == AssemblyKey(environmentId, streamId, n) {
      assert Decimals.Render(m) == (prefix + Decimals.Render(m))[|prefix|..];
      assert Decimals.Render(n) == (prefix + Decimals.Render(n))[|prefix|..];
      Decimals.RenderInjective(m, n);
    }
  }

  function Scope(environmentId: string, streamId: string): string {
    environmentId + ":" + streamId
  }

  /** Behind the last colon there are only digits. */
  lemma LastColon(scope: string, digits: string, i: int)
    requires forall j | 0 <= j < |digits| :: Decimals.IsDigit(digits[j])
    requires 0 <= i < |scope + ":" + digits|
    ensures (scope + ":" + digits)[|scope|] == ':'
    ensures (scope + ":" + digits)[i] == ':' ==> i <= |scope|
  {
    assert i > |scope| ==> (scope + ":" + digits)[i] == digits[i - |scope| - 1];
  }

  /** The number behind the last colon can be read off a key. */
  lemma KeyTellsNumber(scope: string, m: nat, other: string, n: nat)
    requires scope + ":" + Decimals.Render(m) == other + ":" + Decimals.Render(n)
    ensures m == n && scope == other
  {
    var key := scope + ":" + Decimals.Render(m);
    var a, b := |Decimals.Render(m)|, |Decimals.Render(n)|;
    hide Decimals.Render;
    LastColon(scope, Decimals.Render(m), |key| - 1 - b);
    LastColon(other, Decimals.Render(n), |key| - 1 - a);
    assert Decimals.Render(m) == key[|key| - a..] && Decimals.Render(n) == key[|key| - b..];
    assert scope == key[..|key| - 1 - a] && other == key[..|key| - 1 - b];
    Decimals.RenderInjective(m, n);
  }

  /** The part after a colon of one environment id is read as the start of the other stream id. */
  ghost predicate Shifted(e: string, s: string, f: string, t: string) {
    exists between: string :: f == e + ":" + between && s == between + ":" + t
  }

  lemma ScopeSplits(e: string, s: string, f: string, t: string)
    requires |e| <= |f| && Scope(e, s) == Scope(f, t)
    ensures (e == f && s == t) || Shifted(e, s, f, t)
  {
    var scope := Scope(e, s);
    assert e == scope[..|e|] && f == scope[..|f|] && t == scope[|f| + 1..] && s == scope[|e| + 1..];
    if |e| < |f| {
      assert scope[|e|] == ':' && scope[|f|] == ':';
      var between := f[|e| + 1..];
      assert f == e + ":" + between;
      assert s == between + ":" + t;
    }
  }

  /** Exactly when two keys collide: the numbers are equal and either both ids are, or one environment
      id is the other with a colon and some text, and that text and a colon begin the other's stream id. */
  lemma KeysCollideIff(e: string, s: string, m: nat, f: string, t: string, n: nat)
    ensures AssemblyKey(e, s, m) == AssemblyKey(f, t, n)
            <==> m == n && ((e == f && s == t) || Shifted(e, s, f, t) || Shifted(f, t, e, s))
  {
    assert AssemblyKey(e, s, m) == Scope(e, s) + ":" + Decimals.Render(m);
    assert AssemblyKey(f, t, n) == Scope(f, t) + ":" + Decimals.Render(n);
    if AssemblyKey(e, s, m) == AssemblyKey(f, t, n) {
      KeyTellsNumber(Scope(e, s), m, Scope(f, t), n);
      if |e| <= |f| {
        ScopeSplits(e, s, f, t);
      } else {
        ScopeSplits(f, t, e, s);
      }
    }
    ShiftedIsSame(e, s, f, t);
    ShiftedIsSame(f, t, e, s);
  }

  lemma ShiftedIsSame(e: string, s: string, f: string, t: string)
    ensures Shifted(e, s, f, t) ==> Scope(e, s) == Scope(f, t)
  {
    if Shifted(e, s, f, t) {
      var between: string :| f == e + ":" + between && s == between + ":" + t;
      assert Scope(e, s) == e + ":" + between + ":" + t == Scope(f, t);
    }
  }

  /** Environment ids without a colon keep all keys apart, and so do stream ids without one. */
  lemma ColonFreeIdsNeverCollide(e: string, s: string, m: nat, f: string, t: string, n: nat)
    requires (':' !in e && ':' !in f) || (':' !in s && ':' !in t)
    ensures AssemblyKey(e, s, m) == AssemblyKey(f, t, n) ==> e == f && s == t && m == n
  {
    KeysCollideIff(e, s, m, f, t, n);
    ShiftedHasColons(e, s, f, t);
    ShiftedHasColons(f, t, e, s);
  }

  lemma ShiftedHasColons(e: string, s: string, f: string, t: string)
    ensures Shifted(e, s, f, t) ==> ':' in f && ':' in s
  {
    if Shifted(e, s, f, t) {
      var between: string :| f == e + ":" + between && s == between + ":" + t;
      assert f[|e|] == ':' && s[|between|] == ':';
    }
  }

  /** Ids that contain the separator do collide. */
  lemma KeysOfDifferentStreamsCanCollide(n: nat)
    ensures AssemblyKey("a:b", "c", n) == AssemblyKey("a", "b:c", n)
  {
  }

  ghost predicate BufferInEpoch(s: Session) {
    forall key | key in s.buffer.assemblies :: KeyOfStream(key, s.environmentId, s.streamId)
  }

  lemma ObserveAddsOwnKey(wire: Wire, buffer: Buffer, envelope: Json)
    ensures forall key | key in ObserveStep(wire, buffer, envelope).0.assemblies && key !in buffer.assemblies ::
              envelope.Obj? && ReadKey(envelope) == Ok(key)
  {
    hide ReadHeader, ReadKey, Complete, TotalReceived, PresentLength, Rebuild;
  }

  lemma TargetKey(s: Session, envelope: Json)
    requires TargetsActiveStream(envelope, s.clientId, s.environmentId, s.streamId) == Ok(true)
    requires ReadKey(envelope).Ok?
    ensures KeyOfStream(ReadKey(envelope).value, s.environmentId, s.streamId)
  {
    hide AssemblyKey;
    var n := envelope.U64Field("seq_id").value;
    assert ReadKey(envelope).value == AssemblyKey(s.environmentId, s.streamId, n);
  }

  lemma AdmitKeepsEpoch(wire: Wire, s: Session, envelope: Json)
    requires BufferInEpoch(s) && Coherent(s.buffer)
    ensures BufferInEpoch(Admit(wire, s, envelope).0) && Coherent(Admit(wire, s, envelope).0.buffer)
    ensures var next := Admit(wire, s, envelope).0;
            next == s.(buffer := next.buffer, seen := next.seen)
  {
    hide ObserveStep, ReadKey, TargetsActiveStream, KeyOfStream, Coherent;
    ObserveKeepsCoherence(wire, s.buffer, envelope);
    ObserveAddsOwnKey(wire, s.buffer, envelope);
    if TargetsActiveStream(envelope, s.clientId, s.environmentId, s.streamId) == Ok(true) && ReadKey(envelope).Ok? {
      TargetKey(s, envelope);
    }
  }

  lemma AttributeKeepsBuffer(s: Session, message: Json)
    ensures var next := Attribute(s, message).0; next == s.(pending := next.pending)
  {
  }

  ghost predicate InEpoch(h: History) {
    BufferInEpoch(h.session) && Coherent(h.session.buffer)
  }

  lemma AdvanceKeepsEpoch(wire: Wire, h: History, event: Event)
    requires InEpoch(h)
    ensures InEpoch(Advance(wire, h, event))
  {
    hide Admit, Attribute, KeyOfStream, SegmentationOf, NoteReply, NoteIssued, RequestId;
    match event
    case Send(message, freshStreamId) =>
      EmptyIsCoherent();
    case Receive(envelope) =>
      AdmitKeepsEpoch(wire, h.session, envelope);
      var (admitted, payload) := Admit(wire, h.session, envelope);
      if payload.Ok? && payload.value.Some? {
        AttributeKeepsBuffer(admitted, payload.value.value);
      }
  }

  lemma EmptyIsCoherent()
    ensures Coherent(EMPTY_BUFFER)
  {
  }

  /** At every moment of every run, each stored assembly belongs to the active environment and
      stream, and the buffer accounts are coherent. */
  lemma {:induction false} EveryRunStaysInEpoch(wire: Wire, h: History, events: seq<Event>)
    requires InEpoch(h)
    ensures InEpoch(Run(wire, h, events))
    decreases |events|
  {
    hide Advance, InEpoch;
    if events != [] {
      AdvanceKeepsEpoch(wire, h, events[0]);
      EveryRunStaysInEpoch(wire, Advance(wire, h, events[0]), events[1..]);
    }
  }

  // ---------- Client sequence numbers ----------

  function CountIn(labels: seq<Label>, stream: string): nat {
    if labels == [] then 0
    else CountIn(labels[..|labels| - 1], stream) + (if labels[|labels| - 1].stream == stream then 1 else 0)
  }

  function Capped(n: nat): nat {
    if n <= U64_MAX then n else U64_MAX
  }

  /** Position `i` carries the next number of its stream: 1, 2, 3, ... until 64 bits are used up. */
  ghost predicate NumberedInOrder(labels: seq<Label>) {
    forall i | 0 <= i < |labels| :: labels[i].number == Capped(1 + CountIn(labels[..i], labels[i].stream))
  }

  ghost predicate InOrder(h: History) {
    && NumberedInOrder(h.sent)
    && h.session.streamId in h.streams
    && (forall i | 0 <= i < |h.sent| :: h.sent[i].stream in h.streams)
    && (!h.stopped ==> h.session.nextClientSequence == Capped(1 + CountIn(h.sent, h.session.streamId)))
  }

  /** Every new stream id is one that this connection has not used before. */
  predicate FreshStreams(streams: set<string>, events: seq<Event>)
    decreases |events|
  {
    events == [] ||
    (match events[0]
     case Receive(_) => FreshStreams(streams, events[1..])
     case Send(message, freshStreamId) =>
       if IsInitialize(message) then freshStreamId !in streams && FreshStreams(streams + {freshStreamId}, events[1..])
       else FreshStreams(streams, events[1..]))
  }

  lemma {:induction false} NoneInUnusedStream(labels: seq<Label>, stream: string)
    requires forall i | 0 <= i < |labels| :: labels[i].stream != stream
    ensures CountIn(labels, stream) == 0
  {
    if labels != [] {
      NoneInUnusedStream(labels[..|labels| - 1], stream);
    }
  }

  lemma AppendLabel(labels: seq<Label>, name: Label)
    requires NumberedInOrder(labels)
    requires name.number == Capped(1 + CountIn(labels, name.stream))
    ensures NumberedInOrder(labels + [name])
    ensures CountIn(labels + [name], name.stream) == CountIn(labels, name.stream) + 1
  {
    var longer := labels + [name];
    assert longer[..|labels|] == labels;
    forall i | 0 <= i < |longer|
      ensures longer[i].number == Capped(1 + CountIn(longer[..i], longer[i].stream))
    {
      if i < |labels| {
        assert longer[..i] == labels[..i];
      }
    }
  }

  lemma SendKeepsOrder(wire: Wire, h: History, message: Json, freshStreamId: string)
    requires InOrder(h) && !h.stopped
    requires IsInitialize(message) ==> freshStreamId !in h.streams
    ensures InOrder(AfterSend(wire, h, message, freshStreamId))
  {
    hide SegmentationOf, NumberedInOrder, CountIn, NoteIssued, RequestId, IsInitialize;
    var ready := Prepared(h.session, message, freshStreamId);
    NextNumber(CountIn(h.sent, ready.streamId));
    if IsInitialize(message) {
      NoneInUnusedStream(h.sent, freshStreamId);
    }
    AppendLabel(h.sent, Label(ready.streamId, ready.nextClientSequence));
  }

  lemma NextNumber(n: nat)
    ensures SaturatingAdd(Capped(1 + n), 1) == Capped(1 + (n + 1))
  {
  }

  lemma ReceiveKeepsOrder(wire: Wire, h: History, envelope: Json)
    requires InOrder(h) && !h.stopped
    ensures InOrder(AfterReceive(wire, h, envelope))
    ensures AfterReceive(wire, h, envelope).streams == h.streams
  {
    hide NumberedInOrder, CountIn, Attribute, NoteReply, ObserveStep, TargetsActiveStream;
    var (admitted, payload) := Admit(wire, h.session, envelope);
    if payload.Ok? && payload.value.Some? {
      AttributeKeepsBuffer(admitted, payload.value.value);
    }
  }

  /** Within every stream of every run the client messages are numbered 1, 2, 3, ... */
  lemma {:induction false} EveryRunNumbersInOrder(wire: Wire, h: History, events: seq<Event>)
    requires InOrder(h) && FreshStreams(h.streams, events)
    ensures InOrder(Run(wire, h, events))
    decreases |events|
  {
    hide InOrder, AfterSend, AfterReceive;
    if events != [] && !h.stopped {
      match events[0] {
        case Send(message, freshStreamId) =>
          SendKeepsOrder(wire, h, message, freshStreamId);
          SendAddsStream(wire, h, message, freshStreamId);
        case Receive(envelope) =>
          ReceiveKeepsOrder(wire, h, envelope);
      }
      EveryRunNumbersInOrder(wire, Advance(wire, h, events[0]), events[1..]);
    } else {
      StoppedStays(wire, h, events);
    }
  }

  lemma SendAddsStream(wire: Wire, h: History, message: Json, freshStreamId: string)
    ensures AfterSend(wire, h, message, freshStreamId).streams
            == if IsInitialize(message) then h.streams + {freshStreamId} else h.streams
  {
    hide SegmentationOf;
  }

  lemma {:induction false} StoppedStays(wire: Wire, h: History, events: seq<Event>)
    requires h.stopped || events == []
    ensures Run(wire, h, events) == h
    decreases |events|
  {
    if events != [] {
      StoppedStays(wire, h, events[1..]);
    }
  }

  lemma {:induction false} CountGrows(labels: seq<Label>, i: nat, j: nat, stream: string)
    requires i < j <= |labels| && labels[i].stream == stream
    ensures CountIn(labels[..i], stream) < CountIn(labels[..j], stream)
    decreases j
  {
    assert labels[..j][..j - 1] == labels[..j - 1];
    if i < j - 1 {
      CountGrows(labels, i, j - 1, stream);
    }
  }

  /** No two messages of a run go out under one label, unless the 64-bit counter has run out. */
  lemma LabelsNeverRepeat(labels: seq<Label>, i: nat, j: nat)
    requires NumberedInOrder(labels) && i < j < |labels| && labels[i] == labels[j]
    ensures labels[i].number == U64_MAX
  {
    CountGrows(labels, i, j, labels[i].stream);
  }

  /** Once it has run out, the number does repeat. */
  lemma ExhaustedNumberRepeats(wire: Wire, s: Session, message: Json, other: Json, id: string)
    requires s.nextClientSequence == U64_MAX && !IsInitialize(message) && !IsInitialize(other)
    ensures var first := Prepared(s, message, id);
            var second := Prepared(OutgoingStep(wire, s, message, id).0, other, id);
            Label(first.streamId, first.nextClientSequence) == Label(second.streamId, second.nextClientSequence)
  {
    hide SegmentationOf;
  }

  /** All frames of one message carry its label. */
  lemma FramesShareLabel(wire: Wire, s: Session, message: Json, freshStreamId: string, frame: Json)
    requires var outcome := OutgoingStep(wire, s, message, freshStreamId).1;
             outcome.Finished? && outcome.result.Ok? && frame in outcome.result.value
    ensures var ready := Prepared(s, message, freshStreamId);
            && frame.Get("seq_id") == Some(Int(ready.nextClientSequence))
            && frame.Get("stream_id") == Some(Str(ready.streamId))
            && frame.Get("env_id") == Some(Str(ready.environmentId))
            && frame.Get("client_id") == Some(Str(ready.clientId))
  {
    hide Retry, ExactSplit, Prepared;
    var ready := Prepared(s, message, freshStreamId);
    var envelope := ClientEnvelope(ready, message);
    var frames := SegmentationOf(wire, envelope).result.value;
    if frames != [envelope] {
      var bytes := wire.encode(message);
      assert envelope.Get("message") == Some(message);
      ReturnedSegmentsAreExact(wire, envelope.fields, bytes, FirstCount(|bytes|));
      PartKeepsFields(envelope.fields, bytes, frames, frame);
    }
  }

  lemma PartKeepsFields(fields: map<string, Json>, message: Bytes, segments: seq<Json>, segment: Json)
    requires ExactSplit(fields, message, segments) && segment in segments
    ensures forall name | name in fields && name != "message" && name !in SEGMENT_FIELDS ::
              segment.Get(name) == Some(fields[name])
  {
    var i :| 0 <= i < |segments| && segments[i] == segment;
    assert NumberedPart(fields, |message|, segments[i], i, |segments|);
  }

  /** From the opening of a connection, whatever is sent and received: the buffer stays in the active
      stream, and labels are 1, 2, 3, ... in each stream and pairwise different below the 64-bit limit. */
  lemma ConnectionKeepsStreamsApart(wire: Wire, clientId: string, environmentId: string, streamId: string,
                                   events: seq<Event>)
    requires FreshStreams({streamId}, events)
    ensures var h := Run(wire, Opened(clientId, environmentId, streamId), events);
            && BufferInEpoch(h.session)
            && NumberedInOrder(h.sent)
            && forall i, j | 0 <= i < j < |h.sent| && h.sent[i] == h.sent[j] :: h.sent[i].number == U64_MAX
  {
    hide Run, NumberedInOrder;
    var start := Opened(clientId, environmentId, streamId);
    EmptyIsCoherent();
    assert NumberedInOrder([]) by { NothingSent(); }
    EveryRunStaysInEpoch(wire, start, events);
    EveryRunNumbersInOrder(wire, start, events);
    var h := Run(wire, start, events);
    forall i, j | 0 <= i < j < |h.sent| && h.sent[i] == h.sent[j]
      ensures h.sent[i].number == U64_MAX
    {
      LabelsNeverRepeat(h.sent, i, j);
    }
  }

  lemma NothingSent()
    ensures NumberedInOrder([])
  {
  }
}
