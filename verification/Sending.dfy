/** What goes out for one app-server message, and that it is what comes back. */
module Sending {
  import opened Wrappers
  import opened JsonValues
  import opened Segmentation
  import opened SegmentationTheorems
  import opened Reassembler
  import opened ReassemblerRuns
  import opened RoundTrip
  import opened Transport
  import Decimals

  /** An envelope for a message in a stream: these members and no others. */
  ghost predicate Envelops(envelope: Json, client: string, environment: string, stream: string, number: nat, message: Json) {
    && envelope.Obj?
    && envelope.fields.Keys == {"type", "client_id", "seq_id", "stream_id", "env_id", "skip_history", "message"}
    && envelope.Get("type") == Some(Str("client_message"))
    && envelope.Get("client_id") == Some(Str(client))
    && envelope.Get("seq_id") == Some(Int(number))
    && envelope.Get("stream_id") == Some(Str(stream))
    && envelope.Get("env_id") == Some(Str(environment))
    && envelope.Get("skip_history") == Some(Bool(false))
    && envelope.Get("message") == Some(message)
  }

  /** The stream a message goes out in and its number there. */
  function StreamFor(s: Session, message: Json, freshStreamId: string): (string, nat) {
    if message.StringField("method") == Some("initialize") then (freshStreamId, 1)
    else (s.streamId, s.nextClientSequence)
  }

  /** The frames for a message are one envelope that carries it, or an exact split of its bytes in frames
      that are otherwise like that envelope. */
  lemma SentFramesCarryTheMessage(wire: Wire, s: Session, message: Json, freshStreamId: string) returns (envelope: Json)
    requires var outcome := OutgoingStep(wire, s, message, freshStreamId).1; outcome.Finished? && outcome.result.Ok?
    ensures var (stream, number) := StreamFor(s, message, freshStreamId);
            Envelops(envelope, s.clientId, s.environmentId, stream, number, message)
    ensures var frames := OutgoingStep(wire, s, message, freshStreamId).1.result.value;
            if |wire.encode(envelope)| <= 102_400 then frames == [envelope]
            else ExactSplit(envelope.fields, wire.encode(message), frames)
                 && (wire.encode(message) != [] ==> frames != [])
  {
    hide SegmentationOf, ExactSplit;
    envelope := ClientEnvelope(Prepared(s, message, freshStreamId), message);
    FramesAreExact(wire, envelope);
  }

  /** What was sent for a message in 2 to 656 frames, relabelled by the server and delivered in any order
      with repeats, is received as that very message, in the stream and under the number it was sent. */
  lemma SentMessageComesBack(wire: Wire, s: Session, message: Json, freshStreamId: string, before: Buffer)
    returns (whole: Json)
    requires wire.ChargesPlainStringsByLength() && wire.decode(wire.encode(message)) == Some(message) && message.Obj?
    requires s.nextClientSequence <= U64_MAX
    requires var outcome := OutgoingStep(wire, s, message, freshStreamId).1;
             outcome.Finished? && outcome.result.Ok? && 2 <= |outcome.result.value| <= MAX_SEGMENTS
    requires var (stream, number) := StreamFor(s, message, freshStreamId);
             RoomFor(before, s.environmentId + ":" + stream + ":" + Decimals.Render(number), |wire.encode(message)|)
    ensures ComesBack(wire, before, OutgoingStep(wire, s, message, freshStreamId).1.result.value, whole)
    ensures var (stream, number) := StreamFor(s, message, freshStreamId);
            && whole.Get("message") == Some(message)
            && whole.Get("type") == Some(Str("server_message"))
            && whole.Get("client_id") == Some(Str(s.clientId))
            && whole.Get("seq_id") == Some(Int(number))
            && whole.Get("stream_id") == Some(Str(stream))
            && whole.Get("env_id") == Some(Str(s.environmentId))
  {
    hide SegmentationOf, ExactSplit, ComesBack, RoomFor, wire.ChargesPlainStringsByLength, ServerMessage, Decimals.Render;
    var frames := OutgoingStep(wire, s, message, freshStreamId).1.result.value;
    var envelope := SentFramesCarryTheMessage(wire, s, message, freshStreamId);
    var (stream, number) := StreamFor(s, message, freshStreamId);
    SentEnvelope(wire, s, message, freshStreamId, envelope);
    whole := ServerMessage(envelope.fields, message);
    HeaderIsKept(envelope.fields, message);
    assert ReadKey(envelope) == Ok(AssemblyKey(s.environmentId, stream, number));
    assert WasCut(wire, envelope, message, frames);
    CutMessageComesBackIff(wire, envelope, message, frames, before);
  }

  lemma SentEnvelope(wire: Wire, s: Session, message: Json, freshStreamId: string, envelope: Json)
    requires var (stream, number) := StreamFor(s, message, freshStreamId);
             Envelops(envelope, s.clientId, s.environmentId, stream, number, message)
    ensures OutgoingStep(wire, s, message, freshStreamId).1 == SegmentationOf(wire, envelope)
  {
    hide SegmentationOf;
    var sent := ClientEnvelope(Prepared(s, message, freshStreamId), message);
    forall name
      ensures name in sent.fields <==> name in envelope.fields
      ensures name in sent.fields ==> sent.fields[name] == envelope.fields[name]
    {
      assert name in envelope.fields ==> envelope.Get(name) == Some(envelope.fields[name]);
    }
    assert sent.fields == envelope.fields;
  }
}
