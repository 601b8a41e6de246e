/** The broker session: one handshake, distinct request ids, one response for each frame, until an app
    server is opened and the bridge takes over. */
module Broker {
  import opened Wrappers
  import opened JsonValues
  import Framing
  import Pagination

  const BROKER_PROTOCOL_VERSION: nat := 1
  const MAX_HOST_ID_BYTES: nat := 128

  datatype Request =
    | Handshake(version: nat, id: nat, minimumVersion: nat, maximumVersion: nat)
    | Pair(version: nat, id: nat, pairingCode: string)
    | ListHosts(version: nat, id: nat)
    | OpenAppServer(version: nat, id: nat, environmentId: string)

  datatype ProtocolError = EmptyFrame | FrameTooLarge | MalformedFrame | IncompatibleVersion | InvalidHostMetadata

  datatype ErrorCode =
    | AuthenticationRequired
    | EnrollmentRequired
    | InvalidRequest
    | IncompatibleVersion
    | HostNotFound
    | HostOffline
    | RelayUnavailable
    | Internal

  // ---------- Decoding ----------

  predicate IsWhitespace(c: char) {
    var u := c as int;
    || 0x09 <= u <= 0x0D || u == 0x20 || u == 0x85 || u == 0xA0 || u == 0x1680
    || 0x2000 <= u <= 0x200A || u == 0x2028 || u == 0x2029 || u == 0x202F || u == 0x205F || u == 0x3000
  }

  predicate GoodHostId(text: string) {
    && (exists i | 0 <= i < |text| :: !IsWhitespace(text[i]))
    && Pagination.Utf8Length(text) <= MAX_HOST_ID_BYTES
    && forall i | 0 <= i < |text| :: !Pagination.IsControl(text[i])
  }

  /** A host id: up to 128 bytes, not blank, no control characters. */
  lemma HostIdIff(text: string)
    ensures GoodHostId(text) <==>
              && Pagination.Utf8Length(text) <= 128
              && (forall i | 0 <= i < |text| :: ' ' <= text[i] && !('\U{7F}' <= text[i] <= '\U{9F}'))
              && exists i :: 0 <= i < |text| && !IsWhitespace(text[i])
  {
  }

  /** Among the ASCII characters blanks are the space, the tab and the line breaks. */
  lemma AsciiBlanks(c: char)
    requires c < '\U{80}'
    ensures IsWhitespace(c) <==> c in {' ', '\t', '\n', '\U{0B}', '\U{0C}', '\r'}
  {
  }

  predicate Speaks(request: Request) {
    && request.version == BROKER_PROTOCOL_VERSION
    && (request.Handshake? ==>
          request.minimumVersion <= BROKER_PROTOCOL_VERSION <= request.maximumVersion)
  }

  /** Reads the JSON of a request; none if it is not one. */
  type Parser = Bytes -> Option<Request>

  function DecodeRequest(parse: Parser, bytes: Bytes): Result<Request, ProtocolError> {
    if bytes == [] then Err(EmptyFrame)
    else if |bytes| > Framing.MAX_BROKER_FRAME_BYTES then Err(FrameTooLarge)
    else
      match parse(bytes)
      case None => Err(MalformedFrame)
      case Some(request) =>
        if !Speaks(request) then Err(ProtocolError.IncompatibleVersion)
        else if request.OpenAppServer? && !GoodHostId(request.environmentId) then Err(InvalidHostMetadata)
        else Ok(request)
  }

  /** Which frames decode: 1 to 16,384 bytes of a request in version 1, a handshake that covers it, and an
      open with a usable host id. */
  lemma DecodeIff(parse: Parser, bytes: Bytes)
    ensures DecodeRequest(parse, bytes).Ok? <==>
              && 1 <= |bytes| <= 16_384 && parse(bytes).Some?
              && var request := parse(bytes).value;
                 && request.version == 1
                 && (request.Handshake? ==> request.minimumVersion <= 1 <= request.maximumVersion)
                 && (request.OpenAppServer? ==> GoodHostId(request.environmentId))
    ensures DecodeRequest(parse, bytes).Ok? ==> parse(bytes) == Some(DecodeRequest(parse, bytes).value)
  {
    hide GoodHostId;
  }

  // ---------- The session ----------

  datatype Session = Session(initialized: bool, requestIds: set<nat>)

  const NEW_SESSION: Session := Session(false, {})

  function AcceptStep(s: Session, request: Request): (Session, Result<Request, ErrorCode>) {
    if request.id in s.requestIds then (s, Err(InvalidRequest))
    else if request.Handshake? then
      if s.initialized then (s, Err(InvalidRequest))
      else (Session(true, s.requestIds + {request.id}), Ok(request))
    else if s.initialized then (s.(requestIds := s.requestIds + {request.id}), Ok(request))
    else (s, Err(InvalidRequest))
  }

  class BrokerSession {
    var initialized: bool
    var requestIds: set<nat>

    ghost function State(): Session
      reads this
    {
      Session(initialized, requestIds)
    }

    constructor ()
      ensures State() == NEW_SESSION
    {
      initialized := false;
      requestIds := {};
    }

    /** The request to act on, or the code to refuse it with. */
    method Accept(request: Request) returns (r: Result<Request, ErrorCode>)
      modifies this
      ensures (State(), r) == AcceptStep(old(State()), request)
      ensures r.Err? ==> State() == old(State())
    {
      if request.id in requestIds {
        return Err(InvalidRequest);
      }
      match request
      case Handshake(_, id, _, _) =>
        if initialized {
          return Err(InvalidRequest);
        }
        initialized := true;
        requestIds := requestIds + {id};
        return Ok(request);
      case _ =>
        if !initialized {
          return Err(InvalidRequest);
        }
        requestIds := requestIds + {request.id};
        return Ok(request);
    }
  }

  // ---------- A run over frames ----------

  datatype Response =
    | HandshakeReply(id: nat)
    | HostsReply(id: nat, hosts: seq<string>)
    | PairedReply(id: nat, hosts: seq<string>)
    | ReadyReply(id: nat, environmentId: string)
    | ErrorReply(id: nat, code: ErrorCode)

  /** What the relay answers while frame `i` is handled: hosts, or an error code; for an open, the list
      of hosts is not looked at. */
  type Relay = nat -> Result<seq<string>, ErrorCode>

  function SessionAfter(parse: Parser, frames: seq<Bytes>, n: nat): Session
    requires n <= |frames|
  {
    if n == 0 then NEW_SESSION
    else
      var s := SessionAfter(parse, frames, n - 1);
      match DecodeRequest(parse, frames[n - 1])
      case Err(_) => s
      case Ok(request) => AcceptStep(s, request).0
  }

  /** The outcome for a decoded request. */
  function Reply(request: Request, accepted: Result<Request, ErrorCode>, answer: Result<seq<string>, ErrorCode>): Response {
    match accepted
    case Err(code) => ErrorReply(request.id, code)
    case Ok(Handshake(_, id, _, _)) => HandshakeReply(id)
    case Ok(Pair(_, id, _)) =>
      (match answer case Ok(hosts) => PairedReply(id, hosts) case Err(code) => ErrorReply(id, code))
    case Ok(ListHosts(_, id)) =>
      (match answer case Ok(hosts) => HostsReply(id, hosts) case Err(code) => ErrorReply(id, code))
    case Ok(OpenAppServer(_, id, environmentId)) =>
      (match answer case Ok(_) => ReadyReply(id, environmentId) case Err(code) => ErrorReply(id, code))
  }

  function ResponseTo(parse: Parser, relay: Relay, frames: seq<Bytes>, i: nat): Response
    requires i < |frames|
  {
    match DecodeRequest(parse, frames[i])
    case Err(_) => ErrorReply(0, InvalidRequest)
    case Ok(request) => Reply(request, AcceptStep(SessionAfter(parse, frames, i), request).1, relay(i))
  }

  /** One frame: the session after it and the response to it. */
  function Handled(parse: Parser, s: Session, frame: Bytes, answer: Result<seq<string>, ErrorCode>): (Session, Response) {
    match DecodeRequest(parse, frame)
    case Err(_) => (s, ErrorReply(0, InvalidRequest))
    case Ok(request) => (AcceptStep(s, request).0, Reply(request, AcceptStep(s, request).1, answer))
  }

  lemma HandledIsNext(parse: Parser, relay: Relay, frames: seq<Bytes>, k: nat)
    requires k < |frames|
    ensures Handled(parse, SessionAfter(parse, frames, k), frames[k], relay(k))
            == (SessionAfter(parse, frames, k + 1), ResponseTo(parse, relay, frames, k))
  {
    hide DecodeRequest, AcceptStep, Reply;
  }

  lemma NothingHandled(parse: Parser, frames: seq<Bytes>)
    ensures SessionAfter(parse, frames, 0) == NEW_SESSION
  {
  }

  method Respond(parse: Parser, session: BrokerSession, frame: Bytes, answer: Result<seq<string>, ErrorCode>)
    returns (response: Response)
    modifies session
    ensures (session.State(), response) == Handled(parse, old(session.State()), frame, answer)
  {
    hide DecodeRequest, AcceptStep, Reply;
    var decoded := DecodeRequest(parse, frame);
    if decoded.Err? {
      return ErrorReply(0, InvalidRequest);
    }
    var accepted := session.Accept(decoded.value);
    return Reply(decoded.value, accepted, answer);
  }

  /** How a run ends: no more input, a line that is too long, bridge opened, or a response too large to
      write. */
  datatype Ending = NoMoreFrames | FrameTooLong | Bridged | ResponseTooLarge

  /** The frames of an input: its lines, trimmed, up to the first one over the limit; and whether there is
      such a line. */
  function FramesOf(input: Bytes): (seq<Bytes>, bool) {
    Framing.Expected(Framing.Lines(input), Framing.MAX_BROKER_FRAME_BYTES)
  }

  method RunBroker(parse: Parser, relay: Relay, size: Response -> nat, input: Bytes)
    returns (responses: seq<Response>, ending: Ending)
    // Exactly one response for each line handled, in order.
    ensures |responses| <= |FramesOf(input).0|
    ensures forall i | 0 <= i < |responses| :: responses[i] == ResponseTo(parse, relay, FramesOf(input).0, i)
    // An open that succeeds is the last response; until then no line is left out.
    ensures forall i | 0 <= i < |responses| :: responses[i].ReadyReply? <==> ending == Bridged && i == |responses| - 1
    ensures ending == Bridged ==> responses != []
    // Otherwise the run goes on to the end of the input or to the first line over the limit, where it fails.
    ensures ending.NoMoreFrames? || ending.FrameTooLong? ==> |responses| == |FramesOf(input).0|
    ensures ending == NoMoreFrames ==> !FramesOf(input).1
    ensures ending == FrameTooLong ==> FramesOf(input).1
    ensures ending == ResponseTooLarge ==>
              && |responses| < |FramesOf(input).0|
              && size(ResponseTo(parse, relay, FramesOf(input).0, |responses|)) > Framing.MAX_BROKER_FRAME_BYTES
    ensures forall i | 0 <= i < |responses| :: size(responses[i]) <= Framing.MAX_BROKER_FRAME_BYTES
  {
    hide SessionAfter, ResponseTo, Handled, Framing.ReadStep, Framing.Lines, Framing.Expected;
    ghost var limit := Framing.MAX_BROKER_FRAME_BYTES;
    ghost var frames := FramesOf(input).0;
    var reader := new Framing.FrameReader(input, Framing.MAX_BROKER_FRAME_BYTES);
    var session := new BrokerSession();
    responses := [];
    Framing.FramesAreLines(input, limit);
    assert frames[0..] == frames;
    assert SessionAfter(parse, frames, 0) == NEW_SESSION by { NothingHandled(parse, frames); }
    while true
      invariant fresh(session) && fresh(reader) && reader.limit == limit
      invariant |responses| <= |frames|
      invariant Framing.AllFrames(reader.input, limit) == (frames[|responses|..], FramesOf(input).1)
      invariant session.State() == SessionAfter(parse, frames, |responses|)
      invariant forall i | 0 <= i < |responses| ::
        && responses[i] == ResponseTo(parse, relay, frames, i)
        && !responses[i].ReadyReply?
        && size(responses[i]) <= Framing.MAX_BROKER_FRAME_BYTES
      decreases |frames| - |responses|
    {
      ghost var k := |responses|;
      Framing.ReadingShrinks(reader.input, limit);
      var frame := reader.ReadFrame();
      if frame.EndOfInput? {
        return responses, NoMoreFrames;
      }
      if frame.TooLong? {
        return responses, FrameTooLong;
      }
      OneMoreFrame(frames, k, frame.content, Framing.AllFrames(reader.input, limit).0);
      var response := Respond(parse, session, frame.content, relay(|responses|));
      assert (SessionAfter(parse, frames, k + 1), ResponseTo(parse, relay, frames, k))
          == Handled(parse, SessionAfter(parse, frames, k), frames[k], relay(k)) by
      {
        HandledIsNext(parse, relay, frames, k);
      }
      if size(response) > Framing.MAX_BROKER_FRAME_BYTES {
        return responses, ResponseTooLarge;
      }
      responses := responses + [response];
      if response.ReadyReply? {
        return responses, Bridged;
      }
    }
  }

  lemma OneMoreFrame(frames: seq<Bytes>, k: nat, frame: Bytes, rest: seq<Bytes>)
    requires k <= |frames| && frames[k..] == [frame] + rest
    ensures k < |frames| && frames[k] == frame && frames[k + 1..] == rest
  {
    assert frames[k..][0] == frame && frames[k..][1..] == rest;
  }

  // ---------- What runs keep ----------

  /** The id a frame is answered under. */
  function FrameId(parse: Parser, frame: Bytes): nat {
    match DecodeRequest(parse, frame)
    case Ok(request) => request.id
    case Err(_) => 0
  }

  /** Each frame is answered under its own id, 0 if it could not be decoded. */
  lemma AnsweredUnderOwnId(parse: Parser, relay: Relay, frames: seq<Bytes>, i: nat)
    requires i < |frames|
    ensures ResponseTo(parse, relay, frames, i).id == FrameId(parse, frames[i])
  {
    hide DecodeRequest;
  }

  /** What an accepted request is answered with: each kind in its own way, and what the relay refuses
      with the relay's code. */
  lemma AcceptedReplies(parse: Parser, relay: Relay, frames: seq<Bytes>, i: nat)
    requires i < |frames| && AcceptedAt(parse, frames, i)
    ensures var response := ResponseTo(parse, relay, frames, i);
            match DecodeRequest(parse, frames[i]).value
            case Handshake(_, id, _, _) => response == HandshakeReply(id)
            case Pair(_, id, _) =>
              if relay(i).Ok? then response == PairedReply(id, relay(i).value)
              else response == ErrorReply(id, relay(i).error)
            case ListHosts(_, id) =>
              if relay(i).Ok? then response == HostsReply(id, relay(i).value)
              else response == ErrorReply(id, relay(i).error)
            case OpenAppServer(_, id, environmentId) =>
              if relay(i).Ok? then response == ReadyReply(id, environmentId)
              else response == ErrorReply(id, relay(i).error)
  {
    hide DecodeRequest;
  }

  /** Everything else is answered as an invalid request, under its id or 0. */
  lemma RefusedReplies(parse: Parser, relay: Relay, frames: seq<Bytes>, i: nat)
    requires i < |frames| && !AcceptedAt(parse, frames, i)
    ensures ResponseTo(parse, relay, frames, i)
            == ErrorReply(if DecodeRequest(parse, frames[i]).Ok? then DecodeRequest(parse, frames[i]).value.id else 0,
                          InvalidRequest)
  {
    hide DecodeRequest;
  }

  predicate AcceptedAt(parse: Parser, frames: seq<Bytes>, i: nat)
    requires i < |frames|
  {
    && DecodeRequest(parse, frames[i]).Ok?
    && AcceptStep(SessionAfter(parse, frames, i), DecodeRequest(parse, frames[i]).value).1.Ok?
  }

  ghost predicate AnyAccepted(parse: Parser, frames: seq<Bytes>, n: nat)
    requires n <= |frames|
  {
    exists k: nat :: k < n && AcceptedAt(parse, frames, k)
  }

  /** The session knows exactly the accepted ids, and is initialized from the first acceptance on. */
  lemma {:induction false} SessionIsAccepted(parse: Parser, frames: seq<Bytes>, n: nat)
    requires n <= |frames|
    ensures forall id :: id in SessionAfter(parse, frames, n).requestIds
              <==> exists k: nat :: k < n && AcceptedAt(parse, frames, k) && FrameId(parse, frames[k]) == id
    ensures SessionAfter(parse, frames, n).initialized <==> AnyAccepted(parse, frames, n)
  {
    hide DecodeRequest;
    if n > 0 {
      SessionIsAccepted(parse, frames, n - 1);
      var s, t := SessionAfter(parse, frames, n - 1), SessionAfter(parse, frames, n);
      var grown := AcceptedAt(parse, frames, n - 1);
      assert t.requestIds == s.requestIds + (if grown then {FrameId(parse, frames[n - 1])} else {});
      assert t.initialized == (s.initialized || grown);
      forall id
        ensures id in t.requestIds
                <==> exists k: nat :: k < n && AcceptedAt(parse, frames, k) && FrameId(parse, frames[k]) == id
      {
        if id in s.requestIds {
          var k: nat :| k < n - 1 && AcceptedAt(parse, frames, k) && FrameId(parse, frames[k]) == id;
        }
      }
      if s.initialized {
        var k: nat :| k < n - 1 && AcceptedAt(parse, frames, k);
      }
    }
  }

  /** Acceptance without the session: a request is accepted exactly if it decodes, its id differs from
      every accepted one before it, and it is a handshake if and only if it is the first. */
  lemma AcceptanceIsExact(parse: Parser, frames: seq<Bytes>, i: nat)
    requires i < |frames|
    ensures AcceptedAt(parse, frames, i) <==>
              && DecodeRequest(parse, frames[i]).Ok?
              && (forall k: nat | k < i && AcceptedAt(parse, frames, k) ::
                    FrameId(parse, frames[k]) != FrameId(parse, frames[i]))
              && (DecodeRequest(parse, frames[i]).value.Handshake? <==> !AnyAccepted(parse, frames, i))
  {
    hide DecodeRequest;
    SessionIsAccepted(parse, frames, i);
  }

  /** A refused or undecodable frame leaves the session as it was. */
  lemma RefusalChangesNothing(parse: Parser, frames: seq<Bytes>, i: nat)
    requires i < |frames| && !AcceptedAt(parse, frames, i)
    ensures SessionAfter(parse, frames, i + 1) == SessionAfter(parse, frames, i)
  {
    hide DecodeRequest;
  }

  /** Accepted ids are pairwise distinct, and the only accepted handshake is the first accepted request. */
  lemma AcceptedRequests(parse: Parser, frames: seq<Bytes>, i: nat, j: nat)
    requires i < j < |frames| && AcceptedAt(parse, frames, i) && AcceptedAt(parse, frames, j)
    ensures FrameId(parse, frames[i]) != FrameId(parse, frames[j])
    ensures !DecodeRequest(parse, frames[j]).value.Handshake?
  {
    hide DecodeRequest;
    AcceptanceIsExact(parse, frames, j);
  }
}
