/** Newline-delimited frames with a size limit, as the broker reads requests and the bridge reads app
    messages. */
module Framing {
  import opened Wrappers
  import opened JsonValues

  const NEWLINE: byte := 10
  const CARRIAGE_RETURN: byte := 13

  // The limits that the two readers are made with.
  const MAX_BROKER_FRAME_BYTES: nat := 16 * 1024
  const MAX_LOCAL_APP_MESSAGE_BYTES: nat := 1024 * 1024

  datatype Read = EndOfInput | Frame(content: Bytes) | TooLong

  datatype Ending = NoMoreInput | LineTooLong | NotJson

  /** At most `most` bytes, up to and including the first newline. */
  function ReadUntilNewline(input: Bytes, most: nat): (line: Bytes)
    ensures line <= input && |line| <= most
  {
    if input == [] || most == 0 then []
    else if input[0] == NEWLINE then [NEWLINE]
    else
      assert input == [input[0]] + input[1..];
      [input[0]] + ReadUntilNewline(input[1..], most - 1)
  }

  predicate EndsLine(b: byte) {
    b == NEWLINE || b == CARRIAGE_RETURN
  }

  function TrimEnd(line: Bytes): Bytes {
    if line != [] && EndsLine(line[|line| - 1]) then TrimEnd(line[..|line| - 1]) else line
  }

  function EndsInNewline(line: Bytes): nat {
    if line != [] && line[|line| - 1] == NEWLINE then 1 else 0
  }

  /** One read: the unread input, and what came of it. */
  function ReadStep(input: Bytes, limit: nat): (Bytes, Read) {
    var line := ReadUntilNewline(input, limit + 2);
    var rest := input[|line|..];
    if line == [] then (rest, EndOfInput)
    else if |line| > limit + EndsInNewline(line) then (rest, TooLong)
    else (rest, Frame(TrimEnd(line)))
  }

  class FrameReader {
    var input: Bytes
    const limit: nat

    constructor (input: Bytes, limit: nat)
      ensures this.input == input && this.limit == limit
    {
      this.input := input;
      this.limit := limit;
    }

    method ReadFrame() returns (r: Read)
      modifies this
      ensures (input, r) == ReadStep(old(input), limit)
    {
      var frame := ReadUntilNewline(input, limit + 2);
      input := input[|frame|..];
      if frame == [] {
        return EndOfInput;
      }
      if |frame| > limit + (if frame[|frame| - 1] == NEWLINE then 1 else 0) {
        return TooLong;
      }
      while frame != [] && EndsLine(frame[|frame| - 1])
        invariant TrimEnd(frame) == TrimEnd(ReadUntilNewline(old(input), limit + 2))
      {
        frame := frame[..|frame| - 1];
      }
      return Frame(frame);
    }

    /** Read app messages line by line, until the input ends, a line is too long or a line is not JSON. */
    method ReadLocalAppMessages(parse: Bytes -> Option<Json>) returns (messages: seq<Json>, ending: Ending)
      modifies this
      ensures var (frames, tooLong) := AllFrames(old(input), limit);
              && |messages| <= |frames|
              && (forall i | 0 <= i < |messages| :: parse(frames[i]) == Some(messages[i]))
              && (|messages| < |frames| ==> parse(frames[|messages|]) == None)
              && ending == if |messages| < |frames| then NotJson else if tooLong then LineTooLong else NoMoreInput
    {
      messages := [];
      ghost var read: seq<Bytes> := [];
      assert [] + AllFrames(input, limit).0 == AllFrames(input, limit).0;
      while true
        invariant AllFrames(old(input), limit) == (read + AllFrames(input, limit).0, AllFrames(input, limit).1)
        invariant |messages| == |read| && forall i | 0 <= i < |read| :: parse(read[i]) == Some(messages[i])
        decreases |input|
      {
        ReadingShrinks(input, limit);
        var next := ReadFrame();
        if next.EndOfInput? {
          return messages, NoMoreInput;
        }
        if next.TooLong? {
          return messages, LineTooLong;
        }
        assert read + ([next.content] + AllFrames(input, limit).0) == read + [next.content] + AllFrames(input, limit).0;
        var message := parse(next.content);
        if message.None? {
          return messages, NotJson;
        }
        messages := messages + [message.value];
        read := read + [next.content];
      }
    }
  }

  lemma ReadingShrinks(input: Bytes, limit: nat)
    ensures !ReadStep(input, limit).1.EndOfInput? ==> |ReadStep(input, limit).0| < |input|
    ensures ReadStep(input, limit).1.EndOfInput? <==> input == []
  {
  }

  function AllFrames(input: Bytes, limit: nat): (seq<Bytes>, bool)
    decreases |input|
  {
    ReadingShrinks(input, limit);
    var (rest, read) := ReadStep(input, limit);
    match read
    case EndOfInput => ([], false)
    case TooLong => ([], true)
    case Frame(content) =>
      var (frames, tooLong) := AllFrames(rest, limit);
      ([content] + frames, tooLong)
  }

  // ---------- The reference: lines ----------

  predicate HasNewline(s: Bytes) {
    NEWLINE in s
  }

  /** The part before the first newline. */
  function FirstLine(s: Bytes): (line: Bytes)
    ensures |line| <= |s|
  {
    if s == [] || s[0] == NEWLINE then [] else [s[0]] + FirstLine(s[1..])
  }

  /** The newline-delimited lines; text after the last newline is a line if there is any. */
  function Lines(s: Bytes): seq<Bytes>
    decreases |s|
  {
    if s == [] then []
    else
      var line := FirstLine(s);
      FirstLineFits(s);
      [line] + (if |line| == |s| then [] else Lines(s[|line| + 1..]))
  }

  lemma {:induction false} FirstLineFits(s: Bytes)
    ensures FirstLine(s) <= s && !HasNewline(FirstLine(s))
    ensures |FirstLine(s)| < |s| ==> s[|FirstLine(s)|] == NEWLINE
  {
    if s != [] && s[0] != NEWLINE {
      FirstLineFits(s[1..]);
      assert s == [s[0]] + s[1..];
    }
  }

  /** Lines are taken in turn, trimmed, up to the first one over the limit. */
  function Expected(lines: seq<Bytes>, limit: nat): (seq<Bytes>, bool) {
    if lines == [] then ([], false)
    else if |lines[0]| > limit then ([], true)
    else
      var (frames, tooLong) := Expected(lines[1..], limit);
      ([TrimEnd(lines[0])] + frames, tooLong)
  }

  /** The first line with its newline, if it has one. */
  function WholeLine(s: Bytes): Bytes {
    if |FirstLine(s)| < |s| then FirstLine(s) + [NEWLINE] else s
  }

  lemma WholeLineSteps(s: Bytes)
    requires s != []
    ensures WholeLine(s) == if s[0] == NEWLINE then [NEWLINE] else [s[0]] + WholeLine(s[1..])
  {
    assert s == [s[0]] + s[1..];
  }

  lemma {:induction false} ReadIsFirstLine(s: Bytes, most: nat)
    ensures ReadUntilNewline(s, most) == WholeLine(s)[..Min(most, |WholeLine(s)|)]
    decreases |s|
  {
    hide WholeLine, FirstLine;
    if s == [] {
      assert WholeLine(s) == [] by { EmptyLine(); }
    } else {
      WholeLineSteps(s);
      if most > 0 && s[0] != NEWLINE {
        ReadIsFirstLine(s[1..], most - 1);
      }
    }
  }

  lemma EmptyLine()
    ensures WholeLine([]) == []
  {
  }

  function Min(a: nat, b: nat): nat {
    if a <= b then a else b
  }

  lemma NoNewlineAtEnd(line: Bytes, part: Bytes)
    requires !HasNewline(line) && part <= line
    ensures EndsInNewline(part) == 0
  {
    if part != [] {
      assert part[|part| - 1] == line[|part| - 1];
    }
  }

  lemma LongLineIsRefused(s: Bytes, limit: nat)
    requires |FirstLine(s)| > limit
    ensures ReadStep(s, limit).1 == TooLong
  {
    hide TrimEnd, FirstLine, ReadUntilNewline;
    var line, got := FirstLine(s), ReadUntilNewline(s, limit + 2);
    ReadIsFirstLine(s, limit + 2);
    FirstLineFits(s);
    if |line| < |s| && |line| == limit + 1 {
      assert got == line + [NEWLINE];
    } else {
      assert got == line[..Min(limit + 2, |line|)];
      NoNewlineAtEnd(line, got);
    }
  }

  lemma ShortLineIsRead(s: Bytes, limit: nat)
    requires s != [] && |FirstLine(s)| <= limit
    ensures var line := FirstLine(s);
            ReadStep(s, limit) == (if |line| == |s| then [] else s[|line| + 1..], Frame(TrimEnd(line)))
  {
    hide TrimEnd, FirstLine, ReadUntilNewline;
    var line, got := FirstLine(s), ReadUntilNewline(s, limit + 2);
    ReadIsFirstLine(s, limit + 2);
    FirstLineFits(s);
    TrimDropsNewline(line);
    if |line| == |s| {
      assert line == s && got == s && s[|got|..] == [];
    } else {
      assert got == line + [NEWLINE];
    }
  }

  lemma TrimDropsNewline(line: Bytes)
    ensures TrimEnd(line + [NEWLINE]) == TrimEnd(line)
  {
    assert (line + [NEWLINE])[..|line|] == line;
  }

  /** For any input, the frames are exactly the lines, trimmed, up to the first line over the limit,
      where reading fails; no line is ever read in two parts. */
  lemma {:induction false} FramesAreLines(s: Bytes, limit: nat)
    ensures AllFrames(s, limit) == Expected(Lines(s), limit)
    decreases |s|
  {
    hide ReadStep, TrimEnd, FirstLine;
    ReadingShrinks(s, limit);
    if s != [] {
      var line := FirstLine(s);
      FirstLineFits(s);
      if |line| > limit {
        LongLineIsRefused(s, limit);
      } else {
        ShortLineIsRead(s, limit);
      }
      var rest := if |line| == |s| then [] else s[|line| + 1..];
      FramesAreLines(rest, limit);
      assert Lines(s) == [line] + Lines(rest);
      assert Lines(s)[1..] == Lines(rest);
    }
  }

  // ---------- Writing ----------

  method WriteFrame(output: Bytes, payload: Bytes, limit: nat) returns (r: Option<Bytes>)
    ensures r == if |payload| > limit then None else Some(output + Written([payload]))
  {
    if |payload| > limit {
      return None;
    }
    r := Some(output + payload);
    r := Some(r.value + [NEWLINE]);
    assert Written([payload]) == payload + [NEWLINE] + Written([]);
    assert output + payload + [NEWLINE] == output + (payload + [NEWLINE] + []);
  }

  function Written(payloads: seq<Bytes>): Bytes {
    if payloads == [] then [] else payloads[0] + [NEWLINE] + Written(payloads[1..])
  }

  predicate EndsInReturn(payload: Bytes) {
    payload != [] && payload[|payload| - 1] == CARRIAGE_RETURN
  }

  /** What survives framing: no newline inside, no carriage return at the end. */
  predicate Framable(payload: Bytes) {
    !HasNewline(payload) && !EndsInReturn(payload)
  }

  lemma {:induction false} FirstLineOfWritten(payload: Bytes, rest: Bytes)
    requires !HasNewline(payload)
    ensures FirstLine(payload + [NEWLINE] + rest) == payload
  {
    var s := payload + [NEWLINE] + rest;
    if payload != [] {
      FirstLineOfWritten(payload[1..], rest);
      assert s[1..] == payload[1..] + [NEWLINE] + rest;
      assert payload == [payload[0]] + payload[1..];
    }
  }

  lemma {:induction false} LinesOfWritten(payloads: seq<Bytes>)
    requires forall i | 0 <= i < |payloads| :: !HasNewline(payloads[i])
    ensures Lines(Written(payloads)) == payloads
  {
    if payloads != [] {
      var rest := Written(payloads[1..]);
      var s := payloads[0] + [NEWLINE] + rest;
      FirstLineOfWritten(payloads[0], rest);
      LinesOfWritten(payloads[1..]);
      assert s[|payloads[0]| + 1..] == rest;
    }
  }

  lemma {:induction false} ExpectedOfFramable(payloads: seq<Bytes>, limit: nat)
    requires forall i | 0 <= i < |payloads| :: Framable(payloads[i]) && |payloads[i]| <= limit
    ensures Expected(payloads, limit) == (payloads, false)
  {
    if payloads != [] {
      ExpectedOfFramable(payloads[1..], limit);
      assert payloads[0] == [] || !EndsLine(payloads[0][|payloads[0]| - 1]);
      assert [payloads[0]] + payloads[1..] == payloads;
    }
  }

  /** Reading inverts writing. */
  lemma ReadWritten(payloads: seq<Bytes>, limit: nat)
    requires forall i | 0 <= i < |payloads| :: Framable(payloads[i]) && |payloads[i]| <= limit
    ensures AllFrames(Written(payloads), limit) == (payloads, false)
  {
    LinesOfWritten(payloads);
    ExpectedOfFramable(payloads, limit);
    FramesAreLines(Written(payloads), limit);
  }

  lemma {:induction false} TrimIsShorter(line: Bytes)
    ensures TrimEnd(line) <= line
    ensures TrimEnd(line) != [] ==> !EndsLine(TrimEnd(line)[|TrimEnd(line)| - 1])
  {
    if line != [] && EndsLine(line[|line| - 1]) {
      TrimIsShorter(line[..|line| - 1]);
    }
  }

  lemma {:induction false} FramesNeverHoldNewlines(lines: seq<Bytes>, limit: nat)
    requires forall i | 0 <= i < |lines| :: !HasNewline(lines[i])
    ensures forall i | 0 <= i < |Expected(lines, limit).0| :: Framable(Expected(lines, limit).0[i])
  {
    if lines != [] && |lines[0]| <= limit {
      FramesNeverHoldNewlines(lines[1..], limit);
      TrimIsShorter(lines[0]);
    }
  }

  lemma {:induction false} LinesHoldNoNewline(s: Bytes)
    ensures forall i | 0 <= i < |Lines(s)| :: !HasNewline(Lines(s)[i])
    decreases |s|
  {
    if s != [] {
      var line := FirstLine(s);
      FirstLineFits(s);
      if |line| != |s| {
        LinesHoldNoNewline(s[|line| + 1..]);
      }
    }
  }

  /** A single payload within the limit survives exactly if it is framable. */
  lemma SurvivesIffFramable(payload: Bytes, limit: nat)
    requires |payload| <= limit
    ensures AllFrames(Written([payload]), limit) == ([payload], false) <==> Framable(payload)
  {
    var s := Written([payload]);
    if Framable(payload) {
      ReadWritten([payload], limit);
    }
    FramesAreLines(s, limit);
    LinesHoldNoNewline(s);
    FramesNeverHoldNewlines(Lines(s), limit);
    if AllFrames(s, limit) == ([payload], false) {
      assert Framable([payload][0]);
    }
  }
}
