/** Sending one API request: one token refresh, three retries, bounded waits. */
module Retries {
  import opened Wrappers
  import opened JsonValues
  import Decimals

  const MAX_RETRIES: nat := 3
  const MAX_RETRY_AFTER_SECONDS: nat := 30

  /** A response as the loop sees it: its status and its Retry-After header, if readable. */
  datatype Reply = Reply(status: nat, retryAfter: Option<string>)

  datatype SendError = NoCredentials | TransportFailed | RefreshFailed | Refused(status: nat)

  predicate IsSuccess(status: nat) {
    200 <= status <= 299
  }

  predicate IsRetriable(status: nat) {
    status == 429 || 500 <= status <= 599
  }

  // ---------- Retry-After ----------

  predicate IsSpace(c: char) {
    c == ' ' || '\t' <= c <= '\r'
  }

  function TrimStart(s: string): string {
    if s != "" && IsSpace(s[0]) then TrimStart(s[1..]) else s
  }

  function TrimEnd(s: string): string {
    if s != "" && IsSpace(s[|s| - 1]) then TrimEnd(s[..|s| - 1]) else s
  }

  function Trimmed(value: string): string {
    TrimEnd(TrimStart(value))
  }

  /** The number in a trimmed text: digits, after at most one plus sign. */
  function Unsigned(text: string): string {
    if text != "" && text[0] == '+' then text[1..] else text
  }

  /** Seconds to wait: a decimal number, with a plus sign allowed in front, cut off at thirty. */
  function ParseRetryAfter(value: string): (seconds: Option<nat>)
    ensures seconds.Some? ==> seconds.value <= MAX_RETRY_AFTER_SECONDS
  {
    match Decimals.Parse(Unsigned(Trimmed(value)))
    case None => None
    case Some(n) =>
      if n > U64_MAX then None
      else if n > MAX_RETRY_AFTER_SECONDS then Some(MAX_RETRY_AFTER_SECONDS)
      else Some(n)
  }

  predicate AllSpace(s: string) {
    forall i | 0 <= i < |s| :: IsSpace(s[i])
  }

  function Capped(n: nat): nat {
    if n <= MAX_RETRY_AFTER_SECONDS then n else MAX_RETRY_AFTER_SECONDS
  }

  /** The text is a number of seconds: blanks around digits, perhaps with zeros and a plus in front. */
  ghost predicate Spells(value: string, n: nat) {
    exists before: string, plus: string, zeros: nat, after: string ::
      && AllSpace(before) && AllSpace(after) && plus in {"", "+"}
      && value == before + Numeral(plus, zeros, n) + after
  }

  lemma {:induction false} TrimStartOf(before: string, rest: string)
    requires AllSpace(before) && rest != "" && !IsSpace(rest[0])
    ensures TrimStart(before + rest) == rest
  {
    if before == "" {
      assert before + rest == rest;
    } else {
      TrimStartOf(before[1..], rest);
      assert (before + rest)[1..] == before[1..] + rest;
    }
  }

  lemma {:induction false} TrimEndOf(text: string, after: string)
    requires AllSpace(after) && text != "" && !IsSpace(text[|text| - 1])
    ensures TrimEnd(text + after) == text
  {
    if after == "" {
      assert text + after == text;
    } else {
      TrimEndOf(text, after[..|after| - 1]);
      assert (text + after)[..|text + after| - 1] == text + after[..|after| - 1];
    }
  }

  lemma {:induction false} TrimStartSplits(s: string) returns (before: string)
    ensures s == before + TrimStart(s) && AllSpace(before)
  {
    if s != "" && IsSpace(s[0]) {
      var rest := TrimStartSplits(s[1..]);
      before := [s[0]] + rest;
    } else {
      before := "";
    }
  }

  lemma {:induction false} TrimEndSplits(s: string) returns (after: string)
    ensures s == TrimEnd(s) + after && AllSpace(after)
  {
    if s != "" && IsSpace(s[|s| - 1]) {
      var rest := TrimEndSplits(s[..|s| - 1]);
      after := rest + [s[|s| - 1]];
    } else {
      after := "";
    }
  }

  lemma TrimmedOf(before: string, text: string, after: string)
    requires AllSpace(before) && AllSpace(after) && text != "" && !IsSpace(text[0]) && !IsSpace(text[|text| - 1])
    ensures Trimmed(before + text + after) == text
  {
    hide TrimStart, TrimEnd, AllSpace, IsSpace;
    assert before + text + after == before + (text + after);
    TrimStartOf(before, text + after);
    TrimEndOf(text, after);
  }

  function Numeral(plus: string, zeros: nat, n: nat): (text: string)
    ensures text != ""
  {
    plus + Decimals.Zeros(zeros) + Decimals.Render(n)
  }

  lemma NumeralValue(plus: string, zeros: nat, n: nat)
    requires plus in {"", "+"}
    ensures var text := Numeral(plus, zeros, n);
            && !IsSpace(text[0]) && !IsSpace(text[|text| - 1])
            && Decimals.Parse(Unsigned(text)) == Some(n)
  {
    hide Decimals.Parse, Decimals.Render, Decimals.Zeros;
    var digits := Decimals.Zeros(zeros) + Decimals.Render(n);
    var text := Numeral(plus, zeros, n);
    assert text == plus + digits;
    assert Decimals.IsDigit(digits[0]) && Decimals.IsDigit(digits[|digits| - 1]);
    assert text[|text| - 1] == digits[|digits| - 1];
    assert Unsigned(text) == digits;
    Decimals.ParseWithZeros(zeros, Decimals.Render(n));
    Decimals.ParseRender(n);
  }

  /** What is spelled is understood, cut off at thirty, if it fits in 64 bits. */
  lemma SpelledIsUnderstood(value: string, n: nat)
    requires Spells(value, n)
    ensures ParseRetryAfter(value) == if n > U64_MAX then None else Some(Capped(n))
  {
    hide Decimals.Parse, Numeral, Trimmed, Unsigned, AllSpace, IsSpace;
    var before: string, plus: string, zeros: nat, after: string :|
      && AllSpace(before) && AllSpace(after) && plus in {"", "+"}
      && value == before + Numeral(plus, zeros, n) + after;
    NumeralValue(plus, zeros, n);
    TrimmedOf(before, Numeral(plus, zeros, n), after);
  }

  lemma UnderstoodIsSpelled(value: string) returns (n: nat)
    requires ParseRetryAfter(value).Some?
    ensures n <= U64_MAX && Spells(value, n)
  {
    hide Spells, TrimStart, TrimEnd, Decimals.Render, Decimals.Parse;
    var start := TrimStart(value);
    var text := TrimEnd(start);
    var before := TrimStartSplits(value);
    var after := TrimEndSplits(start);
    n := Decimals.Parse(Unsigned(text)).value;
    var zeros := Decimals.NumeralIsPadded(Unsigned(text));
    PutTogether(value, before, text, zeros, n, after);
  }

  lemma PutTogether(value: string, before: string, text: string, zeros: nat, n: nat, after: string)
    requires AllSpace(before) && AllSpace(after) && value == before + (text + after)
    requires Unsigned(text) == Decimals.Zeros(zeros) + Decimals.Render(n)
    ensures Spells(value, n)
  {
    hide Decimals.Render, Decimals.Zeros, AllSpace;
    var plus := if text != "" && text[0] == '+' then "+" else "";
    assert text == plus + Unsigned(text);
    assert text == plus + Decimals.Zeros(zeros) + Decimals.Render(n);
    assert text == Numeral(plus, zeros, n);
    assert value == before + Numeral(plus, zeros, n) + after;
  }

  /** A header is understood as a wait exactly if it spells a number of at most 64 bits, and the wait is
      that number, at most thirty. */
  lemma RetryAfterIsExact(value: string, seconds: nat)
    ensures ParseRetryAfter(value) == Some(seconds)
            <==> exists n: nat :: n <= U64_MAX && Spells(value, n) && seconds == Capped(n)
  {
    hide ParseRetryAfter, Spells;
    if ParseRetryAfter(value) == Some(seconds) {
      var n := UnderstoodIsSpelled(value);
      SpelledIsUnderstood(value, n);
    }
    if exists n: nat :: n <= U64_MAX && Spells(value, n) && seconds == Capped(n) {
      var n: nat :| n <= U64_MAX && Spells(value, n) && seconds == Capped(n);
      SpelledIsUnderstood(value, n);
    }
  }

  /** Delta-seconds, section 10.2.3 of RFC 9110: one or more digits. */
  predicate IsDeltaSeconds(text: string) {
    Decimals.IsNumeral(text)
  }

  /** A numeral whose value fits, or does not fit, in 64 bits. */
  predicate IsNumeralWithin64(text: string, fits: bool) {
    Decimals.Parse(text).Some? && (Decimals.Parse(text).value <= U64_MAX <==> fits)
  }

  /** The parser agrees with the standard on which trimmed texts are waits, except in two cases: it takes
      a plus sign in front of a number, and it does not take numbers beyond 64 bits. */
  lemma StandardIsMetIff(value: string)
    ensures var text := Trimmed(value);
            (ParseRetryAfter(value).Some? <==> IsDeltaSeconds(text))
            <==> !(text != "" && text[0] == '+' && IsNumeralWithin64(text[1..], true)) && !IsNumeralWithin64(text, false)
  {
    hide Decimals.Parse;
    Decimals.ParseIff(Trimmed(value));
  }

  /** The plus sign at work. */
  lemma PlusSignIsAccepted(n: nat)
    requires n <= MAX_RETRY_AFTER_SECONDS
    ensures ParseRetryAfter("+" + Decimals.Render(n)) == Some(n)
    ensures !IsDeltaSeconds(Trimmed("+" + Decimals.Render(n)))
  {
    hide ParseRetryAfter, Trimmed, Decimals.Render, Decimals.Parse;
    var value := "+" + Decimals.Render(n);
    PlainSpelling("+", n);
    SpelledIsUnderstood(value, n);
    NumeralValue("+", 0, n);
    TrimmedOf("", value, "");
    assert "" + value + "" == value;
  }

  /** Every number of seconds is understood as it is usually written; a negative one is not. */
  lemma RetryAfterOfSeconds(n: nat)
    ensures ParseRetryAfter(Decimals.Render(n)) == if n > U64_MAX then None else Some(Capped(n))
    ensures ParseRetryAfter("-" + Decimals.Render(n)) == None
  {
    var text := Decimals.Render(n);
    PlainSpelling("", n);
    assert "" + text == text;
    SpelledIsUnderstood(text, n);
    var negative := "-" + text;
    assert TrimEnd(TrimStart(negative)) == negative;
    Decimals.ParseIff(negative);
  }

  lemma PlainSpelling(plus: string, n: nat)
    requires plus in {"", "+"}
    ensures Numeral(plus, 0, n) == plus + Decimals.Render(n) && Spells(plus + Decimals.Render(n), n)
  {
    hide Decimals.Render;
    assert Numeral(plus, 0, n) == plus + Decimals.Render(n);
    assert plus + Decimals.Render(n) == "" + Numeral(plus, 0, n) + "";
    assert AllSpace("");
  }

  // ---------- The loop ----------

  type Server = nat -> Option<Reply>

  function Status(server: Server, i: nat): nat {
    match server(i)
    case Some(reply) => reply.status
    case None => 0
  }

  function Unauthorized(server: Server, n: nat): nat {
    if n == 0 then 0 else Unauthorized(server, n - 1) + (if Status(server, n - 1) == 401 then 1 else 0)
  }

  function Retriable(server: Server, n: nat): nat {
    if n == 0 then 0 else Retriable(server, n - 1) + (if IsRetriable(Status(server, n - 1)) then 1 else 0)
  }

  /** Milliseconds to wait before retry number `retries` + 1. */
  function Delay(reply: Reply, retries: nat): nat
    requires retries < MAX_RETRIES
  {
    var asked := match reply.retryAfter case Some(value) => ParseRetryAfter(value) case None => None;
    match asked
    case Some(seconds) => seconds * 1000
    case None => if retries == 0 then 250 else if retries == 1 then 500 else 1000
  }

  lemma DelayIsBounded(reply: Reply, retries: nat)
    requires retries < MAX_RETRIES
    ensures Delay(reply, retries) <= MAX_RETRY_AFTER_SECONDS * 1000
  {
  }

  /** What has been waited after `n` replies. */
  function TotalDelay(server: Server, n: nat): nat {
    if n == 0 then 0
    else
      TotalDelay(server, n - 1)
      + (match server(n - 1)
         case Some(reply) =>
           if IsRetriable(reply.status) && Retriable(server, n - 1) < MAX_RETRIES
           then Delay(reply, Retriable(server, n - 1)) else 0
         case None => 0)
  }

  /** The loop goes round again after reply `i`: for a refresh, or for a retry. */
  ghost predicate GoesOn(server: Server, i: nat) {
    && server(i).Some?
    && (|| (Status(server, i) == 401 && Unauthorized(server, i) == 0)
        || (IsRetriable(Status(server, i)) && Retriable(server, i) < MAX_RETRIES))
  }

  // ---------- Which statuses are retried, and how long the waits are ----------

  function ServerTrouble(server: Server, n: nat): set<nat> {
    set i: nat | i < n && (Status(server, i) == 429 || 500 <= Status(server, i) <= 599)
  }

  function Refusals(server: Server, n: nat): set<nat> {
    set i: nat | i < n && Status(server, i) == 401
  }

  /** Retries count the replies 429 and 500 to 599. */
  lemma {:induction false} RetriesAreCounted(server: Server, n: nat)
    ensures Retriable(server, n) == |ServerTrouble(server, n)|
  {
    if n > 0 {
      RetriesAreCounted(server, n - 1);
      if IsRetriable(Status(server, n - 1)) {
        assert ServerTrouble(server, n) == ServerTrouble(server, n - 1) + {n - 1};
      } else {
        assert ServerTrouble(server, n) == ServerTrouble(server, n - 1);
      }
    } else {
      assert ServerTrouble(server, 0) == {};
    }
  }

  /** Refreshes count the replies 401. */
  lemma {:induction false} RefreshesAreCounted(server: Server, n: nat)
    ensures Unauthorized(server, n) == |Refusals(server, n)|
  {
    if n > 0 {
      RefreshesAreCounted(server, n - 1);
      if Status(server, n - 1) == 401 {
        assert Refusals(server, n) == Refusals(server, n - 1) + {n - 1};
      } else {
        assert Refusals(server, n) == Refusals(server, n - 1);
      }
    } else {
      assert Refusals(server, 0) == {};
    }
  }

  lemma GoesOnIff(server: Server, i: nat)
    ensures var status := Status(server, i);
            GoesOn(server, i) <==>
              && server(i).Some?
              && (|| (status == 401 && Unauthorized(server, i) == 0)
                  || ((status == 429 || 500 <= status <= 599) && Retriable(server, i) < 3))
  {
  }

  /** A retry waits as long as an understood Retry-After asks, at most thirty seconds, and otherwise 250,
      500 and 1000 milliseconds; a refresh does not wait. */
  lemma WaitsAreExact(server: Server, i: nat)
    requires GoesOn(server, i)
    ensures TotalDelay(server, 0) == 0
    ensures var wait := TotalDelay(server, i + 1) - TotalDelay(server, i);
            var header := server(i).value.retryAfter;
            if Status(server, i) == 401 then wait == 0
            else if header.Some? && exists n: nat :: n <= U64_MAX && Spells(header.value, n) then
              forall n: nat | n <= U64_MAX && Spells(header.value, n) :: wait == (if n <= 30 then n else 30) * 1000
            else wait == [250, 500, 1000][Retriable(server, i)]
  {
    hide ParseRetryAfter, Spells;
    var header := server(i).value.retryAfter;
    if header.Some? {
      forall n: nat | n <= U64_MAX && Spells(header.value, n) ensures ParseRetryAfter(header.value) == Some(Capped(n)) {
        SpelledIsUnderstood(header.value, n);
      }
      if ParseRetryAfter(header.value).Some? {
        var n := UnderstoodIsSpelled(header.value);
      }
    }
  }

  /** What the loop has behind it after `sends` replies. */
  ghost predicate Account(server: Server, sends: nat, retries: nat, refreshed: bool, waited: nat) {
    && retries == Retriable(server, sends) <= MAX_RETRIES
    && Unauthorized(server, sends) == (if refreshed then 1 else 0)
    && sends == retries + Unauthorized(server, sends)
    && waited == TotalDelay(server, sends) <= retries * 30_000
    && forall i: nat | i < sends :: GoesOn(server, i)
  }

  lemma AfterRefresh(server: Server, sends: nat, retries: nat, waited: nat)
    requires Account(server, sends, retries, false, waited) && server(sends).Some? && Status(server, sends) == 401
    ensures Account(server, sends + 1, retries, true, waited)
  {
    hide Delay;
    assert GoesOn(server, sends);
  }

  lemma AfterRetry(server: Server, sends: nat, retries: nat, refreshed: bool, waited: nat)
    requires Account(server, sends, retries, refreshed, waited) && retries < MAX_RETRIES
    requires server(sends).Some? && IsRetriable(Status(server, sends))
    ensures Account(server, sends + 1, retries + 1, refreshed, waited + Delay(server(sends).value, retries))
  {
    hide Delay;
    DelayIsBounded(server(sends).value, retries);
    assert GoesOn(server, sends);
  }

  method SendWithStatusPolicy(server: Server, authorized: bool, refreshes: bool, allowNotFound: bool)
    returns (r: Result<Reply, SendError>, sends: nat, waited: nat)
    // At most five requests, and at most ninety seconds of waiting.
    ensures sends <= 5 && waited <= 90_000
    ensures sends == 0 <==> !authorized
    ensures sends > 0 ==> waited == TotalDelay(server, sends - 1)
    // Every request but the last was followed up; they are one refresh and three retries at most.
    ensures forall i: nat | i + 1 < sends :: GoesOn(server, i)
    ensures sends > 0 ==> sends - 1 == Unauthorized(server, sends - 1) + Retriable(server, sends - 1)
    // The last reply decides.
    ensures r.Ok? ==> sends > 0 && server(sends - 1) == Some(r.value)
                      && (200 <= r.value.status <= 299 || (allowNotFound && r.value.status == 404))
    ensures r.Err? && r.error.Refused? ==>
              && sends > 0 && server(sends - 1).Some? && !GoesOn(server, sends - 1)
              && r.error.status == Status(server, sends - 1)
              && !(200 <= r.error.status <= 299) && !(allowNotFound && r.error.status == 404)
    ensures r == Err(TransportFailed) ==> sends > 0 && server(sends - 1).None?
    ensures r == Err(RefreshFailed) ==>
              !refreshes && sends > 0 && Status(server, sends - 1) == 401 && Unauthorized(server, sends - 1) == 0
    ensures r == Err(NoCredentials) ==> !authorized
  {
    hide Delay, Unauthorized, Retriable, TotalDelay;
    sends, waited := 0, 0;
    if !authorized {
      return Err(NoCredentials), sends, waited;
    }
    var refreshedAfterUnauthorized := false;
    var retryCount := 0;
    assert Account(server, 0, 0, false, 0) by { NothingSent(server); }
    while true
      invariant Account(server, sends, retryCount, refreshedAfterUnauthorized, waited)
      decreases 4 - sends
    {
      var reply := server(sends);
      sends := sends + 1;
      if reply.None? {
        return Err(TransportFailed), sends, waited;
      }
      var status := reply.value.status;
      if status == 401 && !refreshedAfterUnauthorized {
        if !refreshes {
          return Err(RefreshFailed), sends, waited;
        }
        AfterRefresh(server, sends - 1, retryCount, waited);
        refreshedAfterUnauthorized := true;
        continue;
      }
      if IsRetriable(status) && retryCount < MAX_RETRIES {
        AfterRetry(server, sends - 1, retryCount, refreshedAfterUnauthorized, waited);
        waited := waited + Delay(reply.value, retryCount);
        retryCount := retryCount + 1;
        continue;
      }
      if !(IsSuccess(status) || (allowNotFound && status == 404)) {
        return Err(Refused(status)), sends, waited;
      }
      return Ok(reply.value), sends, waited;
    }
  }

  lemma NothingSent(server: Server)
    ensures Account(server, 0, 0, false, 0)
  {
  }
}
