/** Listing the environments page by page, against whatever the server answers. */
module Pagination {
  import opened Wrappers
  import opened JsonValues

  const MAX_REMOTE_ENVIRONMENTS: nat := 100
  const MAX_ENVIRONMENT_PAGES: nat := 32
  const MAX_CURSOR_BYTES: nat := 1024

  datatype Page<+T> = Page(cursor: Option<string>, items: seq<T>)

  datatype ApiError = TooManyEnvironments | InvalidCursor | RequestFailed

  function Utf8Length(s: string): nat {
    if s == "" then 0
    else
      (if s[0] as int < 0x80 then 1 else if s[0] as int < 0x800 then 2 else if s[0] as int < 0x1_0000 then 3 else 4)
      + Utf8Length(s[1..])
  }

  /** UTF-8 (RFC 3629) takes one to four bytes a character. */
  lemma {:induction false} Utf8LengthAdds(s: string, t: string)
    ensures Utf8Length(s + t) == Utf8Length(s) + Utf8Length(t)
  {
    if s == "" {
      assert s + t == t;
    } else {
      Utf8LengthAdds(s[1..], t);
      assert (s + t)[1..] == s[1..] + t;
    }
  }

  lemma Utf8LengthOfOne(c: char)
    ensures Utf8Length([c]) == if c <= '\U{7F}' then 1 else if c <= '\U{7FF}' then 2 else if c <= '\U{FFFF}' then 3 else 4
  {
  }

  predicate IsControl(c: char) {
    c as int < 0x20 || 0x7F <= c as int <= 0x9F
  }

  predicate WellFormedCursor(cursor: string) {
    cursor != "" && Utf8Length(cursor) <= MAX_CURSOR_BYTES && forall i | 0 <= i < |cursor| :: !IsControl(cursor[i])
  }

  /** A page is taken if it keeps within the item limit and its cursor, if any, is usable and new. */
  predicate Acceptable<T>(taken: nat, seen: set<string>, page: Page<T>) {
    && taken + |page.items| <= MAX_REMOTE_ENVIRONMENTS
    && (page.cursor.Some? ==>
          && taken + |page.items| < MAX_REMOTE_ENVIRONMENTS
          && WellFormedCursor(page.cursor.value)
          && |seen| != MAX_ENVIRONMENT_PAGES
          && page.cursor.value !in seen)
  }

  /** The limits: 100 items in all, with room for one more where a cursor follows, 32 cursors of 1 to 1024
      bytes without control characters, none twice. */
  lemma AcceptableIff<T>(taken: nat, seen: set<string>, page: Page<T>)
    ensures Acceptable(taken, seen, page) <==>
              && taken + |page.items| <= (if page.cursor.Some? then 99 else 100)
              && (page.cursor.Some? ==>
                    var cursor := page.cursor.value;
                    && cursor != "" && Utf8Length(cursor) <= 1024
                    && (forall i | 0 <= i < |cursor| :: ' ' <= cursor[i] && !('\U{7F}' <= cursor[i] <= '\U{9F}'))
                    && |seen| != 32 && cursor !in seen)
  {
  }

  class EnvironmentListing<T> {
    var environments: seq<T>
    var seenCursors: set<string>

    constructor ()
      ensures environments == [] && seenCursors == {}
    {
      environments := [];
      seenCursors := {};
    }

    /** Take a page, or leave the list and the cursors exactly as they were. */
    method AcceptEnvironmentPage(page: Page<T>) returns (r: Result<Option<string>, ApiError>)
      modifies this
      ensures r.Ok? <==> Acceptable(|old(environments)|, old(seenCursors), page)
      ensures r.Err? ==> environments == old(environments) && seenCursors == old(seenCursors)
      ensures r.Ok? ==>
                && r.value == page.cursor
                && environments == old(environments) + page.items
                && seenCursors == old(seenCursors) + (if page.cursor.Some? then {page.cursor.value} else {})
    {
      var nextLength := |environments| + |page.items|;
      if nextLength > MAX_REMOTE_ENVIRONMENTS || (nextLength == MAX_REMOTE_ENVIRONMENTS && page.cursor.Some?) {
        return Err(TooManyEnvironments);
      }
      if page.cursor.Some? {
        var cursor := page.cursor.value;
        if cursor == ""
           || Utf8Length(cursor) > MAX_CURSOR_BYTES
           || (exists i | 0 <= i < |cursor| :: IsControl(cursor[i]))
           || |seenCursors| == MAX_ENVIRONMENT_PAGES
        {
          return Err(InvalidCursor);
        }
        if cursor in seenCursors {
          return Err(InvalidCursor);
        }
        seenCursors := seenCursors + {cursor};
      }
      environments := environments + page.items;
      return Ok(page.cursor);
    }
  }

  // ---------- The whole listing ----------

  /** The server's answers to successive requests, whatever they depend on. */
  type Server<!T> = nat -> Result<Page<T>, ApiError>

  function Items<T>(server: Server<T>, n: nat): seq<T>
  {
    if n == 0 then []
    else Items(server, n - 1) + (match server(n - 1) case Ok(page) => page.items case Err(_) => [])
  }

  function Cursors<T>(server: Server<T>, n: nat): set<string> {
    if n == 0 then {}
    else
      Cursors(server, n - 1)
      + (match server(n - 1)
         case Ok(page) => if page.cursor.Some? then {page.cursor.value} else {}
         case Err(_) => {})
  }

  ghost predicate Continues<T>(server: Server<T>, i: nat) {
    && server(i).Ok? && server(i).value.cursor.Some?
    && Acceptable(|Items(server, i)|, Cursors(server, i), server(i).value)
  }

  ghost predicate Ends<T>(server: Server<T>, i: nat) {
    && server(i).Ok? && server(i).value.cursor.None?
    && Acceptable(|Items(server, i)|, Cursors(server, i), server(i).value)
  }

  /** Answer `last` is the first without a cursor, and all answers up to it are acceptable in turn. */
  ghost predicate CompleteAt<T>(server: Server<T>, last: nat) {
    (forall i: nat | i < last :: Continues(server, i)) && Ends(server, last)
  }

  lemma {:induction false} CursorsAreDistinct<T>(server: Server<T>, n: nat)
    requires forall i: nat | i < n :: Continues(server, i)
    ensures |Cursors(server, n)| == n <= MAX_ENVIRONMENT_PAGES
  {
    if n > 0 {
      CursorsAreDistinct(server, n - 1);
      assert Continues(server, n - 1);
    }
  }

  /** A page that is taken continues the listing or ends it. */
  lemma PageTaken<T>(server: Server<T>, i: nat)
    requires server(i).Ok? && Acceptable(|Items(server, i)|, Cursors(server, i), server(i).value)
    ensures var page := server(i).value;
            && (if page.cursor.Some? then Continues(server, i) else Ends(server, i))
            && Items(server, i + 1) == Items(server, i) + page.items
            && Cursors(server, i + 1) == Cursors(server, i) + (if page.cursor.Some? then {page.cursor.value} else {})
  {
    hide Acceptable;
  }

  lemma PageRefused<T>(server: Server<T>, i: nat)
    requires server(i).Ok? ==> !Acceptable(|Items(server, i)|, Cursors(server, i), server(i).value)
    ensures !Continues(server, i) && !Ends(server, i)
  {
    hide Acceptable;
  }

  method ListEnvironments<T>(server: Server<T>) returns (r: Result<seq<T>, ApiError>, pages: nat)
    // Every server is left after at most 33 pages.
    ensures 1 <= pages <= 33
    // The listing succeeds exactly if some answer completes it, and then it is all items in order.
    ensures r.Ok? <==> exists last: nat :: CompleteAt(server, last)
    ensures r.Ok? ==> CompleteAt(server, pages - 1) && r.value == Items(server, pages)
    ensures r.Ok? ==> |r.value| <= 100
  {
    hide Acceptable, Items, Cursors, Continues, Ends;
    var listing := new EnvironmentListing<T>();
    pages := 0;
    NothingListed(server);
    while true
      invariant forall i: nat | i < pages :: Continues(server, i)
      invariant listing.environments == Items(server, pages)
      invariant listing.seenCursors == Cursors(server, pages)
      invariant fresh(listing)
      invariant pages <= MAX_ENVIRONMENT_PAGES
      decreases MAX_ENVIRONMENT_PAGES - pages
    {
      var page := server(pages);
      pages := pages + 1;
      if page.Err? {
        PageRefused(server, pages - 1);
        StoppedShort(server, pages - 1);
        return Err(page.error), pages;
      }
      var cursor := listing.AcceptEnvironmentPage(page.value);
      if cursor.Err? {
        PageRefused(server, pages - 1);
        StoppedShort(server, pages - 1);
        return Err(cursor.error), pages;
      }
      PageTaken(server, pages - 1);
      if cursor.value.None? {
        assert CompleteAt(server, pages - 1);
        EndsWithinLimit(server, pages - 1);
        return Ok(listing.environments), pages;
      }
      CursorsAreDistinct(server, pages);
    }
  }

  lemma NothingListed<T>(server: Server<T>)
    ensures Items(server, 0) == [] && Cursors(server, 0) == {}
  {
  }

  lemma EndsWithinLimit<T>(server: Server<T>, i: nat)
    requires Ends(server, i)
    ensures |Items(server, i + 1)| <= MAX_REMOTE_ENVIRONMENTS
  {
  }

  /** An answer that neither continues nor ends the listing rules out every way to complete it. */
  lemma StoppedShort<T>(server: Server<T>, k: nat)
    requires forall i: nat | i < k :: Continues(server, i)
    requires !Continues(server, k) && !Ends(server, k)
    ensures !exists last: nat :: CompleteAt(server, last)
  {
    forall last: nat ensures !CompleteAt(server, last) {
      if last < k {
        assert Continues(server, last);
      }
    }
  }

  /** Completion is reached at one place only, so the result does not depend on how it is found. */
  lemma CompletionIsUnique<T>(server: Server<T>, m: nat, n: nat)
    requires CompleteAt(server, m) && CompleteAt(server, n)
    ensures m == n
  {
    assert m < n ==> Continues(server, m);
    assert n < m ==> Continues(server, n);
  }
}
