/** The queue of pending request ids against the ledger: every id sent since the stream began is
    waiting, matched by a reply, or blamed for an error that named no request. */
module PendingRequests {
  import opened Wrappers
  import opened JsonValues
  import opened Segmentation
  import opened Reassembler
  import opened Transport
  import opened TransportRuns
  import opened Epochs

  // ---------- The ledger operations do to the ledger what the queue operations do to the queue ----------

  lemma {:induction false} IssueAppends(ledger: seq<Ticket>, ids: seq<Json>)
    ensures Unused(ledger + NewTickets(ids)) == Unused(ledger) + ids
    decreases |ledger|, |ids|
  {
    if ledger != [] {
      IssueAppends(ledger[1..], ids);
      assert (ledger + NewTickets(ids))[1..] == ledger[1..] + NewTickets(ids);
    } else if ids != [] {
      IssueAppends([], ids[1..]);
      assert [] + NewTickets(ids) == [Ticket(ids[0], false)] + ([] + NewTickets(ids[1..]));
    }
  }

  /** The position of the oldest waiting ticket that satisfies a condition on its id. */
  ghost predicate OldestWaiting(ledger: seq<Ticket>, i: nat, wanted: Json -> bool) {
    && i < |ledger|
    && !ledger[i].used && wanted(ledger[i].id)
    && forall j | 0 <= j < i :: ledger[j].used || !wanted(ledger[j].id)
  }

  /** Behind a ticket that is passed over, the oldest waiting one is the oldest waiting one of all. */
  lemma PassedOver(ledger: seq<Ticket>, k: nat, wanted: Json -> bool)
    requires ledger != [] && (ledger[0].used || !wanted(ledger[0].id))
    requires OldestWaiting(ledger[1..], k, wanted)
    ensures OldestWaiting(ledger, k + 1, wanted)
    ensures [ledger[0]] + ledger[1..][k := ledger[1..][k].(used := true)]
            == ledger[k + 1 := ledger[k + 1].(used := true)]
  {
    forall j | 0 <= j < k + 1 ensures ledger[j].used || !wanted(ledger[j].id) {
      if j > 0 {
        assert ledger[j] == ledger[1..][j - 1];
      }
    }
  }

  lemma {:induction false} UseOldestTakesHead(ledger: seq<Ticket>) returns (i: nat)
    requires Unused(ledger) != []
    ensures OldestWaiting(ledger, i, _ => true)
    ensures ledger[i].id == Unused(ledger)[0]
    ensures UseOldest(ledger) == ledger[i := ledger[i].(used := true)]
  {
    if !ledger[0].used {
      i := 0;
      assert UseOldest(ledger)[1..] == ledger[1..];
    } else {
      var k := UseOldestTakesHead(ledger[1..]);
      i := k + 1;
      PassedOver(ledger, k, _ => true);
    }
  }

  lemma {:induction false} UseOldestDropsHead(ledger: seq<Ticket>)
    requires Unused(ledger) != []
    ensures Unused(UseOldest(ledger)) == Unused(ledger)[1..]
  {
    if !ledger[0].used {
      assert UseOldest(ledger)[1..] == ledger[1..];
    } else {
      UseOldestDropsHead(ledger[1..]);
      assert UseOldest(ledger)[1..] == UseOldest(ledger[1..]);
    }
  }

  lemma {:induction false} UseMatchingFindsFirst(ledger: seq<Ticket>, id: Json) returns (i: nat)
    requires id in Unused(ledger)
    ensures OldestWaiting(ledger, i, other => other == id)
    ensures UseMatching(ledger, id) == ledger[i := ledger[i].(used := true)]
  {
    if !ledger[0].used && ledger[0].id == id {
      i := 0;
      assert UseMatching(ledger, id)[1..] == ledger[1..];
    } else {
      var k := UseMatchingFindsFirst(ledger[1..], id);
      i := k + 1;
      PassedOver(ledger, k, other => other == id);
    }
  }

  lemma {:induction false} UseMatchingRemovesFirst(ledger: seq<Ticket>, id: Json)
    requires id in Unused(ledger)
    ensures Unused(UseMatching(ledger, id)) == RemoveFirst(Unused(ledger), id)
  {
    var rest := ledger[1..];
    if !ledger[0].used && ledger[0].id == id {
      assert UseMatching(ledger, id)[1..] == rest;
      assert Unused(ledger)[1..] == Unused(rest);
    } else {
      UseMatchingRemovesFirst(rest, id);
      assert UseMatching(ledger, id)[1..] == UseMatching(rest, id);
      assert !ledger[0].used ==> Unused(ledger)[1..] == Unused(rest);
      assert ledger[0].used ==> Unused(ledger) == Unused(rest);
    }
  }

  lemma {:induction false} RemoveFirstConserves(queue: seq<Json>, id: Json)
    requires id in queue
    ensures multiset(queue) == multiset(RemoveFirst(queue, id)) + multiset{id}
  {
    assert queue == [queue[0]] + queue[1..];
    if queue[0] != id {
      RemoveFirstConserves(queue[1..], id);
    }
  }

  // ---------- The balance ----------

  ghost predicate SameIds(ledger: seq<Ticket>, issued: seq<Json>) {
    && |ledger| == |issued|
    && forall i | 0 <= i < |ledger| :: ledger[i].id == issued[i]
  }

  ghost predicate Balanced(r: Requests, pending: seq<Json>) {
    && SameIds(r.ledger, r.issued)
    && pending == Unused(r.ledger)
    && multiset(r.issued) == multiset(pending) + multiset(r.matched) + multiset(r.blamed)
  }

  lemma IssueKeepsBalance(r: Requests, pending: seq<Json>, ids: seq<Json>)
    requires Balanced(r, pending)
    ensures Balanced(NoteIssued(r, ids), pending + ids)
  {
    hide Unused;
    IssueAppends(r.ledger, ids);
    assert multiset(r.issued + ids) == multiset(r.issued) + multiset(ids);
    assert multiset(pending + ids) == multiset(pending) + multiset(ids);
  }

  lemma BlameKeepsBalance(r: Requests, pending: seq<Json>)
    requires Balanced(r, pending) && pending != []
    ensures Balanced(r.(ledger := UseOldest(r.ledger), blamed := r.blamed + [pending[0]]), pending[1..])
  {
    hide Unused, UseOldest;
    var i := UseOldestTakesHead(r.ledger);
    UseOldestDropsHead(r.ledger);
    assert pending == [pending[0]] + pending[1..];
    assert multiset(r.blamed + [pending[0]]) == multiset(r.blamed) + multiset{pending[0]};
  }

  lemma MatchKeepsBalance(r: Requests, pending: seq<Json>, id: Json)
    requires Balanced(r, pending) && id in pending
    ensures Balanced(r.(ledger := UseMatching(r.ledger, id), matched := r.matched + [id]), RemoveFirst(pending, id))
  {
    hide Unused, UseMatching, RemoveFirst;
    var i := UseMatchingFindsFirst(r.ledger, id);
    UseMatchingRemovesFirst(r.ledger, id);
    RemoveFirstConserves(pending, id);
    assert multiset(r.matched + [id]) == multiset(r.matched) + multiset{id};
  }

  lemma ReplyKeepsBalance(r: Requests, s: Session, message: Json)
    requires Balanced(r, s.pending)
    ensures Balanced(NoteReply(r, s.pending, message), Attribute(s, message).0.pending)
  {
    hide Balanced, RemoveFirst, UseOldest, UseMatching;
    if IsAnonymousError(message) {
      if s.pending != [] {
        BlameKeepsBalance(r, s.pending);
      }
    } else if message.Get("id").Some? {
      var id := message.Get("id").value;
      if id in s.pending {
        MatchKeepsBalance(r, s.pending, id);
      } else {
        RemoveFirstAbsent(s.pending, id);
      }
    }
  }

  ghost predicate InBalance(h: History) {
    Balanced(h.requests, h.session.pending)
  }

  lemma NothingToBalance()
    ensures Balanced(NO_REQUESTS, [])
  {
  }

  lemma AdmitKeepsPending(wire: Wire, s: Session, envelope: Json)
    ensures Admit(wire, s, envelope).0.pending == s.pending
  {
    hide ObserveStep, TargetsActiveStream;
  }

  lemma AdvanceKeepsBalance(wire: Wire, h: History, event: Event)
    requires InBalance(h)
    ensures InBalance(Advance(wire, h, event))
  {
    hide Balanced, Admit, Attribute, SegmentationOf, NoteReply, NoteIssued, RequestId;
    match event
    case Send(message, freshStreamId) =>
      NothingToBalance();
      IssueKeepsBalance(h.requests, h.session.pending, RequestId(message));
      IssueKeepsBalance(NO_REQUESTS, [], RequestId(message));
    case Receive(envelope) =>
      var (admitted, payload) := Admit(wire, h.session, envelope);
      AdmitKeepsPending(wire, h.session, envelope);
      if payload.Ok? && payload.value.Some? {
        ReplyKeepsBalance(h.requests, admitted, payload.value.value);
        UnattributedKeepsPending(admitted, payload.value.value);
      }
  }

  lemma UnattributedKeepsPending(s: Session, message: Json)
    ensures Attribute(s, message).1.Err? ==> Attribute(s, message).0 == s
  {
  }

  /** At every moment of every run, the queue is the waiting part of the ledger, in order, and the ids
      sent in the stream are exactly those waiting, those matched and those blamed. */
  lemma {:induction false} EveryRunBalancesRequests(wire: Wire, h: History, events: seq<Event>)
    requires InBalance(h)
    ensures InBalance(Run(wire, h, events))
    decreases |events|
  {
    hide Advance, InBalance;
    if events != [] {
      AdvanceKeepsBalance(wire, h, events[0]);
      EveryRunBalancesRequests(wire, Advance(wire, h, events[0]), events[1..]);
    }
  }

  /** An error without an id is handed on under the id of the oldest request still waiting, and settles
      that request and no other. */
  lemma AnonymousErrorBlamesOldest(h: History, admitted: Session, message: Json) returns (i: nat)
    requires InBalance(h) && admitted.pending == h.session.pending
    requires message.StringField("type") == Some("error") && message.Get("id") == None && admitted.pending != []
    ensures OldestWaiting(h.requests.ledger, i, _ => true)
    ensures var next := AfterPayload(h, admitted, message);
            && next.stopped == h.stopped
            && |next.intake.delivered| == |h.intake.delivered| + 1
            && next.intake.delivered[..|h.intake.delivered|] == h.intake.delivered
            && Attributed(h.requests.issued[i], message, next.intake.delivered[|h.intake.delivered|])
            && next.requests.ledger == h.requests.ledger[i := Ticket(h.requests.issued[i], true)]
  {
    hide Unused, UseOldest, Attributed, AttributedError;
    i := UseOldestTakesHead(h.requests.ledger);
    AnonymousErrorIsAttributed(admitted, message);
  }

  /** A reply with an id is handed on unchanged, and settles the oldest waiting request of that id. */
  lemma ReplySettlesItsRequest(h: History, admitted: Session, message: Json, id: Json) returns (i: nat)
    requires InBalance(h) && admitted.pending == h.session.pending
    requires message.Get("id") == Some(id) && id in admitted.pending
    ensures OldestWaiting(h.requests.ledger, i, other => other == id)
    ensures var next := AfterPayload(h, admitted, message);
            && next.stopped == h.stopped
            && next.intake.delivered == h.intake.delivered + [message]
            && next.requests.ledger == h.requests.ledger[i := Ticket(id, true)]
  {
    hide Unused, UseMatching;
    i := UseMatchingFindsFirst(h.requests.ledger, id);
  }
}
