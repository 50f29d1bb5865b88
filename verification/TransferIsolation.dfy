/** Ownership: whose transfers and bindings a request may show or change. */
module TransferIsolation {
  import opened Text
  import opened TransferPolicy
  import opened TransferService
  import opened TransferHistory

  predicate Owns(db: Database, subject: Uuid, id: Uuid) { id in db.transfers && db.transfers[id].subject == subject }

  /** Cancelling an unknown transfer and cancelling another subject's are told apart by
      nothing: not found, and both tables as they were. */
  lemma ForeignCancelNotFound(db: Database, subject: Uuid, id: Uuid, now: Time)
    ensures HandleCancel(db, subject, id, now) == (db, Some(NoSuchTransfer)) <==> !Owns(db, subject, id)
  {
  }

  /** The same for an acknowledgement that is valid and whose key is free. */
  lemma ForeignAckNotFound(db: Database, r: AckRequest, now: Time)
    requires AckFault(r, now) == None && LiveBinding(db.bindings, r.subject, r.key, Seconds(now)) == None
    ensures HandleAck(db, r, now) == (db, Failure(NoSuchTransfer)) <==> !Owns(db, r.subject, r.transferId)
  {
  }

  function Actor(e: Event): Uuid {
    match e.request
    case Creating(r) => r.subject
    case Acknowledging(r) => r.subject
    case Cancelling(subject, _) => subject
  }

  /** The response is that of a transfer the subject owns, as it now is. */
  ghost predicate ShowsOwn(after: Database, subject: Uuid, reply: Result<TransferResponse, ApiError>, now: Time) {
    reply.Success? ==>
      && Owns(after, subject, reply.value.transferId)
      && reply.value == Respond(after.transfers[reply.value.transferId], Seconds(now))
  }

  lemma BoundShowsOwn(
    db: Database, binding: BindingRow, subject: Uuid, key: Text, operation: IdempotentOperation, route: Route,
    digest: Text, now: Time)
    requires forall id :: id in db.transfers ==> db.transfers[id].id == id
    ensures ShowsOwn(db, subject, AnswerBound(db, binding, subject, key, operation, route, digest, now), now)
  {
  }

  lemma CreateShowsOwn(db: Database, r: CreateRequest, now: Time)
    requires forall id :: id in db.transfers ==> db.transfers[id].id == id
    ensures ShowsOwn(HandleCreate(db, r, now).0, r.subject, HandleCreate(db, r, now).1, now)
  {
    var existing := LiveBinding(db.bindings, r.subject, r.key, Seconds(now));
    if existing.Some? {
      BoundShowsOwn(db, existing.value, r.subject, r.key, CreateOperation, TransfersRoute, r.digest, now);
    }
  }

  lemma AckShowsOwn(db: Database, r: AckRequest, now: Time)
    requires forall id :: id in db.transfers ==> db.transfers[id].id == id
    ensures ShowsOwn(HandleAck(db, r, now).0, r.subject, HandleAck(db, r, now).1, now)
  {
    var existing := LiveBinding(db.bindings, r.subject, r.key, Seconds(now));
    if existing.Some? {
      BoundShowsOwn(
        db, existing.value, r.subject, r.key, AcknowledgeOperation, AckRoute(r.transferId), r.digest, now);
    }
  }

  /** A reply that shows a transfer shows one of the caller's, as it now is. */
  lemma RepliesShowOwnTransfers(db: Database, e: Event)
    requires Sound(db, e.now)
    ensures var (after, reply) := Handle(db, e);
      reply.Answered? ==> ShowsOwn(after, Actor(e), reply.reply, e.now)
  {
    assert forall id :: id in db.transfers ==> RowSound(id, db.transfers[id], e.now);
    match e.request
    case Creating(r) => CreateShowsOwn(db, r, e.now);
    case Acknowledging(r) => AckShowsOwn(db, r, e.now);
    case Cancelling(_, _) =>
  }

  function OwnTransfer(db: Database, subject: Uuid, id: Uuid): Option<TransferRow> {
    if Owns(db, subject, id) then Some(db.transfers[id]) else None
  }

  function OwnBinding(db: Database, subject: Uuid, key: Text): Option<BindingRow> {
    if (subject, key) in db.bindings then Some(db.bindings[(subject, key)]) else None
  }

  /** The two databases hold the same transfers and bindings of the subject. */
  ghost predicate SameView(a: Database, b: Database, subject: Uuid) {
    && (forall id :: OwnTransfer(a, subject, id) == OwnTransfer(b, subject, id))
    && (forall key :: OwnBinding(a, subject, key) == OwnBinding(b, subject, key))
  }

  lemma SameViewChains(a: Database, b: Database, c: Database, subject: Uuid)
    requires SameView(a, b, subject) && SameView(a, c, subject)
    ensures SameView(b, c, subject)
  {
    forall id
      ensures OwnTransfer(b, subject, id) == OwnTransfer(c, subject, id)
    {
      assert OwnTransfer(a, subject, id) == OwnTransfer(b, subject, id);
    }
    forall key
      ensures OwnBinding(b, subject, key) == OwnBinding(c, subject, key)
    {
      assert OwnBinding(a, subject, key) == OwnBinding(b, subject, key);
    }
  }

  /** What one subject does leaves every other subject's transfers and bindings alone. */
  lemma OthersLeaveView(db: Database, e: Event, subject: Uuid)
    requires Actor(e) != subject
    ensures SameView(db, Handle(db, e).0, subject)
  {
    match e.request
    case Creating(r) => CreateLeavesView(db, r, e.now, subject);
    case Acknowledging(r) => AckLeavesView(db, r, e.now, subject);
    case Cancelling(_, _) =>
  }

  lemma CreateLeavesView(db: Database, r: CreateRequest, now: Time, subject: Uuid)
    requires r.subject != subject
    ensures SameView(db, HandleCreate(db, r, now).0, subject)
  {
  }

  lemma AckLeavesView(db: Database, r: AckRequest, now: Time, subject: Uuid)
    requires r.subject != subject
    ensures SameView(db, HandleAck(db, r, now).0, subject)
  {
  }

  /** The identifier a create would use is new. */
  ghost predicate NewIdFree(db: Database, e: Event) { e.request.Creating? ==> e.request.create.newId !in db.transfers }

  /** What a subject is answered, and what it then owns, depends on its own view alone. */
  lemma OwnViewDecides(a: Database, b: Database, e: Event)
    requires SameView(a, b, Actor(e)) && NewIdFree(a, e) && NewIdFree(b, e)
    requires Sound(a, e.now) && Sound(b, e.now)
    ensures Handle(a, e).1 == Handle(b, e).1 && SameView(Handle(a, e).0, Handle(b, e).0, Actor(e))
  {
    match e.request
    case Creating(r) => CreateFromView(a, b, r, e.now);
    case Acknowledging(r) => AckFromView(a, b, r, e.now);
    case Cancelling(subject, id) => CancelFromView(a, b, subject, id, e.now);
  }

  lemma BoundFromView(
    a: Database, b: Database, binding: BindingRow, subject: Uuid, key: Text, operation: IdempotentOperation,
    route: Route, digest: Text, now: Time)
    requires SameView(a, b, subject)
    ensures AnswerBound(a, binding, subject, key, operation, route, digest, now) ==
      AnswerBound(b, binding, subject, key, operation, route, digest, now)
  {
    if binding.transferId.Some? {
      FoundFromView(a, b, subject, binding.transferId.value);
    }
  }

  lemma FoundFromView(a: Database, b: Database, subject: Uuid, id: Uuid)
    requires SameView(a, b, subject)
    ensures FindOwned(a.transfers, subject, id) == FindOwned(b.transfers, subject, id)
  {
    assert OwnTransfer(a, subject, id) == OwnTransfer(b, subject, id);
  }

  lemma LiveFromView(a: Database, b: Database, subject: Uuid, key: Text, now: int)
    requires SameView(a, b, subject)
    ensures LiveBinding(a.bindings, subject, key, now) == LiveBinding(b.bindings, subject, key, now)
  {
    assert OwnBinding(a, subject, key) == OwnBinding(b, subject, key);
  }

  lemma RowKeepsView(a: Database, b: Database, subject: Uuid, id: Uuid, row: TransferRow)
    requires SameView(a, b, subject) && row.subject == subject
    ensures SameView(a.(transfers := a.transfers[id := row]), b.(transfers := b.transfers[id := row]), subject)
  {
    var x, y := a.(transfers := a.transfers[id := row]), b.(transfers := b.transfers[id := row]);
    forall other
      ensures OwnTransfer(x, subject, other) == OwnTransfer(y, subject, other)
    {
      assert OwnTransfer(a, subject, other) == OwnTransfer(b, subject, other);
    }
    forall key
      ensures OwnBinding(x, subject, key) == OwnBinding(y, subject, key)
    {
      assert OwnBinding(a, subject, key) == OwnBinding(b, subject, key);
    }
  }

  lemma BindingKeepsView(a: Database, b: Database, subject: Uuid, key: Text, bound: BindingRow)
    requires SameView(a, b, subject)
    ensures SameView(a.(bindings := a.bindings[(subject, key) := bound]),
                     b.(bindings := b.bindings[(subject, key) := bound]), subject)
  {
    var x := a.(bindings := a.bindings[(subject, key) := bound]);
    var y := b.(bindings := b.bindings[(subject, key) := bound]);
    forall id
      ensures OwnTransfer(x, subject, id) == OwnTransfer(y, subject, id)
    {
      assert OwnTransfer(a, subject, id) == OwnTransfer(b, subject, id);
    }
    forall other
      ensures OwnBinding(x, subject, other) == OwnBinding(y, subject, other)
    {
      assert OwnBinding(a, subject, other) == OwnBinding(b, subject, other);
    }
  }

  lemma UpdatesKeepView(
    a: Database, b: Database, subject: Uuid, id: Uuid, row: TransferRow, key: Text, bound: BindingRow)
    requires SameView(a, b, subject) && row.subject == subject
    ensures SameView(Database(a.transfers[id := row], a.bindings[(subject, key) := bound]),
                     Database(b.transfers[id := row], b.bindings[(subject, key) := bound]), subject)
  {
    RowKeepsView(a, b, subject, id, row);
    BindingKeepsView(
      a.(transfers := a.transfers[id := row]), b.(transfers := b.transfers[id := row]), subject, key, bound);
  }

  lemma CreateFromView(a: Database, b: Database, r: CreateRequest, now: Time)
    requires SameView(a, b, r.subject) && r.newId !in a.transfers && r.newId !in b.transfers
    ensures HandleCreate(a, r, now).1 == HandleCreate(b, r, now).1
    ensures SameView(HandleCreate(a, r, now).0, HandleCreate(b, r, now).0, r.subject)
  {
    LiveFromView(a, b, r.subject, r.key, Seconds(now));
    var existing := LiveBinding(a.bindings, r.subject, r.key, Seconds(now));
    if existing.Some? {
      BoundFromView(a, b, existing.value, r.subject, r.key, CreateOperation, TransfersRoute, r.digest, now);
    } else {
      UpdatesKeepView(a, b, r.subject, r.newId, NewRow(r, now), r.key, CreateBinding(r, now));
    }
  }

  lemma AckFromView(a: Database, b: Database, r: AckRequest, now: Time)
    requires SameView(a, b, r.subject)
    ensures HandleAck(a, r, now).1 == HandleAck(b, r, now).1
    ensures SameView(HandleAck(a, r, now).0, HandleAck(b, r, now).0, r.subject)
  {
    LiveFromView(a, b, r.subject, r.key, Seconds(now));
    FoundFromView(a, b, r.subject, r.transferId);
    var existing := LiveBinding(a.bindings, r.subject, r.key, Seconds(now));
    if existing.Some? {
      BoundFromView(
        a, b, existing.value, r.subject, r.key, AcknowledgeOperation, AckRoute(r.transferId), r.digest, now);
    } else if Owns(a, r.subject, r.transferId) {
      var row, target := a.transfers[r.transferId], TargetState(r.disposition);
      UpdatesKeepView(
        a, b, r.subject, r.transferId, Acknowledge(row, target, now), r.key, AckBinding(r, target, now, row.expiresAt));
    }
  }

  lemma CancelFromView(a: Database, b: Database, subject: Uuid, id: Uuid, now: Time)
    requires SameView(a, b, subject)
    ensures HandleCancel(a, subject, id, now).1 == HandleCancel(b, subject, id, now).1
    ensures SameView(HandleCancel(a, subject, id, now).0, HandleCancel(b, subject, id, now).0, subject)
  {
    FoundFromView(a, b, subject, id);
    if Owns(a, subject, id) {
      var row := a.transfers[id];
      var updated := Cancel(row, CancelState(Seconds(now), Seconds(row.expiresAt), row.state), now);
      RowKeepsView(a, b, subject, id, updated);
    }
  }

  /** The events of one subject, in order. */
  function EventsOf(events: seq<Event>, subject: Uuid): seq<Event> {
    if events == [] then []
    else
      EventsOf(events[..|events| - 1], subject)
      + if Actor(events[|events| - 1]) == subject then [events[|events| - 1]] else []
  }

  /** Every create draws an identifier that neither the start nor an earlier event has used. */
  ghost predicate FreshIds(db: Database, events: seq<Event>) {
    events == [] ||
    (&& FreshIds(db, events[..|events| - 1])
     && NewIdFree(db, events[|events| - 1])
     && forall i :: 0 <= i < |events| - 1 && events[i].request.Creating? && events[|events| - 1].request.Creating? ==>
          events[i].request.create.newId != events[|events| - 1].request.create.newId)
  }

  /** Transfers come from the start or from a create. */
  lemma {:induction false} TransfersComeFrom(db: Database, events: seq<Event>, id: Uuid)
    requires id in RunHistory(db, events).transfers
    ensures id in db.transfers
            || exists i :: 0 <= i < |events| && events[i].request.Creating? && events[i].request.create.newId == id
  {
    if events == [] {
    } else {
      var earlier, last := events[..|events| - 1], events[|events| - 1];
      if id in RunHistory(db, earlier).transfers {
        TransfersComeFrom(db, earlier, id);
        if id !in db.transfers {
          var i :| 0 <= i < |earlier| && earlier[i].request.Creating? && earlier[i].request.create.newId == id;
          assert events[i] == earlier[i];
        }
      } else {
        HandleAddsOwnId(RunHistory(db, earlier), last, id);
      }
    }
  }

  lemma HandleAddsOwnId(db: Database, e: Event, id: Uuid)
    requires id in Handle(db, e).0.transfers && id !in db.transfers
    ensures e.request.Creating? && e.request.create.newId == id
  {
  }

  lemma {:induction false} EventsOfMembers(events: seq<Event>, subject: Uuid)
    ensures forall e :: e in EventsOf(events, subject) ==> e in events
  {
    if events == [] {
    } else {
      EventsOfMembers(events[..|events| - 1], subject);
    }
  }

  lemma {:induction false} EventsOfChronological(start: Time, events: seq<Event>, subject: Uuid)
    requires Chronological(start, events)
    ensures Chronological(start, EventsOf(events, subject))
    ensures start <= Clock(start, EventsOf(events, subject)) <= Clock(start, events)
  {
    if events == [] {
    } else {
      var earlier := events[..|events| - 1];
      EventsOfChronological(start, earlier, subject);
      var own := EventsOf(events, subject);
      if Actor(events[|events| - 1]) == subject {
        assert own[..|own| - 1] == EventsOf(earlier, subject) && own[|own| - 1] == events[|events| - 1];
      } else {
        assert own == EventsOf(earlier, subject);
      }
    }
  }

  lemma NextIdFree(db: Database, events: seq<Event>, kept: seq<Event>)
    requires events != [] && FreshIds(db, events)
    requires forall e :: e in kept ==> e in events[..|events| - 1]
    ensures NewIdFree(RunHistory(db, kept), events[|events| - 1])
  {
    var last := events[|events| - 1];
    if last.request.Creating? {
      forall i | 0 <= i < |kept| && kept[i].request.Creating?
        ensures kept[i].request.create.newId != last.request.create.newId
      {
        assert kept[i] in kept;
      }
      if last.request.create.newId in RunHistory(db, kept).transfers {
        TransfersComeFrom(db, kept, last.request.create.newId);
        assert false;
      }
    }
  }

  /** Noninterference: along any history under fresh identifiers a subject owns the same
      transfers and bindings as if nobody else had ever called. */
  lemma {:induction false} OthersDoNotInterfere(db: Database, start: Time, events: seq<Event>, subject: Uuid)
    requires Sound(db, start) && Chronological(start, events) && FreshIds(db, events)
    ensures SameView(RunHistory(db, events), RunHistory(db, EventsOf(events, subject)), subject)
  {
    if events == [] {
    } else {
      var earlier, last := events[..|events| - 1], events[|events| - 1];
      OthersDoNotInterfere(db, start, earlier, subject);
      var own := EventsOf(earlier, subject);
      if Actor(last) == subject {
        var longer := EventsOf(events, subject);
        assert longer[..|longer| - 1] == own;
        OwnAnswerAlone(db, start, events, subject);
      } else {
        OthersLeaveView(RunHistory(db, earlier), last, subject);
        SameViewChains(RunHistory(db, earlier), RunHistory(db, events), RunHistory(db, own), subject);
        assert EventsOf(events, subject) == own;
      }
    }
  }

  /** ... and it is answered the same. */
  lemma OwnAnswerAlone(db: Database, start: Time, events: seq<Event>, subject: Uuid)
    requires Sound(db, start) && Chronological(start, events) && FreshIds(db, events)
    requires events != [] && Actor(events[|events| - 1]) == subject
    requires SameView(RunHistory(db, events[..|events| - 1]),
                      RunHistory(db, EventsOf(events[..|events| - 1], subject)), subject)
    ensures var all, own := events[..|events| - 1], EventsOf(events[..|events| - 1], subject);
      var last := events[|events| - 1];
      && Handle(RunHistory(db, all), last).1 == Handle(RunHistory(db, own), last).1
      && SameView(Handle(RunHistory(db, all), last).0, Handle(RunHistory(db, own), last).0, subject)
  {
    var all, own, last := events[..|events| - 1], EventsOf(events[..|events| - 1], subject), events[|events| - 1];
    EventsOfMembers(all, subject);
    EventsOfChronological(start, all, subject);
    NextIdFree(db, events, all);
    NextIdFree(db, events, own);
    HistoryKeepsSound(db, start, all);
    HistoryKeepsSound(db, start, own);
    SoundLater(RunHistory(db, all), Clock(start, all), last.now);
    SoundLater(RunHistory(db, own), Clock(start, own), last.now);
    OwnViewDecides(RunHistory(db, all), RunHistory(db, own), last);
  }

  /** A subject's last call is answered as if nobody else had ever called. */
  lemma AnswersDoNotDependOnOthers(db: Database, start: Time, events: seq<Event>)
    requires Sound(db, start) && Chronological(start, events) && FreshIds(db, events) && events != []
    ensures var all, last := events[..|events| - 1], events[|events| - 1];
      Handle(RunHistory(db, all), last).1 == Handle(RunHistory(db, EventsOf(all, Actor(last))), last).1
  {
    OthersDoNotInterfere(db, start, events[..|events| - 1], Actor(events[|events| - 1]));
    OwnAnswerAlone(db, start, events, Actor(events[|events| - 1]));
  }
}
