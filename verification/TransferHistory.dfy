/** Serial histories of the transfer handlers under a clock that never runs back. */
module TransferHistory {
  import opened Text
  import opened TransferPolicy
  import opened TransferService

  datatype Request =
    | Creating(create: CreateRequest)
    | Acknowledging(ack: AckRequest)
    | Cancelling(subject: Uuid, transferId: Uuid)

  datatype Event = Event(now: Time, request: Request)

  datatype Reply = Answered(reply: Result<TransferResponse, ApiError>) | Cleared(error: Option<ApiError>)

  function Handle(db: Database, e: Event): (Database, Reply) {
    match e.request
    case Creating(r) => var (next, reply) := HandleCreate(db, r, e.now); (next, Answered(reply))
    case Acknowledging(r) => var (next, reply) := HandleAck(db, r, e.now); (next, Answered(reply))
    case Cancelling(subject, id) => var (next, error) := HandleCancel(db, subject, id, e.now); (next, Cleared(error))
  }

  const EMPTY_DATABASE := Database(map[], map[])

  function RunHistory(db: Database, events: seq<Event>): Database {
    if events == [] then db
    else Handle(RunHistory(db, events[..|events| - 1]), events[|events| - 1]).0
  }

  /** The clock after a history that started at `start`. */
  function Clock(start: Time, events: seq<Event>): Time {
    if events == [] then start else events[|events| - 1].now
  }

  ghost predicate Chronological(start: Time, events: seq<Event>) {
    events == [] ||
    (Chronological(start, events[..|events| - 1]) && Clock(start, events[..|events| - 1]) <= events[|events| - 1].now)
  }

  ghost predicate RowSound(id: Uuid, row: TransferRow, clock: Time) {
    && row.id == id && SqlTransfer(row)
    && (row.state == Expired ==> Seconds(row.expiresAt) <= Seconds(clock))
  }

  /** A binding points at a transfer of its subject, does not outlive it, and an
      acknowledge binding carries the transfer's present, terminal state. */
  ghost predicate BindingSound(db: Database, key: (Uuid, Text), b: BindingRow) {
    && b.subject == key.0 && b.key == key.1 && b.createdAt < b.expiresAt
    && b.transferId.Some? && b.transferId.value in db.transfers
    && (var row := db.transfers[b.transferId.value];
        && row.subject == b.subject && b.expiresAt <= row.expiresAt
        && match b.operation
           case CreateOperation => b.route == TransfersRoute && b.responseState == Some(Pending)
           case AcknowledgeOperation =>
             && b.route == AckRoute(b.transferId.value) && b.responseState == Some(row.state)
             && (row.state == Acknowledged || row.state == Ignored || row.state == Rejected))
  }

  ghost predicate Sound(db: Database, clock: Time) {
    && (forall id :: id in db.transfers ==> RowSound(id, db.transfers[id], clock))
    && (forall key :: key in db.bindings ==> BindingSound(db, key, db.bindings[key]))
  }

  /** A row only ever changes by leaving the pending state; identity and times of birth and
      expiry are fixed. */
  ghost predicate Descends(later: TransferRow, earlier: TransferRow) {
    && (IsTerminal(earlier.state) ==> later == earlier)
    && later.id == earlier.id && later.subject == earlier.subject && later.content == earlier.content
    && later.expiresAt == earlier.expiresAt && later.createdAt == earlier.createdAt
  }

  ghost predicate TransfersDescend(later: Database, earlier: Database) {
    forall id :: id in earlier.transfers ==>
      id in later.transfers && Descends(later.transfers[id], earlier.transfers[id])
  }

  lemma SoundLater(db: Database, clock: Time, later: Time)
    requires Sound(db, clock) && clock <= later
    ensures Sound(db, later)
  {
  }

  lemma AddTransferKeepsSound(db: Database, row: TransferRow, now: Time)
    requires Sound(db, now) && row.id !in db.transfers && RowSound(row.id, row, now)
    ensures Sound(db.(transfers := db.transfers[row.id := row]), now)
  {
    var next := db.(transfers := db.transfers[row.id := row]);
    forall key | key in next.bindings
      ensures BindingSound(next, key, next.bindings[key])
    {
      assert BindingSound(db, key, db.bindings[key]);
    }
  }

  lemma UpdateTransferKeepsSound(db: Database, id: Uuid, row: TransferRow, now: Time)
    requires Sound(db, now) && id in db.transfers && RowSound(id, row, now) && Descends(row, db.transfers[id])
    ensures Sound(db.(transfers := db.transfers[id := row]), now)
  {
    var next := db.(transfers := db.transfers[id := row]);
    forall key | key in next.bindings
      ensures BindingSound(next, key, next.bindings[key])
    {
      assert BindingSound(db, key, db.bindings[key]);
    }
  }

  lemma BindKeepsSound(db: Database, key: (Uuid, Text), b: BindingRow, now: Time)
    requires Sound(db, now) && BindingSound(db, key, b)
    ensures Sound(db.(bindings := db.bindings[key := b]), now)
  {
    var next := db.(bindings := db.bindings[key := b]);
    forall other | other in next.bindings
      ensures BindingSound(next, other, next.bindings[other])
    {
      assert other != key ==> BindingSound(db, other, db.bindings[other]);
    }
  }

  lemma CreateKeepsSound(db: Database, r: CreateRequest, now: Time)
    requires Sound(db, now)
    ensures Sound(HandleCreate(db, r, now).0, now) && TransfersDescend(HandleCreate(db, r, now).0, db)
  {
    var row := NewRow(r, now);
    if HandleCreate(db, r, now).0 != db {
      AddTransferKeepsSound(db, row, now);
      BindKeepsSound(db.(transfers := db.transfers[r.newId := row]), (r.subject, r.key), CreateBinding(r, now), now);
    }
  }

  lemma AckRowSound(row: TransferRow, r: AckRequest, target: TransferState, now: Time)
    requires RowSound(r.transferId, row, now)
    requires AcknowledgeState(Seconds(now), Seconds(row.expiresAt), row.state, r.disposition) == Success(target)
    ensures RowSound(r.transferId, Acknowledge(row, target, now), now)
    ensures Descends(Acknowledge(row, target, now), row)
    ensures Acknowledge(row, target, now).state == target == TargetState(r.disposition)
  {
  }

  lemma AcknowledgedSound(db: Database, r: AckRequest, target: TransferState, now: Time)
    requires Sound(db, now) && r.transferId in db.transfers && db.transfers[r.transferId].subject == r.subject
    requires var row := db.transfers[r.transferId];
      && AcknowledgeState(Seconds(now), Seconds(row.expiresAt), row.state, r.disposition) == Success(target)
      && SqlBinding(AckBinding(r, target, now, row.expiresAt))
    ensures var row := db.transfers[r.transferId];
      Sound(Database(db.transfers[r.transferId := Acknowledge(row, target, now)],
                     db.bindings[(r.subject, r.key) := AckBinding(r, target, now, row.expiresAt)]), now)
  {
    var row := db.transfers[r.transferId];
    var updated := db.(transfers := db.transfers[r.transferId := Acknowledge(row, target, now)]);
    var b := AckBinding(r, target, now, row.expiresAt);
    AckRowSound(row, r, target, now);
    UpdateTransferKeepsSound(db, r.transferId, Acknowledge(row, target, now), now);
    assert BindingSound(updated, (r.subject, r.key), b);
    BindKeepsSound(updated, (r.subject, r.key), b, now);
  }

  lemma AckUnboundKeepsSound(db: Database, r: AckRequest, now: Time)
    requires Sound(db, now)
    ensures Sound(AckUnbound(db, r, now).0, now) && TransfersDescend(AckUnbound(db, r, now).0, db)
  {
    if AckUnbound(db, r, now).1.Success? {
      var row := db.transfers[r.transferId];
      var target := AcknowledgeState(Seconds(now), Seconds(row.expiresAt), row.state, r.disposition).value;
      assert RowSound(r.transferId, row, now);
      AckRowSound(row, r, target, now);
      AcknowledgedSound(db, r, target, now);
    } else {
      assert AckUnbound(db, r, now).0 == db;
    }
  }

  lemma AckKeepsSound(db: Database, r: AckRequest, now: Time)
    requires Sound(db, now)
    ensures Sound(HandleAck(db, r, now).0, now) && TransfersDescend(HandleAck(db, r, now).0, db)
  {
    AckUnboundKeepsSound(db, r, now);
  }

  lemma CancelRowSound(row: TransferRow, id: Uuid, now: Time)
    requires RowSound(id, row, now)
    ensures var updated := Cancel(row, CancelState(Seconds(now), Seconds(row.expiresAt), row.state), now);
      RowSound(id, updated, now) && Descends(updated, row)
  {
  }

  lemma CancelKeepsSound(db: Database, subject: Uuid, id: Uuid, now: Time)
    requires Sound(db, now)
    ensures Sound(HandleCancel(db, subject, id, now).0, now)
    ensures TransfersDescend(HandleCancel(db, subject, id, now).0, db)
  {
    if FindOwned(db.transfers, subject, id).Some? {
      var row := db.transfers[id];
      CancelRowSound(row, id, now);
      UpdateTransferKeepsSound(
        db, id, Cancel(row, CancelState(Seconds(now), Seconds(row.expiresAt), row.state), now), now);
    }
  }

  lemma HandleKeepsSound(db: Database, e: Event)
    requires Sound(db, e.now)
    ensures Sound(Handle(db, e).0, e.now) && TransfersDescend(Handle(db, e).0, db)
  {
    match e.request
    case Creating(r) => CreateKeepsSound(db, r, e.now);
    case Acknowledging(r) => AckKeepsSound(db, r, e.now);
    case Cancelling(subject, id) => CancelKeepsSound(db, subject, id, e.now);
  }

  /** Along every chronological history soundness persists and rows only descend; in
      particular a terminal transfer keeps its whole row forever. */
  lemma {:induction false} HistoryKeepsSound(db: Database, start: Time, events: seq<Event>)
    requires Sound(db, start) && Chronological(start, events)
    ensures Sound(RunHistory(db, events), Clock(start, events))
    ensures start <= Clock(start, events)
    ensures TransfersDescend(RunHistory(db, events), db)
  {
    if events == [] {
    } else {
      var earlier, last := events[..|events| - 1], events[|events| - 1];
      HistoryKeepsSound(db, start, earlier);
      var mid := RunHistory(db, earlier);
      SoundLater(mid, Clock(start, earlier), last.now);
      HandleKeepsSound(mid, last);
      var end := RunHistory(db, events);
      forall id | id in db.transfers
        ensures id in end.transfers && Descends(end.transfers[id], db.transfers[id])
      {
        assert Descends(mid.transfers[id], db.transfers[id]);
        assert Descends(end.transfers[id], mid.transfers[id]);
      }
    }
  }

  /** Binding invariants: every database reached from the empty one is sound. */
  lemma {:induction false} ReachableSound(start: Time, events: seq<Event>)
    requires Chronological(start, events)
    ensures Sound(RunHistory(EMPTY_DATABASE, events), Clock(start, events))
  {
    HistoryKeepsSound(EMPTY_DATABASE, start, events);
  }

  /** The reply came from a branch that a live binding should rule out. */
  ghost predicate ImpossibleBranch(reply: Reply) {
    && reply.Answered? && reply.reply.Failure? && reply.reply.error.Unavailable?
    && reply.reply.error.cause in {NewAfterLiveLookup, BindingWithoutTransfer, TransferMissing}
  }

  lemma BoundAnswer(db: Database, b: BindingRow, subject: Uuid, key: Text, operation: IdempotentOperation,
                    route: Route, digest: Text, now: Time)
    requires BindingSound(db, (subject, key), b) && Seconds(b.expiresAt) > Seconds(now)
    ensures b.transferId.Some? && b.transferId.value in db.transfers
    ensures var answer := AnswerBound(db, b, subject, key, operation, route, digest, now);
      if 0 <= Seconds(now) && IsIdempotencyKey(key) && Forms.IsSha256Base64Url(digest) then
        if b.operation == operation && b.route == route && b.digest == digest then
          answer == Success(Respond(db.transfers[b.transferId.value], Seconds(now)))
        else answer == Failure(Conflicting)
      else answer == Failure(BadRequest)
  {
  }

  /** In a sound database no request is answered from an impossible branch. */
  lemma LiveBindingAnswers(db: Database, e: Event)
    requires Sound(db, e.now)
    ensures !ImpossibleBranch(Handle(db, e).1)
  {
    match e.request
    case Creating(r) =>
      var existing := LiveBinding(db.bindings, r.subject, r.key, Seconds(e.now));
      if existing.Some? {
        assert BindingSound(db, (r.subject, r.key), existing.value);
        BoundAnswer(db, existing.value, r.subject, r.key, CreateOperation, TransfersRoute, r.digest, e.now);
      }
    case Acknowledging(r) =>
      var existing := LiveBinding(db.bindings, r.subject, r.key, Seconds(e.now));
      if existing.Some? {
        assert BindingSound(db, (r.subject, r.key), existing.value);
        BoundAnswer(
          db, existing.value, r.subject, r.key, AcknowledgeOperation, AckRoute(r.transferId), r.digest, e.now);
      }
    case Cancelling(subject, id) =>
  }

  /** A create whose key is bound changes nothing: it conflicts, or is answered with the bound
      transfer, never shown as expired, exactly when that binding is a create's with its digest. */
  lemma BoundCreateAnswers(db: Database, r: CreateRequest, now: Time)
    requires Sound(db, now) && CreateFault(r, now) == None
    requires LiveBinding(db.bindings, r.subject, r.key, Seconds(now)).Some?
    ensures var b := db.bindings[(r.subject, r.key)];
      && HandleCreate(db, r, now).0 == db
      && match HandleCreate(db, r, now).1
         case Success(response) =>
           && b.operation == CreateOperation && b.digest == r.digest
           && Some(response.transferId) == b.transferId && response.state != Expired
         case Failure(error) =>
           error == Conflicting && !(b.operation == CreateOperation && b.digest == r.digest)
  {
    var b := db.bindings[(r.subject, r.key)];
    assert BindingSound(db, (r.subject, r.key), b);
    BoundAnswer(db, b, r.subject, r.key, CreateOperation, TransfersRoute, r.digest, now);
    assert RowSound(b.transferId.value, db.transfers[b.transferId.value], now);
  }

  /** Terminal states are final: whatever follows, a terminal row never changes again. */
  lemma {:induction false} TerminalForever(start: Time, before: seq<Event>, after: seq<Event>, id: Uuid)
    requires Chronological(start, before)
    requires Chronological(Clock(start, before), after)
    requires id in RunHistory(EMPTY_DATABASE, before).transfers
    requires IsTerminal(RunHistory(EMPTY_DATABASE, before).transfers[id].state)
    ensures var db := RunHistory(EMPTY_DATABASE, before);
      var later := RunHistory(db, after);
      id in later.transfers && later.transfers[id] == db.transfers[id]
  {
    ReachableSound(start, before);
    HistoryKeepsSound(RunHistory(EMPTY_DATABASE, before), Clock(start, before), after);
  }

  lemma HandleKeepsLiveBinding(db: Database, e: Event, key: (Uuid, Text))
    requires key in db.bindings && Seconds(e.now) < Seconds(db.bindings[key].expiresAt)
    ensures key in Handle(db, e).0.bindings && Handle(db, e).0.bindings[key] == db.bindings[key]
  {
  }

  /** A binding is kept unchanged by every history within its life. */
  lemma {:induction false} LiveBindingKept(db: Database, start: Time, events: seq<Event>, key: (Uuid, Text))
    requires key in db.bindings && Chronological(start, events)
    requires Seconds(Clock(start, events)) < Seconds(db.bindings[key].expiresAt)
    ensures key in RunHistory(db, events).bindings && RunHistory(db, events).bindings[key] == db.bindings[key]
  {
    if events == [] {
    } else {
      assert Clock(start, events[..|events| - 1]) <= Clock(start, events);
      LiveBindingKept(db, start, events[..|events| - 1], key);
      HandleKeepsLiveBinding(RunHistory(db, events[..|events| - 1]), events[|events| - 1], key);
    }
  }

  /** Acknowledgement replay: after a successful acknowledgement and any later history, the
      same request within the life of its binding is answered with the very same response,
      state and timestamps included, and changes nothing. */
  lemma {:induction false} AcknowledgementReplays(
    db: Database, first: Time, r: AckRequest, between: seq<Event>, again: Time)
    requires Sound(db, first) && HandleAck(db, r, first).1.Success?
    requires Chronological(first, between) && Clock(first, between) <= again
    requires (r.subject, r.key) in HandleAck(db, r, first).0.bindings
    requires Seconds(again) < Seconds(HandleAck(db, r, first).0.bindings[(r.subject, r.key)].expiresAt)
    ensures var later := RunHistory(HandleAck(db, r, first).0, between);
      HandleAck(later, r, again) == (later, HandleAck(db, r, first).1)
  {
    var after := HandleAck(db, r, first).0;
    var key := (r.subject, r.key);
    AckKeepsSound(db, r, first);
    HistoryKeepsSound(after, first, between);
    var later := RunHistory(after, between);
    SoundLater(later, Clock(first, between), again);
    LiveBindingKept(after, first, between, key);
    AcknowledgedBinding(db, r, first);
    ValidAckStaysValid(r, first, again);
    RepeatedAck(later, r, after.bindings[key], again);
    assert Descends(later.transfers[r.transferId], after.transfers[r.transferId]);
  }

  lemma ValidAckStaysValid(r: AckRequest, first: Time, again: Time)
    requires AckFault(r, first) == None && first <= again
    ensures AckFault(r, again) == None
  {
    assert Seconds(first) <= Seconds(again);
  }

  lemma RepeatedAck(db: Database, r: AckRequest, b: BindingRow, now: Time)
    requires Sound(db, now) && LiveBinding(db.bindings, r.subject, r.key, Seconds(now)) == Some(b)
    requires b.operation == AcknowledgeOperation && b.route == AckRoute(r.transferId) && b.digest == r.digest
    requires b.transferId == Some(r.transferId) && AckFault(r, now) == None
    ensures r.transferId in db.transfers
    ensures HandleAck(db, r, now) == (db, Success(Respond(db.transfers[r.transferId], Seconds(now))))
  {
    assert BindingSound(db, (r.subject, r.key), b);
    BoundAnswer(db, b, r.subject, r.key, AcknowledgeOperation, AckRoute(r.transferId), r.digest, now);
  }

  lemma AcknowledgedBinding(db: Database, r: AckRequest, now: Time)
    requires Sound(db, now) && HandleAck(db, r, now).1.Success?
    ensures AckFault(r, now) == None
    ensures var (after, reply) := HandleAck(db, r, now);
      && (r.subject, r.key) in after.bindings
      && (var b := after.bindings[(r.subject, r.key)];
          && b.operation == AcknowledgeOperation && b.route == AckRoute(r.transferId) && b.digest == r.digest
          && b.transferId == Some(r.transferId))
      && r.transferId in after.transfers
      && IsTerminal(after.transfers[r.transferId].state)
      && reply == Success(Respond(after.transfers[r.transferId], Seconds(now)))
  {
    var existing := LiveBinding(db.bindings, r.subject, r.key, Seconds(now));
    if existing.Some? {
      assert BindingSound(db, (r.subject, r.key), existing.value);
      BoundAnswer(db, existing.value, r.subject, r.key, AcknowledgeOperation, AckRoute(r.transferId), r.digest, now);
    }
  }

  /** Validation of a request that was once valid fails later for its retention alone. */
  lemma ValidAgainExactly(r: CreateRequest, first: Time, again: Time, newId: Uuid)
    requires CreateFault(r, first) == None && Seconds(first) <= Seconds(again)
    requires Seconds(again) < Seconds(r.expiresAt)
    ensures CreateFault(r.(newId := newId), again) ==
      if Seconds(r.expiresAt) - Seconds(again) >= MIN_RETENTION then None else Some(InvalidRetention)
  {
  }

  /** Create replay: within the life of the binding the same request, whatever fresh
      identifier it would have used, adds nothing. It is answered with the same transfer,
      never shown as expired, if and only if a minute of retention remains, because
      validation precedes the lookup; otherwise it is refused as a bad request. */
  lemma {:induction false} CreateReplays(
    db: Database, first: Time, r: CreateRequest, between: seq<Event>, again: Time, newId: Uuid)
    requires Sound(db, first) && HandleCreate(db, r, first).1.Success?
    requires Chronological(first, between) && Clock(first, between) <= again
    requires Seconds(again) < Seconds(r.expiresAt)
    requires (r.subject, r.key) in HandleCreate(db, r, first).0.bindings
    requires Seconds(again) < Seconds(HandleCreate(db, r, first).0.bindings[(r.subject, r.key)].expiresAt)
    ensures var later := RunHistory(HandleCreate(db, r, first).0, between);
      var (next, reply) := HandleCreate(later, r.(newId := newId), again);
      && next == later
      && if Seconds(r.expiresAt) - Seconds(again) >= MIN_RETENTION
         then reply.Success? && reply.value.state != Expired
              && reply.value.transferId == HandleCreate(db, r, first).1.value.transferId
         else reply == Failure(BadRequest)
  {
    var after := HandleCreate(db, r, first).0;
    var key := (r.subject, r.key);
    CreateKeepsSound(db, r, first);
    HistoryKeepsSound(after, first, between);
    var later := RunHistory(after, between);
    SoundLater(later, Clock(first, between), again);
    LiveBindingKept(after, first, between, key);
    CreatedBinding(db, r, first);
    assert Seconds(first) <= Seconds(again);
    ValidAgainExactly(r, first, again, newId);
    RepeatedCreate(later, r.(newId := newId), after.bindings[key], again);
    assert BindingSound(after, key, after.bindings[key]);
    var id := after.bindings[key].transferId.value;
    assert Descends(later.transfers[id], after.transfers[id]);
  }

  lemma RepeatedCreate(db: Database, r: CreateRequest, b: BindingRow, now: Time)
    requires Sound(db, now) && LiveBinding(db.bindings, r.subject, r.key, Seconds(now)) == Some(b)
    requires b.operation == CreateOperation && b.route == TransfersRoute && b.digest == r.digest
    requires CreateFault(r, now) == None || CreateFault(r, now) == Some(InvalidRetention)
    ensures HandleCreate(db, r, now).0 == db
    ensures var reply := HandleCreate(db, r, now).1;
      if CreateFault(r, now) == None
      then reply.Success? && reply.value.state != Expired && Some(reply.value.transferId) == b.transferId
      else reply == Failure(BadRequest)
  {
    assert BindingSound(db, (r.subject, r.key), b);
    BoundAnswer(db, b, r.subject, r.key, CreateOperation, TransfersRoute, r.digest, now);
    assert RowSound(b.transferId.value, db.transfers[b.transferId.value], now);
  }

  lemma CreatedBinding(db: Database, r: CreateRequest, now: Time)
    requires Sound(db, now) && HandleCreate(db, r, now).1.Success?
    ensures CreateFault(r, now) == None
    ensures var (after, reply) := HandleCreate(db, r, now);
      && (r.subject, r.key) in after.bindings
      && (var b := after.bindings[(r.subject, r.key)];
          && b.operation == CreateOperation && b.route == TransfersRoute && b.digest == r.digest
          && b.transferId.Some? && b.transferId.value in after.transfers
          && reply.value == Respond(after.transfers[b.transferId.value], Seconds(now))
          && after.transfers[b.transferId.value].id == b.transferId.value)
  {
    var existing := LiveBinding(db.bindings, r.subject, r.key, Seconds(now));
    if existing.Some? {
      assert BindingSound(db, (r.subject, r.key), existing.value);
      BoundAnswer(db, existing.value, r.subject, r.key, CreateOperation, TransfersRoute, r.digest, now);
      assert RowSound(existing.value.transferId.value, db.transfers[existing.value.transferId.value], now);
    }
  }

  /** Cancelling an owned transfer always succeeds and closes it for good: it becomes expired
      or cancelled by whether its expiry second has come, a terminal one keeps its row, and
      repeating the call at any later time changes nothing. */
  lemma CancelClosesOnce(db: Database, subject: Uuid, id: Uuid, first: Time, again: Time)
    requires Sound(db, first) && id in db.transfers && db.transfers[id].subject == subject
    ensures var (after, error) := HandleCancel(db, subject, id, first);
      && error == None && id in after.transfers
      && (if IsTerminal(db.transfers[id].state) then after == db
          else after.transfers[id].state ==
                 if Seconds(db.transfers[id].expiresAt) <= Seconds(first) then Expired else Cancelled)
      && HandleCancel(after, subject, id, again) == (after, None)
  {
    var row := db.transfers[id];
    assert RowSound(id, row, first);
    CancelRowSound(row, id, first);
    var after := HandleCancel(db, subject, id, first).0;
    assert IsTerminal(row.state) ==> after.transfers == db.transfers;
    assert after.transfers[id := after.transfers[id]] == after.transfers;
  }
}
