/** What each handler answers and leaves behind, in the fields of the rows. */
module TransferAnswers {
  import opened Text
  import opened Forms
  import opened TransferPolicy
  import opened TransferService
  import opened TransferStorage
  import opened TransferHistory
  import opened TokenAnswers

  /** Seconds are whole and rounded down, before the epoch too. */
  lemma SecondsExactly(t: Time)
    ensures Seconds(t) * 1_000_000 <= t < (Seconds(t) + 1) * 1_000_000
  {
  }

  /** What the constraints of the transfers table require of a row. */
  lemma RowChecksMean(row: TransferRow)
    ensures SqlTimestamps(row) <==>
      && (row.acknowledgedAt.Some? <==> row.state in {Acknowledged, Ignored, Rejected})
      && (row.cancelledAt.Some? <==> row.state == Cancelled)
    ensures SqlContent(row.content) <==>
      && row.content.contractVersion == 1 && row.content.contentLength <= 16 * 1024 * 1024
      && IsPortableIdentifier(row.content.sourceItemId) && IsMediaType(row.content.mediaType)
      && StorableEnvelope(row.content.payload)
      && (row.content.encryptedMetadata.Some? ==> StorableEnvelope(row.content.encryptedMetadata.value))
  {
    MediaTypeFormsMeet(row.content.mediaType);
  }

  predicate StorableEnvelope(e: CipherEnvelope) {
    && 16 <= CharLength(e.nonce) <= 128 && 0 < |e.ciphertext| <= 22_369_624 && IsPortableIdentifier(e.keyId)
    && (e.associatedDataHash.Some? ==> |e.associatedDataHash.value| <= 128)
  }

  /** A binding lives until its transfer expires, a day at most. */
  predicate LivesADay(b: BindingRow, now: Time, transferExpiresAt: Time) {
    && b.createdAt == now
    && b.expiresAt == if transferExpiresAt <= now + 86_400_000_000 then transferExpiresAt else now + 86_400_000_000
  }

  /** A create that is not valid is refused before anything is looked up: as an incompatible
      version, or as a bad request. */
  lemma InvalidCreateAnswers(db: Database, r: CreateRequest, now: Time)
    ensures var valid := ValidateCreate(r.content, Seconds(r.expiresAt), Seconds(now)) == None;
      && (CreateFault(r, now) == None <==>
          valid && now >= 0 && KeyForm(r.key) && IsSha256Base64Url(r.digest))
      && (CreateFault(r, now).Some? ==>
            HandleCreate(db, r, now) ==
              (db, Failure(if now < 0 || r.content.contractVersion != 1 then IncompatibleVersion else BadRequest)))
  {
    CreateValidationAnswers(r.content, Seconds(r.expiresAt), Seconds(now));
  }

  /** A valid create under a free key either stores one transfer and one binding with exactly
      these fields, or, when a constraint or the identifier stands in the way, nothing. */
  lemma FreshCreateAnswers(db: Database, r: CreateRequest, now: Time)
    requires CreateFault(r, now) == None && LiveBinding(db.bindings, r.subject, r.key, Seconds(now)) == None
    ensures match HandleCreate(db, r, now)
      case (after, Failure(error)) => after == db && error == Unavailable(TransferRefused)
      case (after, Success(reply)) =>
        && reply == TransferResponse(r.newId, r.content, Pending, r.expiresAt, now, now, None)
        && after.transfers == db.transfers[r.newId :=
             TransferRow(r.newId, r.subject, r.content, Pending, r.expiresAt, now, now, None, None)]
        && (r.subject, r.key) in after.bindings
        && var b := after.bindings[(r.subject, r.key)];
        && after.bindings == db.bindings[(r.subject, r.key) := b]
        && b.subject == r.subject && b.key == r.key && b.operation == CreateOperation && b.route == TransfersRoute
        && b.digest == r.digest && b.transferId == Some(r.newId) && b.responseState == Some(Pending)
        && LivesADay(b, now, r.expiresAt)
  {
    CreateSucceedsExactly(db, r, now);
    assert Seconds(r.expiresAt) >= Seconds(now) + 60;
  }

  /** An acknowledgement that is not valid is a bad request, whatever the tables hold. */
  lemma InvalidAckAnswers(db: Database, r: AckRequest, now: Time)
    ensures AckFault(r, now) == None <==>
      && r.contractVersion == 1 && KeyForm(r.clientReceiptId)
      && now >= 0 && KeyForm(r.key) && IsSha256Base64Url(r.digest)
    ensures AckFault(r, now).Some? ==> HandleAck(db, r, now) == (db, Failure(BadRequest))
  {
  }

  /** The row once the acknowledgement is in: settled at this instant, or as it was. */
  function Settled(row: TransferRow, r: AckRequest, now: Time): TransferRow {
    if row.state != Pending then row
    else
      TransferRow(row.id, row.subject, row.content, Asked(r.disposition), row.expiresAt, row.createdAt, now,
                  Some(now), None)
  }

  /** A valid acknowledgement of an owned transfer under a free key, case by case: a pending
      transfer is settled before its expiry second and one already in the requested state is
      left as it is, each with a new binding; the latter is unavailable from its expiry on,
      and everything else conflicts. Failures change nothing. */
  lemma FreshAckAnswers(db: Database, r: AckRequest, now: Time)
    requires AckFault(r, now) == None && LiveBinding(db.bindings, r.subject, r.key, Seconds(now)) == None
    requires r.transferId in db.transfers && db.transfers[r.transferId].subject == r.subject
    requires SqlTransfer(db.transfers[r.transferId])
    ensures var row := db.transfers[r.transferId];
      match HandleAck(db, r, now)
      case (after, Failure(error)) =>
        && after == db
        && (if row.state == Asked(r.disposition) then row.expiresAt <= now && error == Unavailable(BindingRefused)
            else error == Conflicting && (row.state != Pending || Seconds(row.expiresAt) <= Seconds(now)))
      case (after, Success(reply)) =>
        && ((row.state == Pending && Seconds(now) < Seconds(row.expiresAt))
            || (row.state == Asked(r.disposition) && now < row.expiresAt))
        && AckRowStored(db, after, r, now) && AckBindingStored(db, after, r, now)
        && reply == TransferResponse(
             row.id, row.content, Asked(r.disposition), row.expiresAt, row.createdAt,
             Settled(row, r, now).updatedAt, Settled(row, r, now).acknowledgedAt)
  {
    AcknowledgeSucceedsExactly(db, r, now);
    assert Asked(r.disposition) == TargetState(r.disposition);
  }

  ghost predicate AckRowStored(db: Database, after: Database, r: AckRequest, now: Time) {
    r.transferId in db.transfers
    && after.transfers == db.transfers[r.transferId := Settled(db.transfers[r.transferId], r, now)]
  }

  ghost predicate AckBindingStored(db: Database, after: Database, r: AckRequest, now: Time) {
    && r.transferId in db.transfers && (r.subject, r.key) in after.bindings
    && var b := after.bindings[(r.subject, r.key)];
    && after.bindings == db.bindings[(r.subject, r.key) := b]
    && b.subject == r.subject && b.key == r.key && b.operation == AcknowledgeOperation
    && b.route == AckRoute(r.transferId) && b.digest == r.digest && b.transferId == Some(r.transferId)
    && b.responseState == Some(Asked(r.disposition)) && LivesADay(b, now, db.transfers[r.transferId].expiresAt)
  }

  /** Cancelling an owned transfer: a pending one becomes expired from its expiry second on
      and cancelled before it, with exactly these times; any other stays as it is. */
  lemma CancelAnswers(db: Database, subject: Uuid, id: Uuid, now: Time)
    requires id in db.transfers && db.transfers[id].subject == subject && SqlTransfer(db.transfers[id])
    ensures var (after, error) := HandleCancel(db, subject, id, now);
      var row := db.transfers[id];
      && error == None && after.bindings == db.bindings
      && after.transfers == db.transfers[id :=
           if row.state != Pending then row
           else if Seconds(row.expiresAt) <= Seconds(now) then
             TransferRow(row.id, subject, row.content, Expired, row.expiresAt, row.createdAt, now, None, None)
           else
             TransferRow(row.id, subject, row.content, Cancelled, row.expiresAt, row.createdAt, now, None, Some(now))]
  {
  }

  /** The times of a row, told by its state. */
  ghost predicate TimesTell(row: TransferRow, clock: Time) {
    && row.createdAt <= row.updatedAt <= clock && row.createdAt < row.expiresAt <= row.createdAt + 30 * 86_400_000_000
    && (row.state == Pending ==> row.updatedAt == row.createdAt)
    && row.acknowledgedAt ==
         (if row.state in {Acknowledged, Ignored, Rejected} then Some(row.updatedAt) else None)
    && row.cancelledAt == (if row.state == Cancelled then Some(row.updatedAt) else None)
    && (row.state == Expired ==> Seconds(row.expiresAt) <= Seconds(row.updatedAt))
    && (row.acknowledgedAt.Some? || row.cancelledAt.Some? ==> Seconds(row.updatedAt) < Seconds(row.expiresAt))
  }

  ghost predicate AllTimesTell(db: Database, clock: Time) {
    forall id :: id in db.transfers ==> TimesTell(db.transfers[id], clock)
  }

  lemma HandleKeepsTimes(db: Database, e: Event)
    requires AllTimesTell(db, e.now)
    ensures AllTimesTell(Handle(db, e).0, e.now)
  {
    match e.request
    case Creating(r) => CreateKeepsTimes(db, r, e.now);
    case Acknowledging(r) => AckKeepsTimes(db, r, e.now);
    case Cancelling(subject, id) => CancelKeepsTimes(db, subject, id, e.now);
  }

  lemma CreateKeepsTimes(db: Database, r: CreateRequest, now: Time)
    requires AllTimesTell(db, now)
    ensures AllTimesTell(HandleCreate(db, r, now).0, now)
  {
    assert SqlTransfer(NewRow(r, now)) ==> TimesTell(NewRow(r, now), now);
  }

  lemma AckKeepsTimes(db: Database, r: AckRequest, now: Time)
    requires AllTimesTell(db, now)
    ensures AllTimesTell(HandleAck(db, r, now).0, now)
  {
    if r.transferId in db.transfers {
      assert TimesTell(db.transfers[r.transferId], now);
    }
  }

  lemma CancelKeepsTimes(db: Database, subject: Uuid, id: Uuid, now: Time)
    requires AllTimesTell(db, now)
    ensures AllTimesTell(HandleCancel(db, subject, id, now).0, now)
  {
    if id in db.transfers {
      assert TimesTell(db.transfers[id], now);
    }
  }

  /** In every reachable database the times of a row tell its story: updated once, when it
      was settled, and settled before its expiry second unless it was found expired. */
  lemma {:induction false} ReachableTimes(start: Time, events: seq<Event>)
    requires Chronological(start, events)
    ensures AllTimesTell(RunHistory(EMPTY_DATABASE, events), Clock(start, events))
  {
    if events == [] {
    } else {
      var earlier, last := events[..|events| - 1], events[|events| - 1];
      ReachableTimes(start, earlier);
      var db := RunHistory(EMPTY_DATABASE, earlier);
      forall id | id in db.transfers
        ensures TimesTell(db.transfers[id], last.now)
      {
        assert TimesTell(db.transfers[id], Clock(start, earlier));
      }
      HandleKeepsTimes(db, last);
    }
  }
}
