/** The transfer handlers over their two tables. Each handler is one transaction: the
    class performs its statements in order and restores the tables when it fails. */
module TransferService {
  import opened Text
  import opened Forms
  import opened TransferPolicy

  const DAY: int := 24 * 60 * 60 * SECOND

  /** `timestamp()`: whole seconds, rounded down. */
  function Seconds(t: Time): int { t / SECOND }

  datatype TransferRow = TransferRow(
    id: Uuid, subject: Uuid, content: TransferContent, state: TransferState,
    expiresAt: Time, createdAt: Time, updatedAt: Time,
    acknowledgedAt: Option<Time>, cancelledAt: Option<Time>)

  datatype BindingRow = BindingRow(
    subject: Uuid, key: Text, operation: IdempotentOperation, route: Route, digest: Text,
    transferId: Option<Uuid>, responseState: Option<TransferState>, createdAt: Time, expiresAt: Time)

  /** Bindings are keyed as the table's UNIQUE constraint keys them. */
  datatype Database = Database(transfers: map<Uuid, TransferRow>, bindings: map<(Uuid, Text), BindingRow>)

  datatype TransferResponse = TransferResponse(
    transferId: Uuid, content: TransferContent, state: TransferState,
    expiresAt: Time, createdAt: Time, updatedAt: Time, acknowledgedAt: Option<Time>)

  /** Why a request is answered `temporarily_unavailable`; the wire carries no cause. */
  datatype Cause = NewAfterLiveLookup | BindingWithoutTransfer | TransferMissing | TransferRefused | BindingRefused

  datatype ApiError = BadRequest | Unauthorized | Forbidden | NoSuchTransfer | Conflicting
    | IncompatibleVersion | Unavailable(cause: Cause)

  function MapPolicyError(e: PolicyError): ApiError {
    match e
    case IncompatibleContract => IncompatibleVersion
    case InvalidTransfer | InvalidCipherEnvelope | InvalidRetention | InvalidAcknowledgement
      | InvalidIdempotency | InvalidCursor => BadRequest
    case InvalidTransition | TransferExpired | IdempotencyConflict => Conflicting
    case NotFound => NoSuchTransfer
    case WrongScope | AssuranceRequired => Forbidden
    case _ => Unauthorized
  }

  predicate OnlySlashAt(t: Text, k: nat)
    requires k < |t|
  {
    t[k] == SLASH && forall i :: 0 <= i < |t| && i != k ==> IsMediaByte(t[i])
  }

  /** The column pattern `^[A-Za-z0-9.+-]+/[A-Za-z0-9.+-]+$`. */
  predicate SqlMediaType(t: Text) {
    3 <= |t| <= 128 && exists k :: 0 < k < |t| - 1 && OnlySlashAt(t, k)
  }

  predicate SqlEnvelope(e: CipherEnvelope) {
    && 16 <= CharLength(e.nonce) <= 128 && 1 <= |e.ciphertext| <= 22_369_624
    && (e.associatedDataHash.Some? ==> |e.associatedDataHash.value| <= 128)
    && IsPortableIdentifier(e.keyId)
  }

  /** The CHECKs on the content columns, apart from the digest. */
  predicate SqlContent(c: TransferContent) {
    && c.contractVersion == 1 && IsPortableIdentifier(c.sourceItemId) && SqlMediaType(c.mediaType)
    && c.contentLength <= 16777216 && SqlEnvelope(c.payload)
    && (c.encryptedMetadata.Some? ==> SqlEnvelope(c.encryptedMetadata.value))
  }

  predicate SqlTimestamps(row: TransferRow) {
    match row.state
    case Acknowledged | Ignored | Rejected => row.acknowledgedAt.Some? && row.cancelledAt.None?
    case Cancelled => row.acknowledgedAt.None? && row.cancelledAt.Some?
    case _ => row.acknowledgedAt.None? && row.cancelledAt.None?
  }

  predicate SqlLifetime(createdAt: Time, expiresAt: Time) {
    createdAt < expiresAt <= createdAt + 30 * DAY
  }

  /** Every CHECK on the transfers table. */
  predicate SqlTransfer(row: TransferRow) {
    && SqlContent(row.content) && SqlDigestUrl(row.content.contentSha256)
    && SqlLifetime(row.createdAt, row.expiresAt) && SqlTimestamps(row)
  }

  /** Every CHECK on the bindings table; the digest is the URL-safe form of a SHA-256 hash. */
  predicate SqlBinding(row: BindingRow) {
    IsIdempotencyKey(row.key) && SqlLifetime(row.createdAt, row.expiresAt)
  }

  datatype CreateRequest = CreateRequest(
    subject: Uuid, key: Text, content: TransferContent, expiresAt: Time, digest: Text, newId: Uuid)

  datatype AckRequest = AckRequest(
    subject: Uuid, key: Text, transferId: Uuid, contractVersion: nat,
    disposition: AcknowledgementDisposition, clientReceiptId: Text, digest: Text)

  /** A pending transfer past its expiry is shown as expired, at whole-second precision. */
  function Respond(row: TransferRow, now: int): TransferResponse {
    var state := if row.state == Pending && Seconds(row.expiresAt) <= now then Expired else row.state;
    TransferResponse(
      row.id, row.content, state, row.expiresAt, row.createdAt, row.updatedAt, row.acknowledgedAt)
  }

  function FindOwned(transfers: map<Uuid, TransferRow>, subject: Uuid, id: Uuid): Option<TransferRow> {
    if id in transfers && transfers[id].subject == subject then Some(transfers[id]) else None
  }

  function LiveBinding(
    bindings: map<(Uuid, Text), BindingRow>, subject: Uuid, key: Text, now: int): Option<BindingRow>
  {
    if (subject, key) in bindings && Seconds(bindings[(subject, key)].expiresAt) > now
    then Some(bindings[(subject, key)]) else None
  }

  function BindingFromRow(row: BindingRow, subject: Uuid): IdempotencyBinding {
    IdempotencyBinding(subject, row.key, row.operation, row.route, row.digest, Seconds(row.expiresAt))
  }

  function NewRow(r: CreateRequest, now: Time): TransferRow {
    TransferRow(r.newId, r.subject, r.content, Pending, r.expiresAt, now, now, None, None)
  }

  function NewBinding(
    subject: Uuid, key: Text, operation: IdempotentOperation, route: Route, digest: Text,
    transferId: Uuid, responseState: TransferState, now: Time, transferExpiresAt: Time): BindingRow
  {
    BindingRow(subject, key, operation, route, digest, Some(transferId), Some(responseState), now,
               Min(transferExpiresAt, now + DAY))
  }

  function CreateBinding(r: CreateRequest, now: Time): BindingRow {
    NewBinding(r.subject, r.key, CreateOperation, TransfersRoute, r.digest, r.newId, Pending, now, r.expiresAt)
  }

  function AckBinding(r: AckRequest, target: TransferState, now: Time, transferExpiresAt: Time): BindingRow {
    NewBinding(r.subject, r.key, AcknowledgeOperation, AckRoute(r.transferId), r.digest, r.transferId, target, now,
               transferExpiresAt)
  }

  /** The answer to a request whose key has a live binding. */
  function AnswerBound(
    db: Database, binding: BindingRow, subject: Uuid, key: Text, operation: IdempotentOperation,
    route: Route, digest: Text, now: Time): Result<TransferResponse, ApiError>
  {
    match EvaluateIdempotency(
      Seconds(now), Some(BindingFromRow(binding, subject)), subject, key, operation, route, digest)
    case Failure(error) => Failure(MapPolicyError(error))
    case Success(New) => Failure(Unavailable(NewAfterLiveLookup))
    case Success(Replay) =>
      if binding.transferId == None then Failure(Unavailable(BindingWithoutTransfer))
      else
        var row := FindOwned(db.transfers, subject, binding.transferId.value);
        if row == None then Failure(Unavailable(TransferMissing)) else Success(Respond(row.value, Seconds(now)))
  }

  function CreateUnbound(db: Database, r: CreateRequest, now: Time): (Database, Result<TransferResponse, ApiError>) {
    var row, binding := NewRow(r, now), CreateBinding(r, now);
    if r.newId in db.transfers || !SqlTransfer(row) then (db, Failure(Unavailable(TransferRefused)))
    else if !SqlBinding(binding) then (db, Failure(Unavailable(BindingRefused)))
    else
      (Database(db.transfers[r.newId := row], db.bindings[(r.subject, r.key) := binding]),
       Success(Respond(row, Seconds(now))))
  }

  function CreateFault(r: CreateRequest, now: Time): Option<PolicyError> {
    var invalid := ValidateCreate(r.content, Seconds(r.expiresAt), Seconds(now));
    if invalid.Some? then invalid
    else
      match EvaluateIdempotency(Seconds(now), None, r.subject, r.key, CreateOperation, TransfersRoute, r.digest)
      case Failure(error) => Some(error)
      case Success(_) => None
  }

  function HandleCreate(db: Database, r: CreateRequest, now: Time): (Database, Result<TransferResponse, ApiError>) {
    var fault, existing := CreateFault(r, now), LiveBinding(db.bindings, r.subject, r.key, Seconds(now));
    if fault.Some? then (db, Failure(MapPolicyError(fault.value)))
    else if existing.Some? then
      (db, AnswerBound(db, existing.value, r.subject, r.key, CreateOperation, TransfersRoute, r.digest, now))
    else CreateUnbound(db, r, now)
  }

  function Acknowledge(row: TransferRow, target: TransferState, now: Time): TransferRow {
    if target == row.state then row
    else row.(state := target, updatedAt := now, acknowledgedAt := Some(now), cancelledAt := None)
  }

  function AckUnbound(db: Database, r: AckRequest, now: Time): (Database, Result<TransferResponse, ApiError>) {
    var found := FindOwned(db.transfers, r.subject, r.transferId);
    if found == None then (db, Failure(NoSuchTransfer))
    else
      var row := found.value;
      match AcknowledgeState(Seconds(now), Seconds(row.expiresAt), row.state, r.disposition)
      case Failure(error) => (db, Failure(MapPolicyError(error)))
      case Success(target) =>
        var updated := Acknowledge(row, target, now);
        var binding := AckBinding(r, target, now, row.expiresAt);
        if target != row.state && !SqlTransfer(updated) then (db, Failure(Unavailable(TransferRefused)))
        else if !SqlBinding(binding) then (db, Failure(Unavailable(BindingRefused)))
        else
          (Database(db.transfers[r.transferId := updated], db.bindings[(r.subject, r.key) := binding]),
           Success(Respond(updated, Seconds(now))))
  }

  function AckFault(r: AckRequest, now: Time): Option<PolicyError> {
    var invalid := ValidateAcknowledge(r.contractVersion, r.clientReceiptId);
    if invalid.Some? then invalid
    else
      match EvaluateIdempotency(
        Seconds(now), None, r.subject, r.key, AcknowledgeOperation, AckRoute(r.transferId), r.digest)
      case Failure(error) => Some(error)
      case Success(_) => None
  }

  function HandleAck(db: Database, r: AckRequest, now: Time): (Database, Result<TransferResponse, ApiError>) {
    var fault, existing := AckFault(r, now), LiveBinding(db.bindings, r.subject, r.key, Seconds(now));
    if fault.Some? then (db, Failure(MapPolicyError(fault.value)))
    else if existing.Some? then
      (db, AnswerBound(
         db, existing.value, r.subject, r.key, AcknowledgeOperation, AckRoute(r.transferId), r.digest, now))
    else AckUnbound(db, r, now)
  }

  function Cancel(row: TransferRow, target: TransferState, now: Time): TransferRow {
    if target == row.state then row
    else row.(state := target, updatedAt := now, acknowledgedAt := None,
              cancelledAt := if target == Cancelled then Some(now) else None)
  }

  function HandleCancel(db: Database, subject: Uuid, id: Uuid, now: Time): (Database, Option<ApiError>) {
    var found := FindOwned(db.transfers, subject, id);
    if found == None then (db, Some(NoSuchTransfer))
    else
      var row := found.value;
      var target := CancelState(Seconds(now), Seconds(row.expiresAt), row.state);
      var updated := Cancel(row, target, now);
      if target != row.state && !SqlTransfer(updated) then (db, Some(Unavailable(TransferRefused)))
      else (db.(transfers := db.transfers[id := updated]), None)
  }

  class Service {
    var transfers: map<Uuid, TransferRow>
    var bindings: map<(Uuid, Text), BindingRow>

    function State(): Database
      reads this
    {
      Database(transfers, bindings)
    }

    constructor ()
      ensures State() == Database(map[], map[])
    {
      transfers, bindings := map[], map[];
    }

    /** Looks a key up and deletes its binding once that has expired. */
    method ActiveIdempotency(subject: Uuid, key: Text, now: int) returns (r: Option<BindingRow>)
      modifies this`bindings
      ensures r == LiveBinding(old(bindings), subject, key, now)
      ensures bindings == if r.Some? then old(bindings) else old(bindings) - {(subject, key)}
    {
      if (subject, key) !in bindings {
        assert bindings - {(subject, key)} == bindings;
        return None;
      }
      var existing := bindings[(subject, key)];
      if Seconds(existing.expiresAt) > now {
        return Some(existing);
      }
      bindings := bindings - {(subject, key)};
      r := None;
    }

    method InsertTransfer(row: TransferRow) returns (stored: bool)
      modifies this`transfers
      ensures stored <==> row.id !in old(transfers) && SqlTransfer(row)
      ensures transfers == if stored then old(transfers)[row.id := row] else old(transfers)
    {
      stored := row.id !in transfers && SqlTransfer(row);
      if stored {
        transfers := transfers[row.id := row];
      }
    }

    method InsertIdempotency(
      subject: Uuid, key: Text, operation: IdempotentOperation, route: Route, digest: Text,
      transferId: Uuid, responseState: TransferState, now: Time, transferExpiresAt: Time) returns (stored: bool)
      modifies this`bindings
      ensures var row := NewBinding(
          subject, key, operation, route, digest, transferId, responseState, now, transferExpiresAt);
        && (stored <==> (subject, key) !in old(bindings) && SqlBinding(row))
        && bindings == if stored then old(bindings)[(subject, key) := row] else old(bindings)
    {
      var policyExpiry := now + DAY;
      var expiresAt := if transferExpiresAt <= policyExpiry then transferExpiresAt else policyExpiry;
      var row := BindingRow(
        subject, key, operation, route, digest, Some(transferId), Some(responseState), now, expiresAt);
      stored := (subject, key) !in bindings && SqlBinding(row);
      if stored {
        bindings := bindings[(subject, key) := row];
      }
    }

    method CreateTransfer(r: CreateRequest, now: Time) returns (reply: Result<TransferResponse, ApiError>)
      modifies this
      ensures (State(), reply) == old(HandleCreate(State(), r, now))
    {
      var fault := CreateFault(r, now);
      if fault.Some? {
        return Failure(MapPolicyError(fault.value));
      }
      var committed := State();
      var existing := ActiveIdempotency(r.subject, r.key, Seconds(now));
      if existing.Some? {
        reply := AnswerBound(State(), existing.value, r.subject, r.key, CreateOperation, TransfersRoute, r.digest, now);
        return;
      }
      var stored := InsertTransfer(NewRow(r, now));
      if !stored {
        transfers, bindings := committed.transfers, committed.bindings;
        return Failure(Unavailable(TransferRefused));
      }
      stored := InsertIdempotency(
        r.subject, r.key, CreateOperation, TransfersRoute, r.digest, r.newId, Pending, now, r.expiresAt);
      if !stored {
        transfers, bindings := committed.transfers, committed.bindings;
        return Failure(Unavailable(BindingRefused));
      }
      assert bindings == committed.bindings[(r.subject, r.key) := CreateBinding(r, now)];
      reply := Success(Respond(NewRow(r, now), Seconds(now)));
    }

    method AcknowledgeTransfer(r: AckRequest, now: Time) returns (reply: Result<TransferResponse, ApiError>)
      modifies this
      ensures (State(), reply) == old(HandleAck(State(), r, now))
    {
      var fault := AckFault(r, now);
      if fault.Some? {
        return Failure(MapPolicyError(fault.value));
      }
      var committed := State();
      var existing := ActiveIdempotency(r.subject, r.key, Seconds(now));
      if existing.Some? {
        reply := AnswerBound(
          State(), existing.value, r.subject, r.key, AcknowledgeOperation, AckRoute(r.transferId), r.digest, now);
        return;
      }
      var found := FindOwned(transfers, r.subject, r.transferId);
      if found == None {
        bindings := committed.bindings;
        return Failure(NoSuchTransfer);
      }
      var row := found.value;
      var decision := AcknowledgeState(Seconds(now), Seconds(row.expiresAt), row.state, r.disposition);
      if decision.Failure? {
        bindings := committed.bindings;
        return Failure(MapPolicyError(decision.error));
      }
      var target := decision.value;
      if target != row.state {
        row := row.(state := target, updatedAt := now, acknowledgedAt := Some(now), cancelledAt := None);
        if !SqlTransfer(row) {
          bindings := committed.bindings;
          return Failure(Unavailable(TransferRefused));
        }
        transfers := transfers[r.transferId := row];
      }
      assert transfers == committed.transfers[r.transferId := row];
      var stored := InsertIdempotency(
        r.subject, r.key, AcknowledgeOperation, AckRoute(r.transferId), r.digest, r.transferId, target, now,
        row.expiresAt);
      if !stored {
        transfers, bindings := committed.transfers, committed.bindings;
        return Failure(Unavailable(BindingRefused));
      }
      assert bindings == committed.bindings[(r.subject, r.key) := AckBinding(r, target, now, row.expiresAt)];
      reply := Success(Respond(row, Seconds(now)));
    }

    method CancelTransfer(subject: Uuid, id: Uuid, now: Time) returns (error: Option<ApiError>)
      modifies this`transfers
      ensures (State(), error) == old(HandleCancel(State(), subject, id, now))
    {
      var found := FindOwned(transfers, subject, id);
      if found == None {
        return Some(NoSuchTransfer);
      }
      var row := found.value;
      var target := CancelState(Seconds(now), Seconds(row.expiresAt), row.state);
      if target != row.state {
        row := row.(state := target, updatedAt := now, acknowledgedAt := None,
                    cancelledAt := if target == Cancelled then Some(now) else None);
        if !SqlTransfer(row) {
          return Some(Unavailable(TransferRefused));
        }
        transfers := transfers[id := row];
      }
      assert transfers == old(transfers)[id := row];
      error := None;
    }
  }
}
