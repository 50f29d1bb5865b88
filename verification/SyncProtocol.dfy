/** The values of the sync protocol and its pure transition rules. */
module SyncProtocol {
  import opened Text

  datatype MutationKind =
    | Upsert(payloadDigest: Text)
    | Tombstone
    | PinChanged(pinned: bool)
    | AttachmentManifest(manifestDigest: Text)
    | DeviceRevoked(revokedDeviceId: Text)
    | KeyRotated(keyVersion: u64)

  datatype SyncMutation = SyncMutation(
    mutationId: Text, objectId: Text, logicalClock: u64, deviceId: Text, kind: MutationKind)

  datatype SequencedMutation = SequencedMutation(serverSequence: u64, mutation: SyncMutation)

  datatype ApplyStatus = Applied | Superseded | Replayed

  datatype ApplyResult = ApplyResult(status: ApplyStatus, cursor: u64)

  /** One constructor for each message the source attaches to an error. */
  datatype Reason =
    | ReplayCapacityNotPositive
    | ServerSequenceExhausted
    | PullLimitNotPositive
    | PullCursorAhead
    | InvalidMutationIdentifier
    | InvalidObjectIdentifier
    | InvalidDeviceIdentifier
    | DigestNotHexadecimal
    | RevokedDeviceEmpty
    | KeyVersionNotPositive
    | LogLongerThanSequence
    | LogNotMonotonic
    | LogHoldsInvalidMutation
    | ReplayIndexInconsistent
    | RecordOutsideLog
    | SnapshotNotDecodable

  datatype SyncError =
    | InvalidMutation(reason: Reason)
    | IdempotencyConflict
    | InvalidSnapshot(reason: Reason)

  /** The fields of one engine, as a value. */
  datatype Engine = Engine(
    serverSequence: u64,
    records: map<Text, SequencedMutation>,
    log: seq<SequencedMutation>,
    replayIndex: map<Text, SequencedMutation>,
    replayOrder: seq<Text>,
    replayCapacity: usize)

  datatype Transition = Transition(nextState: Engine, result: ApplyResult)

  datatype PullPage = PullPage(mutations: seq<SequencedMutation>, cursor: u64, hasMore: bool)

  function Initial(capacity: usize): Engine {
    Engine(0, map[], [], map[], [], capacity)
  }

  function DeletionPrecedence(kind: MutationKind): int {
    if kind.Tombstone? then 1 else 0
  }

  predicate IsHexDigest(t: Text) {
    |t| == 64 && forall i :: 0 <= i < |t| ==> IsHexDigit(t[i])
  }

  /** The error of the first failing check, if any. */
  function ValidateMutation(m: SyncMutation): Option<Reason> {
    if |m.mutationId| == 0 || |m.mutationId| > 128 then Some(InvalidMutationIdentifier)
    else if |m.objectId| == 0 || |m.objectId| > 256 then Some(InvalidObjectIdentifier)
    else if |m.deviceId| == 0 || |m.deviceId| > 128 then Some(InvalidDeviceIdentifier)
    else match m.kind
      case Upsert(digest) => if IsHexDigest(digest) then None else Some(DigestNotHexadecimal)
      case AttachmentManifest(digest) => if IsHexDigest(digest) then None else Some(DigestNotHexadecimal)
      case DeviceRevoked(device) => if |device| == 0 then Some(RevokedDeviceEmpty) else None
      case KeyRotated(version) => if version == 0 then Some(KeyVersionNotPositive) else None
      case _ => None
  }

  predicate Valid(m: SyncMutation) { ValidateMutation(m) == None }

  /** The tuple comparison that decides which of two entries for an object is its head. */
  predicate WinsConflict(candidate: SequencedMutation, current: SequencedMutation) {
    var a, b := candidate.mutation, current.mutation;
    if a.logicalClock != b.logicalClock then a.logicalClock > b.logicalClock
    else if DeletionPrecedence(a.kind) != DeletionPrecedence(b.kind) then
      DeletionPrecedence(a.kind) > DeletionPrecedence(b.kind)
    else if a.deviceId != b.deviceId then Less(b.deviceId, a.deviceId)
    else if a.mutationId != b.mutationId then Less(b.mutationId, a.mutationId)
    else candidate.serverSequence > current.serverSequence
  }

  /** Records `entry` in the replay window and evicts the oldest identifiers beyond capacity. */
  function Remember(s: Engine, entry: SequencedMutation): Engine {
    var order := s.replayOrder + [entry.mutation.mutationId];
    var index := s.replayIndex[entry.mutation.mutationId := entry];
    var excess := Max(0, |order| - s.replayCapacity);
    s.(replayOrder := order[excess..], replayIndex := index - (set id | id in order[..excess]))
  }

  /** Status of a fresh entry against the present head of its object. */
  function StatusOf(records: map<Text, SequencedMutation>, entry: SequencedMutation): ApplyStatus {
    var target := entry.mutation.objectId;
    if target in records && !WinsConflict(entry, records[target]) then Superseded else Applied
  }

  /** The entry a fresh mutation is sequenced as. */
  function NextEntry(s: Engine, m: SyncMutation): SequencedMutation
    requires s.serverSequence < U64_MAX
  {
    SequencedMutation(s.serverSequence + 1, m)
  }

  /** The state once the entry is in the log and, when it wins, in the records. */
  function Logged(s: Engine, m: SyncMutation): Engine
    requires s.serverSequence < U64_MAX
  {
    var entry := NextEntry(s, m);
    s.(serverSequence := s.serverSequence + 1,
       records := if StatusOf(s.records, entry) == Applied then s.records[m.objectId := entry] else s.records,
       log := s.log + [entry])
  }

  /** The state after sequencing a mutation that is not a replay. */
  function Append(s: Engine, m: SyncMutation): Engine
    requires s.serverSequence < U64_MAX
  {
    Remember(Logged(s, m), NextEntry(s, m))
  }

  function Transitioned(s: Engine, m: SyncMutation): Result<Transition, SyncError> {
    var invalid := ValidateMutation(m);
    if invalid.Some? then Failure(InvalidMutation(invalid.value))
    else if m.mutationId in s.replayIndex then
      var previous := s.replayIndex[m.mutationId];
      if previous.mutation != m then Failure(IdempotencyConflict)
      else Success(Transition(s, ApplyResult(Replayed, previous.serverSequence)))
    else if s.serverSequence == U64_MAX then Failure(InvalidMutation(ServerSequenceExhausted))
    else
      Success(Transition(Append(s, m), ApplyResult(StatusOf(s.records, NextEntry(s, m)), s.serverSequence + 1)))
  }

  /** The state after one call of `apply`: a rejected mutation changes nothing. */
  function Advance(s: Engine, m: SyncMutation): Engine {
    match Transitioned(s, m)
    case Success(transition) => transition.nextState
    case Failure(_) => s
  }

  /** The state after delivering `ms` in order. */
  function Run(s: Engine, ms: seq<SyncMutation>): Engine {
    if ms == [] then s else Advance(Run(s, ms[..|ms| - 1]), ms[|ms| - 1])
  }

  lemma {:induction false} RunAppend(s: Engine, before: seq<SyncMutation>, after: seq<SyncMutation>)
    ensures Run(s, before + after) == Run(Run(s, before), after)
    decreases |after|
  {
    if after == [] {
      assert before + after == before;
    } else {
      var ms := before + after;
      RunAppend(s, before, after[..|after| - 1]);
      assert ms[..|ms| - 1] == before + after[..|after| - 1];
    }
  }

  /** The log entries past a cursor, in log order. */
  function Pending(log: seq<SequencedMutation>, after: u64): seq<SequencedMutation> {
    if log == [] then []
    else (if log[0].serverSequence > after then [log[0]] else []) + Pending(log[1..], after)
  }

  function Pulled(s: Engine, after: u64, limit: usize): Result<PullPage, SyncError> {
    if limit == 0 then Failure(InvalidMutation(PullLimitNotPositive))
    else if after > s.serverSequence then Failure(InvalidMutation(PullCursorAhead))
    else
      var pending := Pending(s.log, after);
      var page := pending[..Min(limit, |pending|)];
      var cursor := if page == [] then Max(s.serverSequence, after) else page[|page| - 1].serverSequence;
      Success(PullPage(page, cursor, |pending| > limit))
  }

  /** The first fault of a snapshot's log, read after an entry with sequence `previous`. */
  function LogFault(log: seq<SequencedMutation>, previous: u64, serverSequence: u64): Option<Reason> {
    if log == [] then None
    else if log[0].serverSequence <= previous || log[0].serverSequence > serverSequence then Some(LogNotMonotonic)
    else if !Valid(log[0].mutation) then Some(LogHoldsInvalidMutation)
    else LogFault(log[1..], log[0].serverSequence, serverSequence)
  }

  /** The first fault for which a decoded snapshot is rejected. */
  function SnapshotFault(s: Engine): Option<Reason> {
    if s.replayCapacity == 0 then Some(ReplayCapacityNotPositive)
    else if |s.log| > s.serverSequence then Some(LogLongerThanSequence)
    else if LogFault(s.log, 0, s.serverSequence).Some? then LogFault(s.log, 0, s.serverSequence)
    else if |s.replayIndex| != |s.replayOrder| || |s.replayIndex| > s.replayCapacity
            || exists id :: id in s.replayOrder && id !in s.replayIndex then Some(ReplayIndexInconsistent)
    else if exists target :: target in s.records
                && (s.records[target].serverSequence > s.serverSequence || !Valid(s.records[target].mutation)) then
      Some(RecordOutsideLog)
    else None
  }

  /** The engine rebuilt from what a snapshot decodes to, if it decodes at all. */
  function Restored(decoded: Option<Engine>): Result<Engine, SyncError> {
    if decoded == None then Failure(InvalidSnapshot(SnapshotNotDecodable))
    else
      match SnapshotFault(decoded.value)
      case None => Success(decoded.value)
      case Some(reason) => Failure(InvalidSnapshot(reason))
  }

  lemma WinsIrreflexive(a: SequencedMutation)
    ensures !WinsConflict(a, a)
  {
  }

  lemma WinsTransitive(a: SequencedMutation, b: SequencedMutation, c: SequencedMutation)
    requires WinsConflict(a, b) && WinsConflict(b, c)
    ensures WinsConflict(a, c)
  {
    var x, y, z := a.mutation, b.mutation, c.mutation;
    if Less(y.deviceId, x.deviceId) && Less(z.deviceId, y.deviceId) {
      LessTransitive(z.deviceId, y.deviceId, x.deviceId);
      LessIrreflexive(x.deviceId);
    }
    if Less(y.mutationId, x.mutationId) && Less(z.mutationId, y.mutationId) {
      LessTransitive(z.mutationId, y.mutationId, x.mutationId);
      LessIrreflexive(x.mutationId);
    }
  }

  lemma WinsTotal(a: SequencedMutation, b: SequencedMutation)
    requires a.serverSequence != b.serverSequence
    ensures WinsConflict(a, b) <==> !WinsConflict(b, a)
  {
    LessTotal(a.mutation.deviceId, b.mutation.deviceId);
    LessTotal(a.mutation.mutationId, b.mutation.mutationId);
    if WinsConflict(a, b) && WinsConflict(b, a) {
      WinsTransitive(a, b, a);
    }
  }
}
