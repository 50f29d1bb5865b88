/** What the engine's order, answers and errors mean in the fields of its values, apart from
    the rules that compute them. */
module SyncAnswers {
  import opened Text
  import opened SyncProtocol
  import opened SyncReachability
  import opened SyncPaging
  import opened SyncSnapshot

  predicate HexChar(c: char) { '0' <= c <= '9' || 'A' <= c <= 'F' || 'a' <= c <= 'f' }

  predicate Digest64(t: Text) { |t| == 64 && forall i :: 0 <= i < |t| ==> HexChar(t[i] as char) }

  lemma HexExactly(t: Text)
    ensures IsHexDigest(t) <==> Digest64(t)
  {
    forall i | 0 <= i < |t|
      ensures IsHexDigit(t[i]) <==> HexChar(t[i] as char)
    {
      ClassesSpelledOut(t[i]);
    }
  }

  /** What each answer of the mutation check says: the first bound or form that fails. */
  lemma MutationFaultExactly(m: SyncMutation)
    ensures var id, target, device := 1 <= |m.mutationId| <= 128, 1 <= |m.objectId| <= 256, 1 <= |m.deviceId| <= 128;
      var named := id && target && device;
      match ValidateMutation(m)
      case Some(InvalidMutationIdentifier) => !id
      case Some(InvalidObjectIdentifier) => id && !target
      case Some(InvalidDeviceIdentifier) => id && target && !device
      case Some(DigestNotHexadecimal) =>
        named && ((m.kind.Upsert? && !Digest64(m.kind.payloadDigest))
                  || (m.kind.AttachmentManifest? && !Digest64(m.kind.manifestDigest)))
      case Some(RevokedDeviceEmpty) => named && m.kind.DeviceRevoked? && |m.kind.revokedDeviceId| == 0
      case Some(KeyVersionNotPositive) => named && m.kind.KeyRotated? && m.kind.keyVersion == 0
      case Some(_) => false
      case None =>
        && named
        && (m.kind.Upsert? ==> Digest64(m.kind.payloadDigest))
        && (m.kind.AttachmentManifest? ==> Digest64(m.kind.manifestDigest))
        && (m.kind.DeviceRevoked? ==> |m.kind.revokedDeviceId| > 0)
        && (m.kind.KeyRotated? ==> m.kind.keyVersion > 0)
  {
    if m.kind.Upsert? {
      HexExactly(m.kind.payloadDigest);
    } else if m.kind.AttachmentManifest? {
      HexExactly(m.kind.manifestDigest);
    }
  }

  /** `a` does not come after `b` in the order of bytes. */
  ghost predicate NotAfter(a: Text, b: Text) { !exists k :: SmallerAt(b, a, k) }

  /** Field by field, in this order of weight, `e` is no more than `h`: clock, deletion,
      device, mutation identifier, sequence. */
  ghost predicate AtMost(e: SequencedMutation, h: SequencedMutation) {
    var x, y := e.mutation, h.mutation;
    && x.logicalClock <= y.logicalClock
    && (x.logicalClock == y.logicalClock ==>
          && (x.kind.Tombstone? ==> y.kind.Tombstone?)
          && (x.kind.Tombstone? == y.kind.Tombstone? ==>
                && NotAfter(x.deviceId, y.deviceId)
                && (x.deviceId == y.deviceId ==>
                      && NotAfter(x.mutationId, y.mutationId)
                      && (x.mutationId == y.mutationId ==> e.serverSequence <= h.serverSequence))))
  }

  lemma WinnerIsAtLeast(h: SequencedMutation, e: SequencedMutation)
    requires h == e || WinsConflict(h, e)
    ensures AtMost(e, h)
  {
    LessExactly(h.mutation.deviceId, e.mutation.deviceId);
    LessExactly(h.mutation.mutationId, e.mutation.mutationId);
    LessIrreflexive(e.mutation.deviceId);
    LessIrreflexive(e.mutation.mutationId);
    if Less(h.mutation.deviceId, e.mutation.deviceId) && Less(e.mutation.deviceId, h.mutation.deviceId) {
      LessTransitive(h.mutation.deviceId, e.mutation.deviceId, h.mutation.deviceId);
      LessIrreflexive(h.mutation.deviceId);
    }
    if Less(h.mutation.mutationId, e.mutation.mutationId) && Less(e.mutation.mutationId, h.mutation.mutationId) {
      LessTransitive(h.mutation.mutationId, e.mutation.mutationId, h.mutation.mutationId);
      LessIrreflexive(h.mutation.mutationId);
    }
  }

  /** Head choice: after any deliveries an object has a record exactly when the log mentions
      it, and that record is an entry of the log for the object that no other exceeds in
      clock, then deletion, device, mutation identifier and sequence. */
  lemma HeadsInFields(capacity: usize, ms: seq<SyncMutation>, target: Text)
    requires capacity > 0
    ensures var s := Run(Initial(capacity), ms);
      && (target in s.records <==> exists e :: e in s.log && e.mutation.objectId == target)
      && (target in s.records ==>
            && s.records[target] in s.log && s.records[target].mutation.objectId == target
            && forall e :: e in s.log && e.mutation.objectId == target ==> AtMost(e, s.records[target]))
  {
    var s := Run(Initial(capacity), ms);
    ReachableCoherent(capacity, ms);
    if target in s.records {
      assert s.records[target] in s.log;
      forall e | e in s.log && e.mutation.objectId == target
        ensures AtMost(e, s.records[target])
      {
        WinnerIsAtLeast(s.records[target], e);
      }
    }
  }

  /** What an answer to `m` says of a state with this replay window. */
  ghost predicate AnswerMeans(
    s: Engine, window: seq<SequencedMutation>, m: SyncMutation, answer: Result<Transition, SyncError>)
  {
    match answer
    case Failure(IdempotencyConflict) =>
      Valid(m) && exists e :: e in window && e.mutation.mutationId == m.mutationId && e.mutation != m
    case Failure(InvalidMutation(reason)) =>
      if Valid(m) then
        reason == ServerSequenceExhausted && |s.log| == U64_MAX
        && forall e :: e in window ==> e.mutation.mutationId != m.mutationId
      else Some(reason) == ValidateMutation(m)
    case Failure(InvalidSnapshot(_)) => false
    case Success(Transition(next, ApplyResult(status, cursor))) =>
      Valid(m) &&
      if status == Replayed then next == s && exists e :: e in window && e.mutation == m && e.serverSequence == cursor
      else cursor == next.serverSequence == |s.log| + 1 && Sequences(s, next, SequencedMutation(cursor, m), status)
  }

  /** `entry` joins the log; it is applied exactly when it has become the head of its object,
      and superseded exactly when no head has changed. */
  ghost predicate Sequences(s: Engine, next: Engine, entry: SequencedMutation, status: ApplyStatus) {
    var target := entry.mutation.objectId;
    && next.log == s.log + [entry] && target in next.records
    && (status == Applied <==> next.records[target] == entry)
    && (status == Superseded <==> next.records == s.records)
    && forall o :: o != target ==>
         (o in next.records <==> o in s.records) && (o in s.records ==> next.records[o] == s.records[o])
  }

  /** The whole answer of a reachable engine: refused by its first fault, in conflict with or
      replaying an entry of the window, exhausted, or sequenced next. */
  lemma AnswerInFields(capacity: usize, ms: seq<SyncMutation>, m: SyncMutation)
    requires capacity > 0
    ensures var s := Run(Initial(capacity), ms);
      AnswerMeans(s, Window(s.log, capacity), m, Transitioned(s, m))
  {
    ReachableCoherent(capacity, ms);
    CoherentAnswer(Run(Initial(capacity), ms), m);
  }

  lemma CoherentAnswer(s: Engine, m: SyncMutation)
    requires Coherent(s)
    ensures AnswerMeans(s, Window(s.log, s.replayCapacity), m, Transitioned(s, m))
  {
    if Valid(m) {
      CoherentDecision(s, m);
      WindowLookup(s, m.mutationId);
      if m.mutationId !in s.replayIndex && s.serverSequence < U64_MAX {
        SequencedInFields(s, m);
      }
    }
  }

  lemma SequencedInFields(s: Engine, m: SyncMutation)
    requires DenseLog(s) && Materialised(s) && s.serverSequence < U64_MAX
    ensures Sequences(s, Append(s, m), NextEntry(s, m), StatusOf(s.records, NextEntry(s, m)))
  {
    if m.objectId in s.records {
      assert s.records[m.objectId] in s.log;
    }
  }

  /** Pulling with limit zero, or else past the server's sequence, is refused with its own
      error; any other pull succeeds with at most `limit` entries, all past the cursor. */
  lemma PullAnswers(s: Engine, after: u64, limit: usize)
    ensures match Pulled(s, after, limit)
      case Failure(error) =>
        if limit == 0 then error == InvalidMutation(PullLimitNotPositive)
        else after > s.serverSequence && error == InvalidMutation(PullCursorAhead)
      case Success(page) =>
        && limit > 0 && after <= s.serverSequence && |page.mutations| <= limit
        && (forall e :: e in page.mutations ==> e in s.log && e.serverSequence > after)
        && (!page.hasMore ==> forall e :: e in s.log && e.serverSequence > after ==> e in page.mutations)
        && (page.hasMore ==> |page.mutations| == limit)
  {
    PendingMembers(s.log, after);
    var pending := Pending(s.log, after);
    assert |pending| <= limit ==> pending[..Min(limit, |pending|)] == pending;
  }

  lemma {:induction false} PendingMembers(log: seq<SequencedMutation>, after: u64)
    ensures forall e :: e in Pending(log, after) <==> e in log && e.serverSequence > after
  {
    if log == [] {
    } else {
      PendingMembers(log[1..], after);
    }
  }

  /** Entry `i` continues the log after its predecessor, within the server's sequence. */
  predicate Continues(log: seq<SequencedMutation>, previous: u64, i: nat, serverSequence: u64)
    requires i < |log|
  {
    (if i == 0 then previous else log[i - 1].serverSequence) < log[i].serverSequence <= serverSequence
  }

  /** Entry `i` is the first that does not continue the log or holds an invalid mutation. */
  ghost predicate FirstBad(log: seq<SequencedMutation>, previous: u64, i: nat, serverSequence: u64) {
    && i < |log| && !(Continues(log, previous, i, serverSequence) && Valid(log[i].mutation))
    && forall j :: 0 <= j < i ==> Continues(log, previous, j, serverSequence) && Valid(log[j].mutation)
  }

  lemma {:induction false} LogFaultFirst(log: seq<SequencedMutation>, previous: u64, serverSequence: u64)
    ensures match LogFault(log, previous, serverSequence)
      case None => forall i :: 0 <= i < |log| ==> Continues(log, previous, i, serverSequence) && Valid(log[i].mutation)
      case Some(LogNotMonotonic) =>
        exists i :: FirstBad(log, previous, i, serverSequence) && !Continues(log, previous, i, serverSequence)
      case Some(LogHoldsInvalidMutation) =>
        exists i :: FirstBad(log, previous, i, serverSequence) && Continues(log, previous, i, serverSequence)
      case Some(_) => false
  {
    if log == [] {
    } else if !(Continues(log, previous, 0, serverSequence) && Valid(log[0].mutation)) {
      assert FirstBad(log, previous, 0, serverSequence);
    } else {
      var rest, p := log[1..], log[0].serverSequence;
      LogFaultFirst(rest, p, serverSequence);
      assert forall i :: 0 <= i < |rest| ==>
        (Continues(rest, p, i, serverSequence) <==> Continues(log, previous, i + 1, serverSequence));
      assert forall i :: 1 <= i < |log| ==>
        (Continues(log, previous, i, serverSequence) <==> Continues(rest, p, i - 1, serverSequence))
        && log[i] == rest[i - 1];
      if i: nat :| FirstBad(rest, p, i, serverSequence) {
        assert log[i + 1] == rest[i];
        assert FirstBad(log, previous, i + 1, serverSequence);
      }
    }
  }

  /** What each answer of the snapshot check says: the first of its checks that fails. */
  lemma SnapshotFaultExactly(s: Engine)
    ensures var sized := s.replayCapacity > 0 && |s.log| <= s.serverSequence;
      var logged := sized && forall i :: 0 <= i < |s.log| ==>
        Continues(s.log, 0, i, s.serverSequence) && Valid(s.log[i].mutation);
      match SnapshotFault(s)
      case Some(ReplayCapacityNotPositive) => s.replayCapacity == 0
      case Some(LogLongerThanSequence) => s.replayCapacity > 0 && |s.log| > s.serverSequence
      case Some(LogNotMonotonic) =>
        sized && exists i :: FirstBad(s.log, 0, i, s.serverSequence) && !Continues(s.log, 0, i, s.serverSequence)
      case Some(LogHoldsInvalidMutation) =>
        sized && exists i :: FirstBad(s.log, 0, i, s.serverSequence) && Continues(s.log, 0, i, s.serverSequence)
      case Some(ReplayIndexInconsistent) => logged && !ReplayAccepted(s)
      case Some(RecordOutsideLog) =>
        && logged && ReplayAccepted(s)
        && exists o :: o in s.records
             && (s.records[o].serverSequence > s.serverSequence || !Valid(s.records[o].mutation))
      case Some(_) => false
      case None =>
        && logged && ReplayAccepted(s)
        && forall o :: o in s.records ==>
             s.records[o].serverSequence <= s.serverSequence && Valid(s.records[o].mutation)
  {
    LogFaultFirst(s.log, 0, s.serverSequence);
  }

  /** Restoring, exactly: a snapshot that decodes is restored, as it is, if and only if its
      log, records and replay window pass their checks; otherwise the first failing one is
      reported, and so is text that does not decode. */
  lemma RestoredExactly(decoded: Option<Engine>)
    ensures match decoded
      case None => Restored(decoded) == Failure(InvalidSnapshot(SnapshotNotDecodable))
      case Some(s) =>
        if BodyAccepted(s) && ReplayAccepted(s) then Restored(decoded) == Success(s)
        else SnapshotFault(s).Some? && Restored(decoded) == Failure(InvalidSnapshot(SnapshotFault(s).value))
  {
    if decoded.Some? {
      AcceptedParts(decoded.value);
    }
  }

  lemma {:induction false} SurvivorIsRun(s: Engine, life: seq<Incident>)
    ensures Survive(s, life).Success? ==> Survive(s, life).value == Run(s, Deliveries(life))
    ensures Survive(s, life).Failure? ==> !StaysAccepted(s)
  {
    if life == [] {
    } else {
      var earlier := life[..|life| - 1];
      SurvivorIsRun(s, earlier);
      if Survive(s, earlier).Success? {
        var ms, longer := Deliveries(earlier), Deliveries(life);
        if life[|life| - 1].Restart? {
          assert longer == ms;
          RestoredExactly(Some(Run(s, ms)));
          AcceptedParts(Run(s, ms));
        } else {
          assert longer[..|longer| - 1] == ms;
        }
      }
    }
  }

  function Delivering(ms: seq<SyncMutation>): seq<Incident> {
    seq(|ms|, i requires 0 <= i < |ms| => Delivery(ms[i]))
  }

  lemma {:induction false} DeliveringSurvives(s: Engine, ms: seq<SyncMutation>)
    ensures Survive(s, Delivering(ms)) == Success(Run(s, ms))
  {
    if ms == [] {
    } else {
      DeliveringSurvives(s, ms[..|ms| - 1]);
      assert Delivering(ms)[..|ms| - 1] == Delivering(ms[..|ms| - 1]);
    }
  }

  ghost predicate FailsToRestart(s: Engine, life: seq<Incident>) { Survive(s, life).Failure? }

  /** Some life of an engine ends in a failed restart if and only if some deliveries lead it
      to a state that would not be accepted. */
  lemma LifeFailsExactly(s: Engine)
    ensures (exists life :: FailsToRestart(s, life)) <==> !StaysAccepted(s)
  {
    if life :| FailsToRestart(s, life) {
      SurvivorIsRun(s, life);
    }
    if !StaysAccepted(s) {
      var ms :| !Accepted(Run(s, ms));
      var life := Delivering(ms) + [Restart];
      DeliveringSurvives(s, ms);
      assert life[..|life| - 1] == Delivering(ms);
      RestoredExactly(Some(Run(s, ms)));
      AcceptedParts(Run(s, ms));
      assert FailsToRestart(s, life);
    }
  }

  /** The forged snapshot is restored once, and after one fresh mutation no more. */
  lemma ForgedLifeFails(kept: SyncMutation, other: SyncMutation, novel: SyncMutation)
    requires Valid(kept) && Valid(novel)
    requires kept.mutationId != other.mutationId
    requires novel.mutationId != kept.mutationId && novel.mutationId != other.mutationId
    ensures Restored(Some(Forged(kept, other))) == Success(Forged(kept, other))
    ensures Restored(Some(Advance(Forged(kept, other), novel))) == Failure(InvalidSnapshot(ReplayIndexInconsistent))
  {
    var s := Forged(kept, other);
    ForgedSnapshotAccepted(kept, other, novel);
    AcceptedParts(s);
    RestoredExactly(Some(s));
    AdvanceCases(s, novel);
    AppendKeepsBody(s, novel);
    AcceptedParts(Append(s, novel));
    ReplayFault(Append(s, novel));
  }

  lemma ReplayFault(s: Engine)
    requires BodyAccepted(s) && !ReplayAccepted(s)
    ensures Restored(Some(s)) == Failure(InvalidSnapshot(ReplayIndexInconsistent))
  {
  }
}
