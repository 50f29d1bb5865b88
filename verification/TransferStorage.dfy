/** When a validated request is also storable: the validators against the CHECKs. */
module TransferStorage {
  import opened Text
  import opened Forms
  import opened TransferPolicy
  import opened TransferService

  lemma {:induction false} OneSegment(t: Text)
    ensures |Split(t, SLASH)| == 1 ==> Split(t, SLASH)[0] == t
  {
    if t == [] {
    } else {
      OneSegment(t[1..]);
      assert t == [t[0]] + t[1..];
    }
  }

  lemma {:induction false} TwoSegments(t: Text)
    ensures |Split(t, SLASH)| == 2 ==> t == Split(t, SLASH)[0] + [SLASH] + Split(t, SLASH)[1]
  {
    if t == [] {
    } else {
      var rest := Split(t[1..], SLASH);
      assert t == [t[0]] + t[1..];
      if t[0] == SLASH {
        OneSegment(t[1..]);
        assert [] + [SLASH] + t[1..] == t;
      } else {
        TwoSegments(t[1..]);
        if |rest| == 2 {
          assert Split(t, SLASH)[1] == rest[1];
          assert [t[0]] + (rest[0] + [SLASH] + rest[1]) == [t[0]] + rest[0] + [SLASH] + rest[1];
        }
      }
    }
  }

  lemma MediaTypeStorable(t: Text)
    requires IsMediaType(t)
    ensures SqlMediaType(t)
  {
    TwoSegments(t);
    var k := |Split(t, SLASH)[0]|;
    assert Split(t, SLASH)[1] != [];
    assert forall i :: k < i < |t| ==> t[i] == Split(t, SLASH)[1][i - k - 1];
    assert OnlySlashAt(t, k);
  }

  lemma {:induction false} NoSlashIsOneSegment(t: Text)
    requires SLASH !in t
    ensures Split(t, SLASH) == [t]
  {
    if t == [] {
    } else {
      NoSlashIsOneSegment(t[1..]);
      assert t == [t[0]] + t[1..];
    }
  }

  lemma {:induction false} OneSlashIsTwoSegments(t: Text, k: nat)
    requires k < |t| && t[k] == SLASH && forall i :: 0 <= i < |t| && i != k ==> t[i] != SLASH
    ensures Split(t, SLASH) == [t[..k], t[k + 1..]]
  {
    if k == 0 {
      NoSlashIsOneSegment(t[1..]);
    } else {
      OneSlashIsTwoSegments(t[1..], k - 1);
      assert t[..k] == [t[0]] + t[1..][..k - 1] && t[k + 1..] == t[1..][k..];
    }
  }

  /** The segment-wise test of media types equals the column pattern, one slash between two
      non-empty runs of letters, digits, `.`, `+` and `-`. */
  lemma MediaTypeFormsMeet(t: Text)
    ensures IsMediaType(t) <==> SqlMediaType(t)
    ensures forall i :: 0 <= i < |t| ==> (IsMediaByte(t[i]) <==> IsAlphanumeric(t[i]) || t[i] as char in ".+-")
  {
    if IsMediaType(t) {
      MediaTypeStorable(t);
    }
    if SqlMediaType(t) {
      var k :| 0 < k < |t| - 1 && OnlySlashAt(t, k);
      OneSlashIsTwoSegments(t, k);
    }
  }

  lemma {:induction false} AsciiLength(t: Text)
    requires forall i :: 0 <= i < |t| ==> t[i] < 128
    ensures CharLength(t) == |t|
  {
    if t == [] {
    } else {
      AsciiLength(t[1..]);
    }
  }

  lemma EnvelopeStorable(e: CipherEnvelope)
    requires ValidateEnvelope(e) == None
    ensures SqlEnvelope(e)
  {
    AsciiLength(e.nonce);
  }

  /** Validation bounds the retention in whole seconds, the CHECK in microseconds. */
  lemma RetentionStorableExactly(expiresAt: Time, now: Time)
    requires MIN_RETENTION <= Seconds(expiresAt) - Seconds(now) <= MAX_RETENTION
    ensures SqlLifetime(now, expiresAt) <==> expiresAt <= now + 30 * DAY
    ensures expiresAt < now + 30 * DAY + SECOND
  {
  }

  /** A validated request meets every CHECK of the transfers table if and only if its digest
      has the storable padding and its expiry is within thirty days to the microsecond. */
  lemma ValidatedStorableExactly(r: CreateRequest, now: Time)
    requires ValidateCreate(r.content, Seconds(r.expiresAt), Seconds(now)) == None
    ensures SqlTransfer(NewRow(r, now)) <==>
      && (|r.content.contentSha256| == 44 <==> r.content.contentSha256[|r.content.contentSha256| - 1] == EQUALS)
      && r.expiresAt <= now + 30 * DAY
  {
    MediaTypeStorable(r.content.mediaType);
    EnvelopeStorable(r.content.payload);
    if r.content.encryptedMetadata.Some? {
      EnvelopeStorable(r.content.encryptedMetadata.value);
    }
    DigestStorableExactly(r.content.contentSha256);
    RetentionStorableExactly(r.expiresAt, now);
  }

  /** Bindings change for one key only. */
  ghost predicate OtherKeysKept(before: Database, after: Database, key: (Uuid, Text)) {
    && after.bindings.Keys == before.bindings.Keys + {key}
    && forall other :: other in before.bindings && other != key ==> after.bindings[other] == before.bindings[other]
  }

  /** A fresh create succeeds if and only if its content is storable and its identifier
      unused; its binding is never refused. It then adds exactly one transfer, with the
      request's owner, content and expiry, shown as pending, and touches no other key. */
  lemma CreateSucceedsExactly(db: Database, r: CreateRequest, now: Time)
    requires CreateFault(r, now) == None
    requires LiveBinding(db.bindings, r.subject, r.key, Seconds(now)) == None
    ensures HandleCreate(db, r, now).1.Success? <==>
      && r.newId !in db.transfers
      && (|r.content.contentSha256| == 44 <==> r.content.contentSha256[|r.content.contentSha256| - 1] == EQUALS)
      && r.expiresAt <= now + 30 * DAY
    ensures HandleCreate(db, r, now).1 != Failure(Unavailable(BindingRefused))
    ensures var (after, reply) := HandleCreate(db, r, now);
      reply.Success? ==>
        && after.transfers.Keys == db.transfers.Keys + {r.newId}
        && (forall id :: id in db.transfers ==> after.transfers[id] == db.transfers[id])
        && after.transfers[r.newId].subject == r.subject
        && reply.value.transferId == r.newId && reply.value.content == r.content
        && reply.value.expiresAt == r.expiresAt && reply.value.state == Pending
        && OtherKeysKept(db, after, (r.subject, r.key))
        && now < after.bindings[(r.subject, r.key)].expiresAt <= Min(r.expiresAt, now + DAY)
  {
    ValidatedStorableExactly(r, now);
  }

  /** Acknowledging an owned transfer without a live binding: a pending one succeeds exactly
      while its expiry second lies ahead; one already in the requested state succeeds
      exactly while its expiry does, because the new binding would otherwise end before
      it begins. Success leaves the requested state, every other transfer and every other
      key as they were; failure leaves everything. */
  lemma AcknowledgeSucceedsExactly(db: Database, r: AckRequest, now: Time)
    requires AckFault(r, now) == None
    requires LiveBinding(db.bindings, r.subject, r.key, Seconds(now)) == None
    requires r.transferId in db.transfers && db.transfers[r.transferId].subject == r.subject
    requires SqlTransfer(db.transfers[r.transferId])
    ensures var row := db.transfers[r.transferId];
      HandleAck(db, r, now).1.Success? <==>
        || (row.state == Pending && Seconds(now) < Seconds(row.expiresAt))
        || (row.state == TargetState(r.disposition) && now < row.expiresAt)
    ensures var row := db.transfers[r.transferId];
      row.state == TargetState(r.disposition) && row.expiresAt <= now ==>
        HandleAck(db, r, now) == (db, Failure(Unavailable(BindingRefused)))
    ensures var (after, reply) := HandleAck(db, r, now);
      if reply.Failure? then after == db
      else
        && after.transfers.Keys == db.transfers.Keys
        && (forall id :: id in db.transfers && id != r.transferId ==> after.transfers[id] == db.transfers[id])
        && after.transfers[r.transferId].state == reply.value.state == TargetState(r.disposition)
        && (db.transfers[r.transferId].state == Pending ==> reply.value.acknowledgedAt == Some(now))
        && OtherKeysKept(db, after, (r.subject, r.key))
  {
  }
}
