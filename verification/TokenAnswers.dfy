/** What the answers of token authorisation and request validation mean in the fields of
    the token and the request. */
module TokenAnswers {
  import opened Text
  import opened Forms
  import opened TransferPolicy
  import opened TransferService
  import opened TransferStorage

  function Verb(operation: Operation): string {
    match operation
    case Read => "cliptown:memebank:read"
    case Write => "cliptown:memebank:write"
    case Delete => "cliptown:memebank:delete"
  }

  /** Recent authentication at level two, by named methods in a context that is not blank. */
  predicate Assured(now: int, claims: DelegatedAuthorization) {
    && claims.assuranceLevel >= 2 && !IsBlank(claims.assuranceContext) && claims.authenticationMethods != []
    && claims.authenticatedAt.Some? && now - 600 <= claims.authenticatedAt.value <= now + 60
  }

  /** What each refusal under the standard policy says, in the order of the checks, and whom
      an acceptance names. */
  lemma AuthorizationAnswers(now: i64, claims: DelegatedAuthorization, operation: Operation, issuer: Text)
    ensures var clock := now >= 0 && issuer != [];
      var parties := claims.issuer == issuer && claims.audiences == [Ascii("cliptown-api")]
                     && claims.authorizedParty == Ascii("memebank-api");
      var lineage := claims.delegated && claims.sessionActive && claims.parentTokenId != claims.tokenId
                     && forall t :: t in [claims.subject, claims.sessionId, claims.tokenId, claims.parentTokenId] ==>
                          IsPortableIdentifier(t);
      var window := claims.notBefore <= now + 60 <= I64_MAX && now < claims.expiresAt;
      var lifetime := 0 < claims.expiresAt - claims.notBefore <= 900;
      match AuthorizeDelegatedOperation(now, claims, operation, NewTokenPolicy(issuer))
      case Success(who) =>
        && clock && parties && lineage && window && lifetime
        && claims.scopes == [Ascii(Verb(operation))] && (operation != Read ==> Assured(now, claims))
        && who == AuthorizedSubject(claims.subject, claims.sessionId, claims.tokenId, operation)
      case Failure(InvalidPolicy) => !clock || (parties && lineage && now + 60 > I64_MAX)
      case Failure(WrongIssuer) => clock && claims.issuer != issuer
      case Failure(WrongAudience) =>
        clock && claims.issuer == issuer && claims.audiences != [Ascii("cliptown-api")]
      case Failure(WrongAuthorizedParty) =>
        clock && claims.issuer == issuer && claims.audiences == [Ascii("cliptown-api")]
        && claims.authorizedParty != Ascii("memebank-api")
      case Failure(InvalidDelegation) =>
        clock && parties && (!lineage || (window && claims.expiresAt - claims.notBefore > I64_MAX))
      case Failure(TokenNotYetValid) => clock && parties && lineage && now + 60 < claims.notBefore
      case Failure(TokenExpired) =>
        clock && parties && lineage && claims.notBefore <= now + 60 && claims.expiresAt <= now
      case Failure(TokenLifetimeExceeded) => clock && parties && lineage && window && !lifetime
      case Failure(WrongScope) =>
        clock && parties && lineage && window && lifetime && claims.scopes != [Ascii(Verb(operation))]
      case Failure(AssuranceRequired) =>
        clock && parties && lineage && window && lifetime && claims.scopes == [Ascii(Verb(operation))]
        && operation != Read && !Assured(now, claims)
      case Failure(_) => false
  {
    assert |claims.audiences| == 1 ==> claims.audiences == [claims.audiences[0]];
    assert |claims.scopes| == 1 ==> claims.scopes == [claims.scopes[0]];
    assert |Ascii("cliptown-api")| == 12 && |Ascii("memebank-api")| == 12;
    var ids := [claims.subject, claims.sessionId, claims.tokenId, claims.parentTokenId];
    assert claims.subject == ids[0] && claims.sessionId == ids[1];
    assert claims.tokenId == ids[2] && claims.parentTokenId == ids[3];
  }

  /** A token is accepted for one operation at most. */
  lemma AcceptedForOneOperation(now: i64, claims: DelegatedAuthorization, a: Operation, b: Operation, issuer: Text)
    requires AuthorizeDelegatedOperation(now, claims, a, NewTokenPolicy(issuer)).Success?
    requires AuthorizeDelegatedOperation(now, claims, b, NewTokenPolicy(issuer)).Success?
    ensures a == b
  {
    ScopesDiffer();
  }

  lemma ScopesDiffer()
    ensures forall a: Operation, b: Operation :: a != b ==> RequiredScope(a) != RequiredScope(b)
  {
    var read, write, remove := RequiredScope(Read), RequiredScope(Write), RequiredScope(Delete);
    assert read[18] == 114 && write[18] == 119 && remove[18] == 100;
  }

  /** Reading does not look at the assurance of the token. */
  lemma ReadIgnoresAssurance(
    now: i64, claims: DelegatedAuthorization, issuer: Text, level: nat, context: Text, methods: seq<Text>,
    at: Option<i64>)
    ensures var other := claims.(assuranceLevel := level, assuranceContext := context,
                                 authenticationMethods := methods, authenticatedAt := at);
      AuthorizeDelegatedOperation(now, other, Read, NewTokenPolicy(issuer))
      == AuthorizeDelegatedOperation(now, claims, Read, NewTokenPolicy(issuer))
  {
  }

  /** Every policy error is answered in its class. */
  lemma ErrorsMapped(e: PolicyError)
    ensures match MapPolicyError(e)
      case IncompatibleVersion => e == IncompatibleContract
      case BadRequest =>
        e in {InvalidTransfer, InvalidCipherEnvelope, InvalidRetention, InvalidAcknowledgement,
              InvalidIdempotency, InvalidCursor}
      case Conflicting => e in {InvalidTransition, TransferExpired, IdempotencyConflict}
      case NoSuchTransfer => e == NotFound
      case Forbidden => e in {WrongScope, AssuranceRequired}
      case Unauthorized =>
        e in {InvalidPolicy, WrongIssuer, WrongAudience, WrongAuthorizedParty, InvalidDelegation,
              TokenNotYetValid, TokenExpired, TokenLifetimeExceeded}
      case Unavailable(_) => false
  {
  }

  /** Base64 of either alphabet, padded on the last two places at most. */
  predicate Base64Form(t: Text) {
    t != [] && forall i :: 0 <= i < |t| ==>
      IsAlphanumeric(t[i]) || t[i] as char in "-_+/" || (t[i] as char == '=' && |t| - i <= 2)
  }

  predicate EnvelopeForm(e: CipherEnvelope) {
    && 16 <= |e.nonce| <= 128 && Base64Form(e.nonce)
    && |e.ciphertext| <= 22_369_624 && Base64Form(e.ciphertext) && IsPortableIdentifier(e.keyId)
    && (e.associatedDataHash.Some? ==>
          |e.associatedDataHash.value| <= 128 && Base64Form(e.associatedDataHash.value))
  }

  lemma Base64Exactly(t: Text)
    ensures IsBase64ish(t) <==> Base64Form(t)
  {
    forall i | 0 <= i < |t|
      ensures IsBase64Byte(t[i]) <==> IsAlphanumeric(t[i]) || t[i] as char in "-_+/"
      ensures t[i] == EQUALS <==> t[i] as char == '='
    {
      AlphabetsSpelledOut(t[i]);
    }
  }

  lemma EnvelopeExactly(e: CipherEnvelope)
    ensures ValidateEnvelope(e) == if EnvelopeForm(e) then None else Some(InvalidCipherEnvelope)
  {
    Base64Exactly(e.nonce);
    Base64Exactly(e.ciphertext);
    if e.associatedDataHash.Some? {
      Base64Exactly(e.associatedDataHash.value);
    }
  }

  /** What each answer of create validation says, in whole seconds. */
  lemma CreateValidationAnswers(c: TransferContent, expiresAt: int, now: int)
    ensures var version := now >= 0 && c.contractVersion == 1;
      var described := version && IsPortableIdentifier(c.sourceItemId) && SqlMediaType(c.mediaType)
                       && IsSha256Base64Url(c.contentSha256) && c.contentLength <= 16 * 1024 * 1024;
      var encrypted := EnvelopeForm(c.payload)
                     && (c.encryptedMetadata.Some? ==> EnvelopeForm(c.encryptedMetadata.value));
      match ValidateCreate(c, expiresAt, now)
      case Some(IncompatibleContract) => !version
      case Some(InvalidTransfer) => version && !described
      case Some(InvalidCipherEnvelope) => described && !encrypted
      case Some(InvalidRetention) => described && encrypted && !(60 <= expiresAt - now <= 30 * 86_400)
      case Some(_) => false
      case None => described && encrypted && 60 <= expiresAt - now <= 30 * 86_400
  {
    MediaTypeFormsMeet(c.mediaType);
    EnvelopeExactly(c.payload);
    if c.encryptedMetadata.Some? {
      EnvelopeExactly(c.encryptedMetadata.value);
    }
  }

  predicate KeyForm(key: Text) { 16 <= |key| <= 128 && IsPortableIdentifier(key) }

  /** What each answer of the idempotency decision says: a request that is not well formed is
      invalid; a binding of another subject or key, or one whose second of expiry has come,
      counts for nothing; a live one is replayed or conflicts. */
  lemma IdempotencyAnswers(
    now: int, existing: Option<IdempotencyBinding>, subject: Uuid, key: Text,
    operation: IdempotentOperation, route: Route, digest: Text)
    ensures var formed := now >= 0 && KeyForm(key) && IsSha256Base64Url(digest);
      var live := formed && existing.Some? && existing.value.subject == subject && existing.value.key == key
                  && now < existing.value.expiresAt;
      var same := live && existing.value.operation == operation && existing.value.route == route
                  && existing.value.digest == digest;
      match EvaluateIdempotency(now, existing, subject, key, operation, route, digest)
      case Failure(InvalidIdempotency) => !formed
      case Failure(IdempotencyConflict) => live && !same
      case Failure(_) => false
      case Success(New) => formed && !live
      case Success(Replay) => same
  {
  }

  /** The state that each disposition asks for. */
  function Asked(disposition: AcknowledgementDisposition): TransferState {
    match disposition
    case AsAcknowledged => Acknowledged
    case AsIgnored => Ignored
    case AsRejected => Rejected
  }

  /** What each answer to an acknowledgement, and to a cancellation, says of the transfer. */
  lemma TransitionAnswers(now: int, expiresAt: int, current: TransferState, disposition: AcknowledgementDisposition)
    ensures match AcknowledgeState(now, expiresAt, current, disposition)
      case Success(target) =>
        target == Asked(disposition) && (current == target || (current == Pending && now < expiresAt))
      case Failure(InvalidTransition) => current != Pending && current != Asked(disposition)
      case Failure(TransferExpired) => current == Pending && expiresAt <= now
      case Failure(_) => false
    ensures CancelState(now, expiresAt, current) ==
      match current { case Pending => if now < expiresAt then Cancelled else Expired case other => other }
  {
  }

  lemma AcknowledgementExactly(contractVersion: nat, clientReceiptId: Text)
    ensures ValidateAcknowledge(contractVersion, clientReceiptId) ==
      if contractVersion == 1 && KeyForm(clientReceiptId) then None else Some(InvalidAcknowledgement)
  {
  }
}
