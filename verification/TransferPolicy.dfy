/** The transfer policy: token authorisation, request validation, state transitions and
    the idempotency decision. */
module TransferPolicy {
  import opened Text
  import opened Forms

  datatype PolicyError =
    | InvalidPolicy | WrongIssuer | WrongAudience | WrongAuthorizedParty | InvalidDelegation
    | TokenNotYetValid | TokenExpired | TokenLifetimeExceeded | WrongScope | AssuranceRequired
    | IncompatibleContract | InvalidTransfer | InvalidCipherEnvelope | InvalidRetention
    | InvalidAcknowledgement | InvalidTransition | TransferExpired | NotFound
    | InvalidIdempotency | IdempotencyConflict | InvalidCursor

  datatype Operation = Read | Write | Delete

  function RequiredScope(operation: Operation): Text {
    match operation
    case Read => Ascii("cliptown:memebank:read")
    case Write => Ascii("cliptown:memebank:write")
    case Delete => Ascii("cliptown:memebank:delete")
  }

  predicate RequiresRecentLoa2(operation: Operation) { operation != Read }

  datatype DelegatedAuthorization = DelegatedAuthorization(
    issuer: Text, audiences: seq<Text>, authorizedParty: Text, subject: Text, sessionId: Text,
    tokenId: Text, parentTokenId: Text, scopes: seq<Text>, assuranceLevel: nat, assuranceContext: Text,
    authenticationMethods: seq<Text>, authenticatedAt: Option<i64>, notBefore: i64, expiresAt: i64,
    sessionActive: bool, delegated: bool)

  datatype DelegatedTokenPolicy = DelegatedTokenPolicy(
    issuer: Text, audience: Text, authorizedParty: Text,
    maxAuthAge: i64, maxClockSkew: i64, maxTokenLifetime: i64)

  function NewTokenPolicy(issuer: Text): DelegatedTokenPolicy {
    DelegatedTokenPolicy(issuer, Ascii("cliptown-api"), Ascii("memebank-api"), 10 * 60, 60, 15 * 60)
  }

  datatype AuthorizedSubject = AuthorizedSubject(subject: Text, sessionId: Text, tokenId: Text, operation: Operation)

  /** `trim().is_empty()`: nothing but characters with the White_Space property. */
  predicate IsBlank(t: Text) {
    t == []
    || ((9 <= t[0] <= 13 || t[0] == 32) && IsBlank(t[1..]))
    || (|t| >= 2 && t[0] == 0xC2 && (t[1] == 0x85 || t[1] == 0xA0) && IsBlank(t[2..]))
    || (|t| >= 3 && IsBlank(t[3..])
        && (t[..3] == [0xE1, 0x9A, 0x80] || t[..3] == [0xE2, 0x81, 0x9F] || t[..3] == [0xE3, 0x80, 0x80]
            || (t[..2] == [0xE2, 0x80] && (0x80 <= t[2] <= 0x8A || t[2] == 0xA8 || t[2] == 0xA9 || t[2] == 0xAF))))
  }

  function AuthorizeDelegatedOperation(
    now: i64, claims: DelegatedAuthorization, operation: Operation, policy: DelegatedTokenPolicy)
    : Result<AuthorizedSubject, PolicyError>
  {
    if now < 0 || policy.issuer == [] || policy.audience == [] || policy.authorizedParty == []
       || policy.maxAuthAge <= 0 || policy.maxClockSkew < 0 || policy.maxTokenLifetime <= 0 then
      Failure(InvalidPolicy)
    else if claims.issuer != policy.issuer then Failure(WrongIssuer)
    else if |claims.audiences| != 1 || claims.audiences[0] != policy.audience then Failure(WrongAudience)
    else if claims.authorizedParty != policy.authorizedParty then Failure(WrongAuthorizedParty)
    else if !claims.delegated || !claims.sessionActive
            || !IsPortableIdentifier(claims.subject) || !IsPortableIdentifier(claims.sessionId)
            || !IsPortableIdentifier(claims.tokenId) || !IsPortableIdentifier(claims.parentTokenId)
            || claims.parentTokenId == claims.tokenId then
      Failure(InvalidDelegation)
    else
      var latestAllowed := CheckedAdd(now, policy.maxClockSkew);
      if latestAllowed == None then Failure(InvalidPolicy)
      else if claims.notBefore > latestAllowed.value then Failure(TokenNotYetValid)
      else if claims.expiresAt <= now then Failure(TokenExpired)
      else
        var lifetime := CheckedSub(claims.expiresAt, claims.notBefore);
        if lifetime == None then Failure(InvalidDelegation)
        else if lifetime.value <= 0 || lifetime.value > policy.maxTokenLifetime then Failure(TokenLifetimeExceeded)
        else if |claims.scopes| != 1 || claims.scopes[0] != RequiredScope(operation) then Failure(WrongScope)
        else if RequiresRecentLoa2(operation)
                && (claims.authenticatedAt == None
                    || claims.assuranceLevel < 2 || IsBlank(claims.assuranceContext)
                    || claims.authenticationMethods == []
                    || claims.authenticatedAt.value > latestAllowed.value
                    || SaturatingSub(now, claims.authenticatedAt.value) > policy.maxAuthAge) then
          Failure(AssuranceRequired)
        else Success(AuthorizedSubject(claims.subject, claims.sessionId, claims.tokenId, operation))
  }

  /** Everything the standard policy asks of a token apart from the current time. */
  predicate TimelessClaimsHold(claims: DelegatedAuthorization, operation: Operation, issuer: Text) {
    && issuer != [] && claims.issuer == issuer
    && claims.audiences == [Ascii("cliptown-api")] && claims.authorizedParty == Ascii("memebank-api")
    && claims.delegated && claims.sessionActive
    && IsPortableIdentifier(claims.subject) && IsPortableIdentifier(claims.sessionId)
    && IsPortableIdentifier(claims.tokenId) && IsPortableIdentifier(claims.parentTokenId)
    && claims.parentTokenId != claims.tokenId
    && 0 < claims.expiresAt - claims.notBefore <= 900
    && claims.scopes == [RequiredScope(operation)]
    && (RequiresRecentLoa2(operation) ==>
          && claims.authenticatedAt.Some? && claims.assuranceLevel >= 2
          && !IsBlank(claims.assuranceContext) && claims.authenticationMethods != [])
  }

  /** The first second at which the times of a token are acceptable. */
  function WindowOpens(claims: DelegatedAuthorization, operation: Operation): int
    requires RequiresRecentLoa2(operation) ==> claims.authenticatedAt.Some?
  {
    var byToken := Max(0, claims.notBefore - 60);
    if RequiresRecentLoa2(operation) then Max(byToken, claims.authenticatedAt.value - 60) else byToken
  }

  /** The last one; a clock too close to the end of `i64` cannot be advanced by the skew. */
  function WindowCloses(claims: DelegatedAuthorization, operation: Operation): int
    requires RequiresRecentLoa2(operation) ==> claims.authenticatedAt.Some?
  {
    var byToken := Min(claims.expiresAt - 1, I64_MAX - 60);
    if RequiresRecentLoa2(operation) then Min(byToken, claims.authenticatedAt.value + 600) else byToken
  }

  /** Token acceptance interval: under the standard policy the times at which fixed claims
      are accepted form one contiguous interval of at most 960 seconds. */
  lemma AcceptedTimesAreOneInterval(now: i64, claims: DelegatedAuthorization, operation: Operation, issuer: Text)
    ensures AuthorizeDelegatedOperation(now, claims, operation, NewTokenPolicy(issuer)).Success? <==>
      && TimelessClaimsHold(claims, operation, issuer)
      && WindowOpens(claims, operation) <= now <= WindowCloses(claims, operation)
    ensures TimelessClaimsHold(claims, operation, issuer) ==>
      WindowCloses(claims, operation) - WindowOpens(claims, operation) + 1 <= 960
  {
    assert |claims.audiences| == 1 ==> claims.audiences == [claims.audiences[0]];
    assert |claims.scopes| == 1 ==> claims.scopes == [claims.scopes[0]];
    assert |Ascii("cliptown-api")| == 12 && |Ascii("memebank-api")| == 12;
  }

  datatype TransferDirection = MemebankToCliptown | CliptownToMemebank

  datatype CipherAlgorithm = Xchacha20poly1305V1 | Aes256GcmV1

  datatype CipherEnvelope = CipherEnvelope(
    algorithm: CipherAlgorithm, nonce: Text, ciphertext: Text, associatedDataHash: Option<Text>, keyId: Text)

  /** `is_base64ish`: padding is allowed on the last two bytes only. */
  predicate IsBase64ish(t: Text) {
    t != [] && forall i :: 0 <= i < |t| ==> IsBase64Byte(t[i]) || (t[i] == EQUALS && i + 2 >= |t|)
  }

  function ValidateEnvelope(e: CipherEnvelope): Option<PolicyError> {
    if !(16 <= |e.nonce| <= 128) || !IsBase64ish(e.nonce)
       || e.ciphertext == [] || |e.ciphertext| > 22_369_624 || !IsBase64ish(e.ciphertext)
       || !IsPortableIdentifier(e.keyId)
       || (e.associatedDataHash.Some? &&
           (|e.associatedDataHash.value| > 128 || !IsBase64ish(e.associatedDataHash.value))) then
      Some(InvalidCipherEnvelope)
    else None
  }

  /** Letters, digits, `.`, `+` and `-`. */
  predicate IsMediaByte(b: byte) { IsAlphanumeric(b) || b == DOT || b == 43 || b == 45 }

  predicate IsMediaType(t: Text) {
    && 3 <= |t| <= 128 && |Split(t, SLASH)| == 2
    && forall i :: 0 <= i < |Split(t, SLASH)| ==>
         Split(t, SLASH)[i] != [] && forall j :: 0 <= j < |Split(t, SLASH)[i]| ==> IsMediaByte(Split(t, SLASH)[i][j])
  }

  /** A transfer request apart from its expiry. */
  datatype TransferContent = TransferContent(
    contractVersion: nat, direction: TransferDirection, sourceItemId: Text, mediaType: Text,
    contentSha256: Text, contentLength: u64, payload: CipherEnvelope, encryptedMetadata: Option<CipherEnvelope>)

  const MIN_RETENTION: int := 60
  const MAX_RETENTION: int := 30 * 24 * 60 * 60

  /** Both times are whole seconds. */
  function ValidateCreate(c: TransferContent, expiresAt: int, now: int): Option<PolicyError> {
    if now < 0 || c.contractVersion != 1 then Some(IncompatibleContract)
    else if !IsPortableIdentifier(c.sourceItemId) || !IsMediaType(c.mediaType)
            || !IsSha256Base64Url(c.contentSha256) || c.contentLength > 16 * 1024 * 1024 then
      Some(InvalidTransfer)
    else if ValidateEnvelope(c.payload).Some? then ValidateEnvelope(c.payload)
    else if c.encryptedMetadata.Some? && ValidateEnvelope(c.encryptedMetadata.value).Some? then
      ValidateEnvelope(c.encryptedMetadata.value)
    else
      var retention := CheckedSub(expiresAt, now);
      if retention == None || !(MIN_RETENTION <= retention.value <= MAX_RETENTION) then Some(InvalidRetention)
      else None
  }

  datatype TransferState = Pending | Acknowledged | Ignored | Rejected | Expired | Cancelled

  predicate IsTerminal(state: TransferState) { state != Pending }

  datatype AcknowledgementDisposition = AsAcknowledged | AsIgnored | AsRejected

  function TargetState(disposition: AcknowledgementDisposition): TransferState {
    match disposition
    case AsAcknowledged => Acknowledged
    case AsIgnored => Ignored
    case AsRejected => Rejected
  }

  predicate IsIdempotencyKey(t: Text) { 16 <= |t| <= 128 && IsPortableIdentifier(t) }

  function ValidateAcknowledge(contractVersion: nat, clientReceiptId: Text): Option<PolicyError> {
    if contractVersion != 1 || !IsIdempotencyKey(clientReceiptId) then Some(InvalidAcknowledgement) else None
  }

  function AcknowledgeState(
    now: int, expiresAt: int, current: TransferState, disposition: AcknowledgementDisposition)
    : Result<TransferState, PolicyError>
  {
    var target := TargetState(disposition);
    if current == target then Success(current)
    else if current != Pending then Failure(InvalidTransition)
    else if now >= expiresAt then Failure(TransferExpired)
    else Success(target)
  }

  function CancelState(now: int, expiresAt: int, current: TransferState): TransferState {
    if current != Pending then current
    else if now >= expiresAt then Expired
    else Cancelled
  }

  datatype IdempotentOperation = CreateOperation | AcknowledgeOperation

  datatype IdempotencyDecision = New | Replay

  type Uuid = n: nat | n < 0x1_0000_0000_0000_0000_0000_0000_0000_0000 witness 0

  /** The two routes that bind idempotency keys; both are normalised by construction. */
  datatype Route = TransfersRoute | AckRoute(transferId: Uuid)

  datatype IdempotencyBinding = IdempotencyBinding(
    subject: Uuid, key: Text, operation: IdempotentOperation, route: Route, digest: Text, expiresAt: int)

  function EvaluateIdempotency(
    now: int, existing: Option<IdempotencyBinding>, subject: Uuid, key: Text,
    operation: IdempotentOperation, route: Route, digest: Text): Result<IdempotencyDecision, PolicyError>
  {
    if now < 0 || !IsIdempotencyKey(key) || !IsSha256Base64Url(digest) then Failure(InvalidIdempotency)
    else if existing == None then Success(New)
    else
      var binding := existing.value;
      if binding.subject != subject || binding.key != key || binding.expiresAt <= now then Success(New)
      else if binding.operation == operation && binding.route == route && binding.digest == digest then Success(Replay)
      else Failure(IdempotencyConflict)
  }
}
