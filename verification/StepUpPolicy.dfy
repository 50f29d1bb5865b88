/** One-time step-up authorisation stated twice: as the Rust policy and as the WHERE clause
    of the consuming database function. */
module StepUpPolicy {
  import opened Text
  import opened Forms
  import opened AppVault

  datatype StepUpAction =
    | EnrollDevice | RevokeDevice | UpdateSecuritySettings | ChangeRecoveryChannel | ExportAppVault | RecoverAccount

  datatype RequestContext = RequestContext(
    subject: Text, deviceId: Text, action: StepUpAction, method_: Text, route: Text,
    target: Option<Text>, bodyHash: Text)

  /** Times of the Rust values are whole seconds. */
  datatype Challenge = Challenge(
    id: Text, context: RequestContext, audience: Text, createdAt: i64, expiresAt: i64,
    consumed: bool, invalidated: bool)

  datatype Proof = Proof(
    id: Text, issuer: Text, audience: Text, subject: Text, challengeId: Text, action: StepUpAction,
    issuedAt: i64, expiresAt: i64)

  datatype Policy = Policy(issuer: Text, audience: Text, maxLifetime: i64, maxClockSkew: i64)

  const ISSUER: Text := Ascii("https://3fa.app")
  const AUDIENCE: Text := Ascii("cliptown")
  const DEFAULT_POLICY: Policy := Policy(ISSUER, AUDIENCE, 300, 300)

  datatype Consumption = Consumption(challengeId: Text, proofId: Text, consumedAt: i64)

  predicate IsSensitiveMethod(m: Text) {
    m == Ascii("POST") || m == Ascii("PUT") || m == Ascii("PATCH") || m == Ascii("DELETE")
  }

  predicate ValidContext(r: RequestContext) {
    && IsPortableIdentifier(r.subject) && IsPortableIdentifier(r.deviceId) && IsSensitiveMethod(r.method_)
    && IsNormalizedRoute(r.route) && IsSha256Base64(r.bodyHash)
    && (r.target.Some? ==> IsPortableIdentifier(r.target.value))
  }

  function ChallengeFault(now: i64, c: Challenge, policy: Policy): Option<PolicyError> {
    if now < 0 || policy.maxLifetime <= 0 || policy.maxClockSkew < 0 then Some(InvalidClock)
    else if c.consumed || c.invalidated then Some(TerminalChallenge)
    else if !IsPortableIdentifier(c.id) || c.audience != policy.audience || !ValidContext(c.context) then
      Some(InvalidChallenge)
    else
      var lifetime := CheckedSub(c.expiresAt, c.createdAt);
      var latest := CheckedAdd(now, policy.maxClockSkew);
      if lifetime == None || lifetime.value <= 0 || lifetime.value > policy.maxLifetime then Some(InvalidChallenge)
      else if latest == None then Some(InvalidClock)
      else if c.createdAt > latest.value then Some(ChallengeNotYetValid)
      else if c.expiresAt <= now then Some(ChallengeExpired)
      else None
  }

  function ProofFault(now: i64, c: Challenge, p: Proof, proofValid: bool, policy: Policy): Option<PolicyError> {
    if !proofValid then Some(InvalidProof)
    else if p.issuer != policy.issuer || p.audience != policy.audience || p.audience != c.audience
            || p.subject != c.context.subject || p.challengeId != c.id || p.action != c.context.action then
      Some(ProofContextMismatch)
    else
      var lifetime := CheckedSub(p.expiresAt, p.issuedAt);
      var latest := CheckedAdd(now, policy.maxClockSkew);
      if lifetime == None then Some(InvalidProof)
      else if lifetime.value <= 0 || lifetime.value > policy.maxLifetime then Some(ProofLifetimeExceeded)
      else if latest == None then Some(InvalidClock)
      else if p.issuedAt > latest.value then Some(ProofNotYetValid)
      else if p.expiresAt <= now then Some(ProofExpired)
      else if p.issuedAt < SaturatingSub(c.createdAt, policy.maxClockSkew) then Some(ProofPredatesChallenge)
      else if p.expiresAt > c.expiresAt then Some(ProofOutlivesChallenge)
      else None
  }

  /** The times and fields of a challenge and its proof are acceptable at `now`. */
  ghost predicate AcceptedPair(now: i64, c: Challenge, p: Proof, policy: Policy) {
    ChallengeFault(now, c, policy) == None && ProofFault(now, c, p, true, policy) == None
  }

  /** Every accepted proof lies inside the window of its challenge if and only if the policy
      allows no clock skew (or accepts nothing at all): a positive skew admits proofs issued
      before their challenges were created, whatever the valid context. */
  lemma ProofInsideWindowExactly(policy: Policy, context: RequestContext)
    requires ValidContext(context)
    ensures (forall now: i64, c, p ::
               AcceptedPair(now, c, p, policy) ==> c.createdAt <= p.issuedAt < p.expiresAt <= c.expiresAt) <==>
      policy.maxClockSkew <= 0 || policy.maxLifetime <= 0
  {
    if policy.maxClockSkew > 0 && policy.maxLifetime > 0 {
      var c := Challenge([97], context, policy.audience, 1, 2, false, false);
      var p := Proof([97], policy.issuer, policy.audience, context.subject, [97], context.action, 0, 1);
      assert AcceptedPair(0, c, p, policy);
    }
  }

  /** `proofValid` is the contract crate's structural check, `rejected` the signature verifier's answer. */
  function ValidateStepUp(
    now: i64, request: RequestContext, c: Challenge, p: Proof, device: AuthenticatedDevice, policy: Policy,
    proofValid: bool, rejected: Option<PolicyError>): Result<Consumption, PolicyError>
  {
    var deviceFault, challengeFault := DeviceFault(device), ChallengeFault(now, c, policy);
    if deviceFault.Some? then Failure(deviceFault.value)
    else if !ValidContext(request) then Failure(InvalidRequestContext)
    else if challengeFault.Some? then Failure(challengeFault.value)
    else if request.subject != device.subject || request.deviceId != device.deviceId || c.context != request then
      Failure(RequestContextMismatch)
    else
      var proofFault := ProofFault(now, c, p, proofValid, policy);
      if proofFault.Some? then Failure(proofFault.value)
      else if rejected.Some? then Failure(rejected.value)
      else Success(Consumption(c.id, p.id, now))
  }

  const FIVE_MINUTES: int := 300 * SECOND

  datatype ChallengeRow = ChallengeRow(
    id: Text, userId: Text, deviceId: Text, audience: Text, action: StepUpAction, method_: Text, route: Text,
    target: Option<Text>, bodyHash: Text, createdAt: Time, expiresAt: Time,
    consumedAt: Option<Time>, invalidatedAt: Option<Time>, consumedProofId: Option<Text>)

  datatype ProofRow = ProofRow(
    id: Text, userId: Text, challengeId: Text, issuer: Text, subject: Text, audience: Text, action: StepUpAction,
    issuedAt: Time, expiresAt: Time, verifiedAt: Time, consumedAt: Option<Time>)

  /** The CHECKs on a challenge row. */
  predicate ChallengeChecks(c: ChallengeRow) {
    && c.audience == AUDIENCE && IsSensitiveMethod(c.method_) && SqlRoute(c.route) && SqlDigest(c.bodyHash)
    && (c.target.Some? ==> IsPortableIdentifier(c.target.value))
    && c.createdAt < c.expiresAt <= c.createdAt + FIVE_MINUTES
    && !(c.consumedAt.Some? && c.invalidatedAt.Some?)
    && (c.consumedAt.Some? <==> c.consumedProofId.Some?)
  }

  /** The CHECKs on a proof row that concern authorisation. */
  predicate ProofChecks(p: ProofRow) {
    && p.issuer == ISSUER && p.subject == p.userId && p.audience == AUDIENCE
    && p.issuedAt < p.expiresAt <= p.issuedAt + FIVE_MINUTES
  }

  /** The arguments of `consume_external_step_up`. */
  datatype ConsumeCall = ConsumeCall(context: RequestContext, challengeId: Text, proofId: Text)

  /** The WHERE clause for one challenge, one proof and the state of the challenge's device. */
  predicate SqlMatches(
    call: ConsumeCall, c: ChallengeRow, p: ProofRow, lifecycle: DeviceLifecycleState, now: Time)
  {
    && p.userId == c.userId && p.challengeId == c.id
    && c.userId == call.context.subject && c.deviceId == call.context.deviceId && c.id == call.challengeId
    && c.action == call.context.action && c.method_ == call.context.method_ && c.route == call.context.route
    && c.target == call.context.target && c.bodyHash == call.context.bodyHash && c.audience == AUDIENCE
    && c.consumedAt == None && c.invalidatedAt == None
    && c.createdAt <= now + FIVE_MINUTES && c.expiresAt > now
    && lifecycle == DeviceActive
    && p.id == call.proofId && p.issuer == ISSUER && p.subject == call.context.subject
    && p.audience == c.audience && p.action == c.action
    && p.issuedAt >= c.createdAt - FIVE_MINUTES && p.issuedAt <= now + FIVE_MINUTES
    && p.expiresAt <= c.expiresAt && p.expiresAt > now
    && p.verifiedAt <= now && p.consumedAt == None
  }

  /** The whole authorisation decision of the function: claims first, then the WHERE clause. */
  predicate SqlAuthorizes(
    device: AuthenticatedDevice, call: ConsumeCall, c: ChallengeRow, p: ProofRow, now: Time)
  {
    && call.context.subject == device.subject && call.context.deviceId == device.deviceId
    && SqlMatches(call, c, p, device.lifecycle, now)
  }

  /** `row` and `value` describe the same challenge, at whole seconds. */
  ghost predicate MirrorsChallenge(row: ChallengeRow, value: Challenge) {
    && value.id == row.id && value.audience == row.audience
    && value.context ==
         RequestContext(row.userId, row.deviceId, row.action, row.method_, row.route, row.target, row.bodyHash)
    && row.createdAt == value.createdAt * SECOND && row.expiresAt == value.expiresAt * SECOND
    && value.consumed == row.consumedAt.Some? && value.invalidated == row.invalidatedAt.Some?
  }

  ghost predicate MirrorsProof(row: ProofRow, value: Proof) {
    && value.id == row.id && value.issuer == row.issuer && value.audience == row.audience
    && value.subject == row.subject && value.challengeId == row.challengeId && value.action == row.action
    && row.issuedAt == value.issuedAt * SECOND && row.expiresAt == value.expiresAt * SECOND
  }

  lemma ContextFormsMeet(c: ChallengeRow, context: RequestContext)
    requires ChallengeChecks(c) && IsPortableIdentifier(context.subject) && IsPortableIdentifier(context.deviceId)
    requires context.method_ == c.method_ && context.route == c.route && context.target == c.target
    requires context.bodyHash == c.bodyHash
    ensures ValidContext(context) <==> |c.route| <= 256 && !HasControl(c.route)
  {
    RouteFormsMeet(c.route);
    BodyDigestFormsMeet(c.bodyHash);
  }

  lemma ProofWindowsMeet(now: i64, c: ChallengeRow, challenge: Challenge, p: ProofRow, proof: Proof)
    requires ChallengeChecks(c) && ProofChecks(p) && MirrorsChallenge(c, challenge) && MirrorsProof(p, proof)
    requires now + 300 <= I64_MAX
    ensures ProofFault(now, challenge, proof, true, DEFAULT_POLICY) == None <==>
      && p.subject == c.userId && p.challengeId == c.id && p.action == c.action
      && p.issuedAt >= c.createdAt - FIVE_MINUTES && p.issuedAt <= now * SECOND + FIVE_MINUTES
      && p.expiresAt <= c.expiresAt && p.expiresAt > now * SECOND
  {
  }

  lemma ChallengeWindowsMeet(now: i64, c: ChallengeRow, challenge: Challenge)
    requires ChallengeChecks(c) && MirrorsChallenge(c, challenge) && IsPortableIdentifier(c.id)
    requires ValidContext(challenge.context)
    ensures ChallengeFault(now, challenge, DEFAULT_POLICY) == None <==>
      && 0 <= now <= I64_MAX - 300
      && c.consumedAt == None && c.invalidatedAt == None
      && c.createdAt <= now * SECOND + FIVE_MINUTES && c.expiresAt > now * SECOND
  {
  }

  /** Rust/SQL agreement: for rows that meet their CHECKs, mirrored at whole seconds, an
      unconsumed and verified proof and portable row identifiers, the Rust policy accepts
      if and only if the proof is well formed, its signature is not rejected, the database
      function would authorise the call, the clock is non-negative and can be
      advanced by the skew, and the stored route is at most 256 bytes long (SQL counts
      characters) and free of control characters (SQL does not look for them). When only the
      signature is rejected, that rejection is the answer. */
  lemma PolicyAgreesWithSql(
    now: i64, request: RequestContext, c: ChallengeRow, challenge: Challenge, p: ProofRow, proof: Proof,
    device: AuthenticatedDevice, proofValid: bool, rejected: Option<PolicyError>)
    requires ChallengeChecks(c) && ProofChecks(p) && MirrorsChallenge(c, challenge) && MirrorsProof(p, proof)
    requires IsPortableIdentifier(c.id) && IsPortableIdentifier(c.userId) && IsPortableIdentifier(c.deviceId)
    requires p.verifiedAt <= now * SECOND && p.consumedAt == None
    ensures ValidateStepUp(now, request, challenge, proof, device, DEFAULT_POLICY, proofValid, rejected).Success? <==>
      && proofValid && rejected == None
      && SqlAuthorizes(device, ConsumeCall(request, c.id, p.id), c, p, now * SECOND)
      && 0 <= now <= I64_MAX - 300
      && |c.route| <= 256 && !HasControl(c.route)
    ensures
      && proofValid && SqlAuthorizes(device, ConsumeCall(request, c.id, p.id), c, p, now * SECOND)
      && 0 <= now <= I64_MAX - 300 && |c.route| <= 256 && !HasControl(c.route) ==>
        ValidateStepUp(now, request, challenge, proof, device, DEFAULT_POLICY, proofValid, rejected) ==
          match rejected { case Some(error) => Failure(error) case None => Success(Consumption(c.id, p.id, now)) }
  {
    ContextFormsMeet(c, challenge.context);
    if ValidContext(challenge.context) {
      ChallengeWindowsMeet(now, c, challenge);
      if now + 300 <= I64_MAX {
        ProofWindowsMeet(now, c, challenge, p, proof);
      }
    }
  }
}
