/** What the answers of the batch validator and of step-up authorisation mean in the fields
    of what they judge. */
module VaultAnswers {
  import opened Text
  import opened Forms
  import opened AppVault
  import opened AppVaultPush
  import opened StepUpPolicy

  /** An authenticated device with portable names, and whether it is active. */
  lemma DeviceAnswers(d: AuthenticatedDevice)
    ensures var named := IsPortableIdentifier(d.subject) && IsPortableIdentifier(d.deviceId);
      match DeviceFault(d)
      case None => named && d.lifecycle == DeviceActive
      case Some(InvalidDeviceContext) => !named
      case Some(InactiveDevice) => named && d.lifecycle in {DevicePending, DeviceSuspended, DeviceRevoked}
      case Some(_) => false
  {
  }

  /** What each answer before the scan of a batch says, in the order of the checks. */
  lemma PrecheckAnswers(c: PushContext, ms: seq<AppVaultMutation>)
    ensures var device := DeviceFault(c.device) == None;
      var clock := device && c.now >= 0 && c.policy.maxFutureSkew >= 0;
      var app := clock && c.pathAppId == c.policy.appId;
      var size := app && 1 <= |ms| <= c.policy.maxBatchSize;
      match Precheck(c, ms)
      case Some(InvalidDeviceContext) => DeviceFault(c.device) == Some(InvalidDeviceContext)
      case Some(InactiveDevice) => DeviceFault(c.device) == Some(InactiveDevice)
      case Some(InvalidClock) =>
        device && (!clock || (size && c.requestValid && c.now + c.policy.maxFutureSkew > I64_MAX))
      case Some(WrongApplication) => clock && !app
      case Some(EmptyBatch) => app && |ms| == 0
      case Some(BatchTooLarge) => app && |ms| > 0 && |ms| > c.policy.maxBatchSize
      case Some(InvalidMutation) => size && !c.requestValid
      case Some(_) => false
      case None => size && c.requestValid && c.now + c.policy.maxFutureSkew <= I64_MAX
  {
  }

  /** What each answer on one mutation of a batch says, in the order of the checks; the last
      word is the signature verifier's. */
  lemma MutationAnswers(c: PushContext, ms: seq<AppVaultMutation>, i: nat)
    requires i < |ms|
    ensures var m, latest := ms[i], c.now + c.policy.maxFutureSkew;
      var app := m.appId == c.pathAppId;
      var space := app && m.namespace in c.policy.allowedNamespaces;
      var source := space && m.sourceDeviceId == c.device.deviceId;
      var timely := source && m.createdAt <= latest && m.updatedAt <= latest;
      var novel := timely && forall j :: 0 <= j < i ==> ms[j].mutationId != m.mutationId;
      var first := novel && forall j :: 0 <= j < i ==>
        !(ms[j].namespace == m.namespace && ms[j].opaqueRecordId == m.opaqueRecordId
          && ms[j].sourceDeviceId == m.sourceDeviceId && ms[j].logicalClock == m.logicalClock);
      var ranged := first && m.logicalClock <= 0x7FFF_FFFF_FFFF_FFFF;
      && (ranged ==> FaultAt(c, ms, i) == c.verify(m))
      && (!ranged ==>
            match FaultAt(c, ms, i)
            case Some(WrongApplication) => !app
            case Some(WrongNamespace) => app && !space
            case Some(SourceDeviceMismatch) => space && !source
            case Some(FutureMutation) => source && !timely
            case Some(DuplicateMutation) => timely && !novel
            case Some(DuplicateRecordClock) => novel && !first
            case Some(LogicalClockOutOfRange) => first && !ranged
            case Some(_) => false
            case None => false)
  {
    RecordClocksDiffer(ms, i);
  }

  lemma RecordClocksDiffer(ms: seq<AppVaultMutation>, i: nat)
    requires i < |ms|
    ensures (exists j :: 0 <= j < i && RecordClockOf(ms[j]) == RecordClockOf(ms[i])) <==>
      exists j :: 0 <= j < i && ms[j].namespace == ms[i].namespace && ms[j].opaqueRecordId == ms[i].opaqueRecordId
        && ms[j].sourceDeviceId == ms[i].sourceDeviceId && ms[j].logicalClock == ms[i].logicalClock
  {
    if j :| 0 <= j < i && ms[j].namespace == ms[i].namespace && ms[j].opaqueRecordId == ms[i].opaqueRecordId
            && ms[j].sourceDeviceId == ms[i].sourceDeviceId && ms[j].logicalClock == ms[i].logicalClock {
      assert RecordClockOf(ms[j]) == RecordClockOf(ms[i]);
    }
  }

  /** A valid context: portable names, one of four methods, a normalised route, a digest. */
  lemma ContextExactly(r: RequestContext)
    ensures ValidContext(r) <==>
      && IsPortableIdentifier(r.subject) && IsPortableIdentifier(r.deviceId)
      && r.method_ in {[80, 79, 83, 84], [80, 85, 84], [80, 65, 84, 67, 72], [68, 69, 76, 69, 84, 69]}
      && IsNormalizedRoute(r.route) && IsSha256Base64(r.bodyHash)
      && (r.target.Some? ==> IsPortableIdentifier(r.target.value))
  {
    assert Ascii("POST") == [80, 79, 83, 84] && Ascii("PUT") == [80, 85, 84];
    assert Ascii("PATCH") == [80, 65, 84, 67, 72] && Ascii("DELETE") == [68, 69, 76, 69, 84, 69];
  }

  /** What each answer on a challenge says, in the order of the checks. */
  lemma ChallengeAnswers(now: i64, c: Challenge, policy: Policy)
    ensures var clock := now >= 0 && policy.maxLifetime > 0 && policy.maxClockSkew >= 0;
      var open := clock && !c.consumed && !c.invalidated;
      var formed := open && IsPortableIdentifier(c.id) && c.audience == policy.audience && ValidContext(c.context)
                    && 0 < c.expiresAt - c.createdAt <= policy.maxLifetime;
      var begun := formed && c.createdAt <= now + policy.maxClockSkew <= I64_MAX;
      match ChallengeFault(now, c, policy)
      case Some(InvalidClock) => !clock || (formed && now + policy.maxClockSkew > I64_MAX)
      case Some(TerminalChallenge) => clock && !open
      case Some(InvalidChallenge) => open && !formed
      case Some(ChallengeNotYetValid) => formed && now + policy.maxClockSkew < c.createdAt
      case Some(ChallengeExpired) => begun && c.expiresAt <= now
      case Some(_) => false
      case None => begun && now < c.expiresAt
  {
  }

  /** What each answer on a proof says, in the order of the checks. */
  lemma ProofAnswers(now: i64, c: Challenge, p: Proof, proofValid: bool, policy: Policy)
    requires ChallengeFault(now, c, policy) == None
    ensures var same := proofValid && p.issuer == policy.issuer && p.audience == policy.audience == c.audience
                        && p.subject == c.context.subject && p.challengeId == c.id && p.action == c.context.action;
      var lifetime := same && 0 < p.expiresAt - p.issuedAt <= policy.maxLifetime;
      var issued := lifetime && p.issuedAt <= now + policy.maxClockSkew;
      var live := issued && now < p.expiresAt;
      var after := live && p.issuedAt >= c.createdAt - policy.maxClockSkew;
      match ProofFault(now, c, p, proofValid, policy)
      case Some(InvalidProof) => !proofValid || (same && !(I64_MIN <= p.expiresAt - p.issuedAt <= I64_MAX))
      case Some(ProofContextMismatch) => proofValid && !same
      case Some(ProofLifetimeExceeded) => same && !lifetime
      case Some(ProofNotYetValid) => lifetime && !issued
      case Some(ProofExpired) => issued && !live
      case Some(ProofPredatesChallenge) => live && !after
      case Some(ProofOutlivesChallenge) => after && p.expiresAt > c.expiresAt
      case Some(_) => false
      case None => after && p.expiresAt <= c.expiresAt
  {
  }

  /** Step-up authorisation, whole: accepted exactly for an active device, a valid request, a
      good challenge made for just this request by just this device, a good proof and a
      verified signature; it then names this challenge, this proof and this instant. Otherwise
      the first of these that fails is reported, the verifier's refusal as it is. */
  lemma StepUpAnswers(
    now: i64, request: RequestContext, c: Challenge, p: Proof, device: AuthenticatedDevice, policy: Policy,
    proofValid: bool, rejected: Option<PolicyError>)
    ensures var active, request_ := DeviceFault(device) == None, ValidContext(request);
      var challenged := active && request_ && ChallengeFault(now, c, policy) == None;
      var meant := challenged && request.subject == device.subject && request.deviceId == device.deviceId
                   && c.context == request;
      var proved := meant && ProofFault(now, c, p, proofValid, policy) == None;
      match ValidateStepUp(now, request, c, p, device, policy, proofValid, rejected)
      case Success(consumption) =>
        proved && rejected == None && consumption == Consumption(c.id, p.id, now)
      case Failure(error) =>
        if !active then Some(error) == DeviceFault(device)
        else if !request_ then error == InvalidRequestContext
        else if !challenged then Some(error) == ChallengeFault(now, c, policy)
        else if !meant then error == RequestContextMismatch
        else if !proved then Some(error) == ProofFault(now, c, p, proofValid, policy)
        else Some(error) == rejected
  {
  }
}
