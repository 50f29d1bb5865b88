/** The application-vault batch validator: one pass with two growing sets, and what it
    accepts and reports. */
module AppVaultPush {
  import opened Text
  import opened AppVault

  /** The fields the validator reads; times are whole seconds. */
  datatype AppVaultMutation = AppVaultMutation(
    mutationId: Text, appId: Text, namespace: Text, opaqueRecordId: Text, sourceDeviceId: Text,
    logicalClock: u64, createdAt: i64, updatedAt: i64)

  datatype AppVaultPolicy = AppVaultPolicy(
    appId: Text, allowedNamespaces: seq<Text>, maxBatchSize: usize, maxFutureSkew: i64)

  datatype ValidatedPush = ValidatedPush(mutationCount: nat, highestLogicalClock: u64)

  /** The verifier and the contract crate's own request check are arbitrary. */
  type Verifier = AppVaultMutation -> Option<PolicyError>

  datatype PushContext = PushContext(
    now: i64, pathAppId: Text, device: AuthenticatedDevice, policy: AppVaultPolicy,
    requestValid: bool, verify: Verifier)

  type RecordClock = (Text, Text, Text, u64)

  function RecordClockOf(m: AppVaultMutation): RecordClock {
    (m.namespace, m.opaqueRecordId, m.sourceDeviceId, m.logicalClock)
  }

  /** The checks before the batch is scanned, in order. */
  function Precheck(c: PushContext, ms: seq<AppVaultMutation>): Option<PolicyError> {
    if DeviceFault(c.device).Some? then DeviceFault(c.device)
    else if c.now < 0 || c.policy.maxFutureSkew < 0 then Some(InvalidClock)
    else if c.pathAppId != c.policy.appId then Some(WrongApplication)
    else if ms == [] then Some(EmptyBatch)
    else if |ms| > c.policy.maxBatchSize then Some(BatchTooLarge)
    else if !c.requestValid then Some(InvalidMutation)
    else if CheckedAdd(c.now, c.policy.maxFutureSkew) == None then Some(InvalidClock)
    else None
  }

  /** What a mutation must meet on its own. */
  predicate Admissible(c: PushContext, m: AppVaultMutation) {
    && m.appId == c.pathAppId && m.namespace in c.policy.allowedNamespaces
    && m.sourceDeviceId == c.device.deviceId
    && m.createdAt <= c.now + c.policy.maxFutureSkew && m.updatedAt <= c.now + c.policy.maxFutureSkew
    && m.logicalClock <= I64_MAX && c.verify(m) == None
  }

  /** The first failing check of mutation `i`, given that the earlier ones passed. */
  function FaultAt(c: PushContext, ms: seq<AppVaultMutation>, i: nat): Option<PolicyError>
    requires i < |ms|
  {
    var m := ms[i];
    if m.appId != c.pathAppId then Some(WrongApplication)
    else if m.namespace !in c.policy.allowedNamespaces then Some(WrongNamespace)
    else if m.sourceDeviceId != c.device.deviceId then Some(SourceDeviceMismatch)
    else if m.createdAt > c.now + c.policy.maxFutureSkew || m.updatedAt > c.now + c.policy.maxFutureSkew then
      Some(FutureMutation)
    else if exists j :: 0 <= j < i && ms[j].mutationId == m.mutationId then Some(DuplicateMutation)
    else if exists j :: 0 <= j < i && RecordClockOf(ms[j]) == RecordClockOf(m) then Some(DuplicateRecordClock)
    else if m.logicalClock > I64_MAX then Some(LogicalClockOutOfRange)
    else c.verify(m)
  }

  ghost predicate DistinctIds(ms: seq<AppVaultMutation>) {
    forall i, j :: 0 <= i < j < |ms| ==> ms[i].mutationId != ms[j].mutationId
  }

  ghost predicate DistinctRecordClocks(ms: seq<AppVaultMutation>) {
    forall i, j :: 0 <= i < j < |ms| ==> RecordClockOf(ms[i]) != RecordClockOf(ms[j])
  }

  /** What acceptance of a batch means. */
  ghost predicate Acceptable(c: PushContext, ms: seq<AppVaultMutation>) {
    && Precheck(c, ms) == None
    && (forall i :: 0 <= i < |ms| ==> Admissible(c, ms[i]))
    && DistinctIds(ms) && DistinctRecordClocks(ms)
  }

  /** `top` is the largest logical clock of the batch, or zero for an empty one. */
  ghost predicate IsHighestClock(ms: seq<AppVaultMutation>, top: u64) {
    && (forall i :: 0 <= i < |ms| ==> ms[i].logicalClock <= top)
    && (if ms == [] then top == 0 else exists i :: 0 <= i < |ms| && ms[i].logicalClock == top)
  }

  /** A batch passes every scan check exactly when its mutations are admissible and no two
      share an identifier or a record clock. */
  lemma NoFaultExactly(c: PushContext, ms: seq<AppVaultMutation>)
    ensures (forall i :: 0 <= i < |ms| ==> FaultAt(c, ms, i) == None) <==>
      && (forall i :: 0 <= i < |ms| ==> Admissible(c, ms[i]))
      && DistinctIds(ms) && DistinctRecordClocks(ms)
  {
    if forall i :: 0 <= i < |ms| ==> FaultAt(c, ms, i) == None {
      forall i, j | 0 <= i < j < |ms|
        ensures ms[i].mutationId != ms[j].mutationId && RecordClockOf(ms[i]) != RecordClockOf(ms[j])
      {
        assert FaultAt(c, ms, j) == None;
      }
      assert forall i :: 0 <= i < |ms| ==> FaultAt(c, ms, i) == None && Admissible(c, ms[i]);
    }
  }

  /** Mutation `i` is the first to fail, and `e` is its first failing check. */
  ghost predicate FirstFault(c: PushContext, ms: seq<AppVaultMutation>, i: nat, e: PolicyError) {
    i < |ms| && FaultAt(c, ms, i) == Some(e) && forall j :: 0 <= j < i ==> FaultAt(c, ms, j) == None
  }

  lemma FaultRefutes(c: PushContext, ms: seq<AppVaultMutation>, i: nat, e: PolicyError)
    requires i < |ms| && FaultAt(c, ms, i) == Some(e) && forall j :: 0 <= j < i ==> FaultAt(c, ms, j) == None
    ensures FirstFault(c, ms, i, e) && !Acceptable(c, ms)
  {
    NoFaultExactly(c, ms);
  }

  /** The two sets hold the identifiers and record clocks of the first `i` mutations. */
  ghost predicate Seen(ms: seq<AppVaultMutation>, i: nat, ids: set<Text>, clocks: set<RecordClock>)
    requires i <= |ms|
  {
    && (forall id :: id in ids <==> exists j :: 0 <= j < i && ms[j].mutationId == id)
    && (forall k :: k in clocks <==> exists j :: 0 <= j < i && RecordClockOf(ms[j]) == k)
  }

  lemma SeenExtends(ms: seq<AppVaultMutation>, i: nat, ids: set<Text>, clocks: set<RecordClock>)
    requires i < |ms| && Seen(ms, i, ids, clocks)
    ensures Seen(ms, i + 1, ids + {ms[i].mutationId}, clocks + {RecordClockOf(ms[i])})
  {
  }

  /** The first `i` mutations pass, with these sets and this largest clock. */
  ghost predicate Scanned(
    c: PushContext, ms: seq<AppVaultMutation>, i: nat, ids: set<Text>, clocks: set<RecordClock>, top: u64)
    requires i <= |ms|
  {
    && (forall j :: 0 <= j < i ==> FaultAt(c, ms, j) == None)
    && Seen(ms, i, ids, clocks)
    && top <= I64_MAX && IsHighestClock(ms[..i], top)
  }

  lemma ScannedExtends(
    c: PushContext, ms: seq<AppVaultMutation>, i: nat, ids: set<Text>, clocks: set<RecordClock>, top: u64)
    requires i < |ms| && Scanned(c, ms, i, ids, clocks, top) && FaultAt(c, ms, i) == None
    ensures Scanned(c, ms, i + 1, ids + {ms[i].mutationId}, clocks + {RecordClockOf(ms[i])},
                    Max(top, ms[i].logicalClock))
  {
    SeenExtends(ms, i, ids, clocks);
    HighestExtends(ms, i, top);
  }

  /** The checks on one mutation, answered from the two sets. */
  method CheckMutation(
    c: PushContext, ms: seq<AppVaultMutation>, i: nat, ids: set<Text>, clocks: set<RecordClock>)
    returns (fault: Option<PolicyError>)
    requires i < |ms| && Seen(ms, i, ids, clocks)
    ensures fault == FaultAt(c, ms, i)
  {
    var m, latestAllowed := ms[i], c.now + c.policy.maxFutureSkew;
    if m.appId != c.pathAppId {
      return Some(WrongApplication);
    }
    if m.namespace !in c.policy.allowedNamespaces {
      return Some(WrongNamespace);
    }
    if m.sourceDeviceId != c.device.deviceId {
      return Some(SourceDeviceMismatch);
    }
    if m.createdAt > latestAllowed || m.updatedAt > latestAllowed {
      return Some(FutureMutation);
    }
    if m.mutationId in ids {
      return Some(DuplicateMutation);
    }
    if RecordClockOf(m) in clocks {
      return Some(DuplicateRecordClock);
    }
    if m.logicalClock > I64_MAX {
      return Some(LogicalClockOutOfRange);
    }
    fault := c.verify(m);
  }

  /** Batch validator exactness: success exactly for acceptable batches, with the true count
      and largest clock, which fits PostgreSQL's BIGINT; otherwise the first failing
      precheck, or the first failing check of the first failing mutation. */
  method ValidateAppVaultPush(c: PushContext, ms: seq<AppVaultMutation>) returns (r: Result<ValidatedPush, PolicyError>)
    ensures r.Success? <==> Acceptable(c, ms)
    ensures r.Success? ==>
      r.value.mutationCount == |ms| && IsHighestClock(ms, r.value.highestLogicalClock)
      && r.value.highestLogicalClock <= I64_MAX
    ensures r.Failure? ==>
      if Precheck(c, ms).Some? then r.error == Precheck(c, ms).value
      else exists i :: FirstFault(c, ms, i, r.error)
  {
    var precheck := Precheck(c, ms);
    if precheck.Some? {
      return Failure(precheck.value);
    }
    var mutationIds: set<Text> := {};
    var recordClocks: set<RecordClock> := {};
    var highest: u64 := 0;
    var i := 0;
    while i < |ms|
      invariant 0 <= i <= |ms|
      invariant Scanned(c, ms, i, mutationIds, recordClocks, highest)
    {
      var m := ms[i];
      var fault := CheckMutation(c, ms, i, mutationIds, recordClocks);
      if fault.Some? {
        FaultRefutes(c, ms, i, fault.value);
        return Failure(fault.value);
      }
      ScannedExtends(c, ms, i, mutationIds, recordClocks, highest);
      mutationIds := mutationIds + {m.mutationId};
      recordClocks := recordClocks + {RecordClockOf(m)};
      highest := Max(highest, m.logicalClock);
      i := i + 1;
    }
    assert ms[..|ms|] == ms;
    NoFaultExactly(c, ms);
    r := Success(ValidatedPush(|ms|, highest));
  }

  lemma HighestExtends(ms: seq<AppVaultMutation>, i: nat, top: u64)
    requires i < |ms| && IsHighestClock(ms[..i], top)
    ensures IsHighestClock(ms[..i + 1], Max(top, ms[i].logicalClock))
  {
    var longer := ms[..i + 1];
    assert longer[i] == ms[i];
    assert forall j :: 0 <= j < i ==> longer[j] == ms[..i][j];
  }
}
