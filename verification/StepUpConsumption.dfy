/** Consumption of step-up proofs: the database function as a method, and any number of
    its calls interleaved statement by statement under row locks. */
module StepUpConsumption {
  import opened Text
  import opened AppVault
  import opened StepUpPolicy

  datatype Tables = Tables(
    challenges: map<Text, ChallengeRow>, proofs: map<Text, ProofRow>, devices: map<(Text, Text), DeviceLifecycleState>)

  /** The transaction-local claims, the arguments and `transaction_timestamp()`. */
  datatype Invocation = Invocation(currentUser: Text, currentDevice: Text, call: ConsumeCall, now: Time)

  datatype Outcome = Returned(authorized: bool) | RaisedForChallenge | RaisedForProof

  predicate ClaimsHold(v: Invocation) {
    v.call.context.subject == v.currentUser && v.call.context.deviceId == v.currentDevice
  }

  /** The join finds its one row combination. */
  predicate Selects(t: Tables, v: Invocation) {
    && v.call.challengeId in t.challenges && v.call.proofId in t.proofs
    && (v.call.context.subject, v.call.context.deviceId) in t.devices
    && SqlMatches(v.call, t.challenges[v.call.challengeId], t.proofs[v.call.proofId],
                  t.devices[(v.call.context.subject, v.call.context.deviceId)], v.now)
  }

  /** The WHERE clauses of the two UPDATE statements. */
  predicate ChallengeUpdatable(t: Tables, v: Invocation) {
    && v.call.challengeId in t.challenges
    && t.challenges[v.call.challengeId].userId == v.call.context.subject
    && t.challenges[v.call.challengeId].consumedAt == None && t.challenges[v.call.challengeId].invalidatedAt == None
  }

  predicate ProofUpdatable(t: Tables, v: Invocation) {
    && v.call.proofId in t.proofs
    && t.proofs[v.call.proofId].userId == v.call.context.subject
    && t.proofs[v.call.proofId].challengeId == v.call.challengeId
    && t.proofs[v.call.proofId].consumedAt == None
  }

  /** What entitles a call to a challenge and a proof, field by field. */
  ghost predicate Grants(v: Invocation, c: ChallengeRow, p: ProofRow) {
    var five, context := 300_000_000, v.call.context;
    && v.currentUser == context.subject == c.userId == p.userId == p.subject
    && v.currentDevice == context.deviceId == c.deviceId
    && v.call.challengeId == c.id == p.challengeId && v.call.proofId == p.id
    && context.action == c.action == p.action && context.method_ == c.method_ && context.route == c.route
    && context.target == c.target && context.bodyHash == c.bodyHash
    && c.audience == p.audience == Ascii("cliptown") && p.issuer == Ascii("https://3fa.app")
    && c.createdAt - five <= p.issuedAt && c.createdAt - five <= v.now && p.issuedAt - five <= v.now
    && p.verifiedAt <= v.now < p.expiresAt <= c.expiresAt
  }

  /** The call is entitled, its device active, and nothing is used up or invalidated. */
  ghost predicate MayConsume(t: Tables, v: Invocation) {
    && v.call.challengeId in t.challenges && v.call.proofId in t.proofs
    && (v.currentUser, v.currentDevice) in t.devices && t.devices[(v.currentUser, v.currentDevice)] == DeviceActive
    && var c, p := t.challenges[v.call.challengeId], t.proofs[v.call.proofId];
    && Grants(v, c, p)
    && c.consumedAt == None && c.invalidatedAt == None && p.consumedAt == None
  }

  lemma ConsumesExactly(t: Tables, v: Invocation)
    ensures ClaimsHold(v) && Selects(t, v) <==> MayConsume(t, v)
  {
  }

  function MarkChallenge(c: ChallengeRow, v: Invocation): ChallengeRow {
    c.(consumedAt := Some(v.now), consumedProofId := Some(v.call.proofId))
  }

  function MarkProof(p: ProofRow, v: Invocation): ProofRow { p.(consumedAt := Some(v.now)) }

  /** Both rows marked at the same instant. */
  function Marked(t: Tables, v: Invocation): Tables
    requires v.call.challengeId in t.challenges && v.call.proofId in t.proofs
  {
    t.(challenges := t.challenges[v.call.challengeId := MarkChallenge(t.challenges[v.call.challengeId], v)],
       proofs := t.proofs[v.call.proofId := MarkProof(t.proofs[v.call.proofId], v)])
  }

  class StepUpStore {
    var challenges: map<Text, ChallengeRow>
    var proofs: map<Text, ProofRow>
    var devices: map<(Text, Text), DeviceLifecycleState>

    function State(): Tables
      reads this
    {
      Tables(challenges, proofs, devices)
    }

    constructor (t: Tables)
      ensures State() == t
    {
      challenges, proofs, devices := t.challenges, t.proofs, t.devices;
    }

    /** Run alone, the function never raises: it marks both rows or changes nothing. */
    method Consume(v: Invocation) returns (r: Outcome)
      modifies this`challenges, this`proofs
      ensures r == Returned(old(ClaimsHold(v) && Selects(State(), v)))
      ensures old(MayConsume(State(), v)) <==> r == Returned(true)
      ensures State() == if r == Returned(true) then old(Marked(State(), v)) else old(State())
    {
      ConsumesExactly(State(), v);
      if !ClaimsHold(v) || !Selects(State(), v) {
        return Returned(false);
      }
      if !ChallengeUpdatable(State(), v) {
        return RaisedForChallenge;
      }
      var marked := challenges[v.call.challengeId := MarkChallenge(challenges[v.call.challengeId], v)];
      if !ProofUpdatable(Tables(marked, proofs, devices), v) {
        return RaisedForProof;
      }
      challenges := marked;
      proofs := proofs[v.call.proofId := MarkProof(proofs[v.call.proofId], v)];
      r := Returned(true);
    }
  }

  datatype Stage =
    | Waiting
    | RowsLocked
    | ChallengeMarked
    | BothMarked
    | Committed(authorized: bool)
    | RolledBack
    | Raised

  datatype Process = Process(invocation: Invocation, stage: Stage)

  /** Committed tables, the holders of the two row locks and the calls in progress. */
  datatype System = System(
    tables: Tables, challengeLocks: map<Text, nat>, proofLocks: map<Text, nat>, processes: seq<Process>)

  datatype Statement = Refuse | LockRows | UpdateChallenge | UpdateProof | Commit | Rollback

  predicate HoldsRows(stage: Stage) { stage == RowsLocked || stage == ChallengeMarked || stage == BothMarked }

  predicate Authorized(p: Process) { p.stage == Committed(true) }

  function At(s: System, p: nat, stage: Stage): System
    requires p < |s.processes|
  {
    s.(processes := s.processes[p := s.processes[p].(stage := stage)])
  }

  /** Ends a transaction that holds its rows. */
  function Released(s: System, p: nat, stage: Stage): System
    requires p < |s.processes|
  {
    var call := s.processes[p].invocation.call;
    At(s.(challengeLocks := s.challengeLocks - {call.challengeId}, proofLocks := s.proofLocks - {call.proofId}),
       p, stage)
  }

  /** One statement of call `p`. Its own marks stay private until it commits. */
  ghost predicate Executes(s: System, t: System, p: nat, statement: Statement) {
    && p < |s.processes|
    && var me := s.processes[p];
    var v := me.invocation;
    match statement
    case Refuse =>
      me.stage == Waiting && !(ClaimsHold(v) && Selects(s.tables, v)) && t == At(s, p, Committed(false))
    case LockRows =>
      && me.stage == Waiting && ClaimsHold(v) && Selects(s.tables, v)
      && v.call.challengeId !in s.challengeLocks && v.call.proofId !in s.proofLocks
      && t == At(s.(challengeLocks := s.challengeLocks[v.call.challengeId := p],
                    proofLocks := s.proofLocks[v.call.proofId := p]), p, RowsLocked)
    case UpdateChallenge =>
      me.stage == RowsLocked && t == At(s, p, if ChallengeUpdatable(s.tables, v) then ChallengeMarked else Raised)
    case UpdateProof =>
      me.stage == ChallengeMarked && t == At(s, p, if ProofUpdatable(s.tables, v) then BothMarked else Raised)
    case Commit =>
      && me.stage == BothMarked && v.call.challengeId in s.tables.challenges && v.call.proofId in s.tables.proofs
      && t == Released(s.(tables := Marked(s.tables, v)), p, Committed(true))
    case Rollback =>
      HoldsRows(me.stage) && t == Released(s, p, RolledBack)
  }

  predicate UnconsumedChallenge(c: ChallengeRow) { c.consumedAt == None && c.consumedProofId == None }

  ghost predicate ChallengeEvolves(s: System, t: System, id: Text)
    requires id in s.tables.challenges && id in t.tables.challenges
  {
    var before, after := s.tables.challenges[id], t.tables.challenges[id];
    || after == before
    || (&& id !in s.challengeLocks && UnconsumedChallenge(before)
        && after == before.(invalidatedAt := after.invalidatedAt))
  }

  /** Other transactions insert unconsumed rows, invalidate unlocked, unconsumed challenges
      and change devices. */
  ghost predicate Otherwise(s: System, t: System) {
    && t.challengeLocks == s.challengeLocks && t.proofLocks == s.proofLocks && t.processes == s.processes
    && Keyed(t.tables) && OneProofPerChallenge(t.tables)
    && (forall id :: id in s.tables.challenges ==> id in t.tables.challenges && ChallengeEvolves(s, t, id))
    && (forall id :: id in t.tables.challenges && id !in s.tables.challenges ==>
          UnconsumedChallenge(t.tables.challenges[id]))
    && (forall id :: id in s.tables.proofs ==> id in t.tables.proofs && t.tables.proofs[id] == s.tables.proofs[id])
    && (forall id :: id in t.tables.proofs && id !in s.tables.proofs ==> t.tables.proofs[id].consumedAt == None)
  }

  ghost predicate Next(s: System, t: System) {
    (exists p, statement :: Executes(s, t, p, statement)) || Otherwise(s, t)
  }

  ghost predicate Keyed(t: Tables) {
    && (forall id :: id in t.challenges ==> t.challenges[id].id == id)
    && (forall id :: id in t.proofs ==> t.proofs[id].id == id)
  }

  /** `UNIQUE (challenge_id)` on the proofs table. */
  ghost predicate OneProofPerChallenge(t: Tables) {
    forall a, b :: a in t.proofs && b in t.proofs && t.proofs[a].challengeId == t.proofs[b].challengeId ==> a == b
  }

  /** A challenge is consumed if and only if the proof it names is, at the same instant. */
  ghost predicate ConsumedTogether(t: Tables) {
    && (forall id :: id in t.challenges ==>
          var c := t.challenges[id];
          && (c.consumedAt.Some? <==> c.consumedProofId.Some?)
          && (c.consumedAt.Some? ==>
                && c.consumedProofId.value in t.proofs
                && t.proofs[c.consumedProofId.value].challengeId == id
                && t.proofs[c.consumedProofId.value].consumedAt == c.consumedAt))
    && (forall id :: id in t.proofs && t.proofs[id].consumedAt.Some? ==>
          var p := t.proofs[id];
          && p.challengeId in t.challenges
          && t.challenges[p.challengeId].consumedProofId == Some(id)
          && t.challenges[p.challengeId].consumedAt == p.consumedAt)
  }

  ghost predicate TablesSound(t: Tables) { Keyed(t) && OneProofPerChallenge(t) && ConsumedTogether(t) }

  ghost predicate Starts(s: System) {
    && TablesSound(s.tables) && s.challengeLocks == map[] && s.proofLocks == map[]
    && forall p :: 0 <= p < |s.processes| ==> s.processes[p].stage == Waiting
  }

  /** Step `i` of the run is a step of the system. */
  ghost predicate StepsAt(run: seq<System>, i: nat)
    requires i < |run| - 1
  {
    Next(run[i], run[i + 1])
  }

  ghost predicate IsRun(run: seq<System>) {
    && run != [] && Starts(run[0])
    && forall i :: 0 <= i < |run| - 1 ==> StepsAt(run, i)
  }

  ghost predicate ProcessSound(s: System, p: nat)
    requires p < |s.processes|
  {
    var v, stage := s.processes[p].invocation, s.processes[p].stage;
    && stage != Raised
    && (HoldsRows(stage) ==>
          && v.call.challengeId in s.challengeLocks && s.challengeLocks[v.call.challengeId] == p
          && v.call.proofId in s.proofLocks && s.proofLocks[v.call.proofId] == p
          && ChallengeUpdatable(s.tables, v) && ProofUpdatable(s.tables, v)
          && UnconsumedChallenge(s.tables.challenges[v.call.challengeId]))
    && (stage == Committed(true) ==>
          && v.call.challengeId in s.tables.challenges && v.call.proofId in s.tables.proofs
          && s.tables.challenges[v.call.challengeId].consumedProofId == Some(v.call.proofId)
          && s.tables.challenges[v.call.challengeId].consumedAt == Some(v.now)
          && s.tables.proofs[v.call.proofId].consumedAt == Some(v.now)
          && s.tables.proofs[v.call.proofId].challengeId == v.call.challengeId)
  }

  /** No two committed calls were authorised by one challenge or by one proof. */
  ghost predicate SingleUse(s: System) {
    forall p, q :: 0 <= p < q < |s.processes| && Authorized(s.processes[p]) && Authorized(s.processes[q]) ==>
      && s.processes[p].invocation.call.challengeId != s.processes[q].invocation.call.challengeId
      && s.processes[p].invocation.call.proofId != s.processes[q].invocation.call.proofId
  }

  ghost predicate Sound(s: System) {
    TablesSound(s.tables) && SingleUse(s) && forall p :: 0 <= p < |s.processes| ==> ProcessSound(s, p)
  }

  lemma MarkedKeepsTables(t: Tables, v: Invocation)
    requires TablesSound(t) && ChallengeUpdatable(t, v) && ProofUpdatable(t, v)
    ensures TablesSound(Marked(t, v))
  {
  }

  lemma CommitKeepsOthers(s: System, t: System, p: nat, q: nat)
    requires Sound(s) && Executes(s, t, p, Commit) && q < |s.processes| && q != p
    ensures ProcessSound(t, q)
  {
    assert ProcessSound(s, p) && ProcessSound(s, q);
  }

  lemma CommitKeepsSingleUse(s: System, t: System, p: nat)
    requires Sound(s) && Executes(s, t, p, Commit)
    ensures SingleUse(t)
  {
    assert ProcessSound(s, p);
    forall q | 0 <= q < |s.processes| && q != p && Authorized(s.processes[q])
      ensures s.processes[q].invocation.call.challengeId != s.processes[p].invocation.call.challengeId
      ensures s.processes[q].invocation.call.proofId != s.processes[p].invocation.call.proofId
    {
      assert ProcessSound(s, q);
    }
  }

  lemma CommitKeepsSound(s: System, t: System, p: nat)
    requires Sound(s) && Executes(s, t, p, Commit)
    ensures Sound(t)
  {
    assert ProcessSound(s, p);
    MarkedKeepsTables(s.tables, s.processes[p].invocation);
    CommitKeepsSingleUse(s, t, p);
    forall q | 0 <= q < |t.processes|
      ensures ProcessSound(t, q)
    {
      if q != p {
        CommitKeepsOthers(s, t, p, q);
      }
    }
  }

  lemma StatementKeepsProcess(s: System, t: System, p: nat, statement: Statement, q: nat)
    requires Sound(s) && Executes(s, t, p, statement) && statement != Commit && q < |s.processes|
    ensures ProcessSound(t, q)
  {
    assert ProcessSound(s, p) && ProcessSound(s, q);
    if statement == LockRows {
      assert UnconsumedChallenge(s.tables.challenges[s.processes[p].invocation.call.challengeId]);
    }
  }

  /** Every other statement leaves the committed tables alone and never raises. */
  lemma StatementKeepsSound(s: System, t: System, p: nat, statement: Statement)
    requires Sound(s) && Executes(s, t, p, statement) && statement != Commit
    ensures Sound(t)
  {
    assert t.tables == s.tables;
    forall q | 0 <= q < |t.processes|
      ensures ProcessSound(t, q)
    {
      StatementKeepsProcess(s, t, p, statement, q);
    }
    assert forall q :: 0 <= q < |t.processes| && Authorized(t.processes[q]) ==> t.processes[q] == s.processes[q];
  }

  lemma OtherwiseKeepsSound(s: System, t: System)
    requires Sound(s) && Otherwise(s, t)
    ensures Sound(t)
  {
    forall q | 0 <= q < |t.processes|
      ensures ProcessSound(t, q)
    {
      assert ProcessSound(s, q);
    }
    OtherwiseKeepsTables(s, t);
  }

  lemma OtherwiseKeepsTables(s: System, t: System)
    requires TablesSound(s.tables) && Otherwise(s, t)
    ensures TablesSound(t.tables)
  {
  }

  lemma NextKeepsSound(s: System, t: System)
    requires Sound(s) && Next(s, t)
    ensures Sound(t)
  {
    if exists p, statement :: Executes(s, t, p, statement) {
      var p, statement :| Executes(s, t, p, statement);
      if statement == Commit {
        CommitKeepsSound(s, t, p);
      } else {
        StatementKeepsSound(s, t, p, statement);
      }
    } else {
      OtherwiseKeepsSound(s, t);
    }
  }

  /** Single-use step-up: in every reachable system challenges and proofs are consumed
      together, no call has raised, and no challenge and no proof has authorised more than
      one committed call. */
  lemma {:induction false} RunKeepsSound(run: seq<System>, i: nat)
    requires IsRun(run) && i < |run|
    ensures Sound(run[i])
  {
    if i == 0 {
    } else {
      RunKeepsSound(run, i - 1);
      assert StepsAt(run, i - 1);
      NextKeepsSound(run[i - 1], run[i]);
    }
  }

  /** Both RAISE branches are unreachable: a call that has locked its rows can always
      update them. */
  lemma NeverRaises(run: seq<System>, i: nat, p: nat)
    requires IsRun(run) && i < |run| && p < |run[i].processes|
    ensures run[i].processes[p].stage != Raised
    ensures var me := run[i].processes[p];
      && (me.stage == RowsLocked ==> ChallengeUpdatable(run[i].tables, me.invocation))
      && (me.stage == ChallengeMarked ==> ProofUpdatable(run[i].tables, me.invocation))
  {
    RunKeepsSound(run, i);
    assert ProcessSound(run[i], p);
  }

  /** Calls that hold their rows or have been authorised are entitled to them. */
  ghost predicate Entitled(s: System) {
    forall p :: 0 <= p < |s.processes| && Engaged(s.processes[p].stage) ==>
      var v := s.processes[p].invocation;
      && v.call.challengeId in s.tables.challenges && v.call.proofId in s.tables.proofs
      && Grants(v, s.tables.challenges[v.call.challengeId], s.tables.proofs[v.call.proofId])
  }

  /** The rows of `t` are those of `s` apart from consumption and invalidation. */
  ghost predicate SameRows(s: Tables, t: Tables) {
    && (forall id :: id in s.challenges ==>
          && id in t.challenges
          && t.challenges[id] == s.challenges[id].(
               consumedAt := t.challenges[id].consumedAt, invalidatedAt := t.challenges[id].invalidatedAt,
               consumedProofId := t.challenges[id].consumedProofId))
    && (forall id :: id in s.proofs ==>
          id in t.proofs && t.proofs[id] == s.proofs[id].(consumedAt := t.proofs[id].consumedAt))
  }

  lemma NextKeepsRows(s: System, t: System)
    requires Next(s, t)
    ensures SameRows(s.tables, t.tables)
  {
    if exists p, statement :: Executes(s, t, p, statement) {
      var p, statement :| Executes(s, t, p, statement);
      if statement != Commit {
        assert t.tables == s.tables;
      }
    } else {
      forall id | id in s.tables.challenges
        ensures id in t.tables.challenges && t.tables.challenges[id] == s.tables.challenges[id].(
                  invalidatedAt := t.tables.challenges[id].invalidatedAt)
      {
        assert ChallengeEvolves(s, t, id);
      }
    }
  }

  predicate Engaged(stage: Stage) { HoldsRows(stage) || stage == Committed(true) }

  lemma CallMoves(s: System, t: System, p: nat, statement: Statement)
    requires Executes(s, t, p, statement)
    ensures |t.processes| == |s.processes|
    ensures forall q :: 0 <= q < |s.processes| && q != p ==> t.processes[q] == s.processes[q]
    ensures t.processes[p].invocation == s.processes[p].invocation
    ensures Engaged(t.processes[p].stage) && !Engaged(s.processes[p].stage) ==>
      ClaimsHold(s.processes[p].invocation) && Selects(s.tables, s.processes[p].invocation)
  {
  }

  lemma RowsKeepGrants(s: Tables, t: Tables, v: Invocation)
    requires SameRows(s, t) && v.call.challengeId in s.challenges && v.call.proofId in s.proofs
    requires Grants(v, s.challenges[v.call.challengeId], s.proofs[v.call.proofId])
    ensures v.call.challengeId in t.challenges && v.call.proofId in t.proofs
    ensures Grants(v, t.challenges[v.call.challengeId], t.proofs[v.call.proofId])
  {
  }

  lemma StatementKeepsEntitled(s: System, t: System, p: nat, statement: Statement)
    requires Entitled(s) && SameRows(s.tables, t.tables) && Executes(s, t, p, statement)
    ensures Entitled(t)
  {
    CallMoves(s, t, p, statement);
    forall q | 0 <= q < |t.processes| && Engaged(t.processes[q].stage)
      ensures var v := t.processes[q].invocation;
        && v.call.challengeId in t.tables.challenges && v.call.proofId in t.tables.proofs
        && Grants(v, t.tables.challenges[v.call.challengeId], t.tables.proofs[v.call.proofId])
    {
      if !Engaged(s.processes[q].stage) {
        ConsumesExactly(s.tables, s.processes[q].invocation);
      }
      RowsKeepGrants(s.tables, t.tables, s.processes[q].invocation);
    }
  }

  lemma NextKeepsEntitled(s: System, t: System)
    requires Entitled(s) && Next(s, t)
    ensures Entitled(t)
  {
    NextKeepsRows(s, t);
    if exists p, statement :: Executes(s, t, p, statement) {
      var p, statement :| Executes(s, t, p, statement);
      StatementKeepsEntitled(s, t, p, statement);
    } else {
      forall q | 0 <= q < |t.processes| && Engaged(t.processes[q].stage)
        ensures var v := t.processes[q].invocation;
          && v.call.challengeId in t.tables.challenges && v.call.proofId in t.tables.proofs
          && Grants(v, t.tables.challenges[v.call.challengeId], t.tables.proofs[v.call.proofId])
      {
        RowsKeepGrants(s.tables, t.tables, s.processes[q].invocation);
      }
    }
  }

  lemma {:induction false} RunKeepsEntitled(run: seq<System>, i: nat)
    requires IsRun(run) && i < |run|
    ensures Entitled(run[i])
  {
    if i == 0 {
    } else {
      RunKeepsEntitled(run, i - 1);
      assert StepsAt(run, i - 1);
      NextKeepsEntitled(run[i - 1], run[i]);
    }
  }

  /** An authorised call was entitled: made by the challenge's own user and device, for just
      the request challenged, with a verified, unexpired proof made for that challenge. */
  lemma AuthorizedMeans(run: seq<System>, i: nat, p: nat)
    requires IsRun(run) && i < |run| && p < |run[i].processes| && Authorized(run[i].processes[p])
    ensures var v, tables := run[i].processes[p].invocation, run[i].tables;
      && v.call.challengeId in tables.challenges && v.call.proofId in tables.proofs
      && Grants(v, tables.challenges[v.call.challengeId], tables.proofs[v.call.proofId])
  {
    RunKeepsEntitled(run, i);
  }

  /** A second authorised call for a challenge or proof is the first one. */
  lemma AuthorizedOnce(run: seq<System>, i: nat, p: nat, q: nat)
    requires IsRun(run) && i < |run| && p < |run[i].processes| && q < |run[i].processes|
    requires Authorized(run[i].processes[p]) && Authorized(run[i].processes[q])
    requires run[i].processes[p].invocation.call.challengeId == run[i].processes[q].invocation.call.challengeId
             || run[i].processes[p].invocation.call.proofId == run[i].processes[q].invocation.call.proofId
    ensures p == q
    ensures var v := run[i].processes[p].invocation;
      && v.call.challengeId in run[i].tables.challenges
      && run[i].tables.challenges[v.call.challengeId].consumedAt == Some(v.now)
      && run[i].tables.challenges[v.call.challengeId].consumedProofId == Some(v.call.proofId)
  {
    RunKeepsSound(run, i);
    assert ProcessSound(run[i], p);
  }
}
