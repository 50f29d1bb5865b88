/** Any number of create requests interleaved statement by statement. The bindings table
    is a plain set here: its uniqueness is a consequence of the advisory lock. */
module CreateRace {
  import opened Text
  import opened TransferPolicy
  import opened TransferService

  /** Where a request stands. Writes stay private until its transaction commits. */
  datatype Stage =
    | Idle
    | Begun
    | Locked
    | Found(live: BindingRow)
    | Stale(expired: BindingRow)
    | Missed(deleted: Option<BindingRow>)
    | TransferInserted(deleted: Option<BindingRow>)
    | BindingInserted(deleted: Option<BindingRow>)
    | Answering(transferId: Uuid)
    | Committed(transferId: Uuid, created: bool)
    | Aborted

  /** `lock` is the hash of subject and key that the advisory lock is taken on. */
  datatype Process = Process(request: CreateRequest, now: Time, lock: int, stage: Stage)

  datatype System = System(
    transfers: map<Uuid, TransferRow>, bindings: set<BindingRow>, locks: map<int, nat>, processes: seq<Process>)

  datatype Statement =
    | Begin | TakeLock | SelectBinding(row: Option<BindingRow>) | DeleteStale | Answer
    | InsertTransfer | InsertBinding | Commit | Rollback

  predicate Concerns(b: BindingRow, r: CreateRequest) { b.subject == r.subject && b.key == r.key }

  predicate SameKey(p: Process, q: Process) {
    p.request.subject == q.request.subject && p.request.key == q.request.key
  }

  predicate Finished(stage: Stage) { stage.Committed? || stage.Aborted? }

  predicate HoldsLock(stage: Stage) { !Finished(stage) && stage != Idle && stage != Begun }

  predicate HasInserted(stage: Stage) { stage.TransferInserted? || stage.BindingInserted? }

  predicate Inserted(p: Process, id: Uuid) { HasInserted(p.stage) && p.request.newId == id }

  function At(s: System, p: nat, stage: Stage): System
    requires p < |s.processes|
  {
    s.(processes := s.processes[p := s.processes[p].(stage := stage)])
  }

  /** Ends a transaction: its advisory lock goes with it. */
  function Ended(s: System, p: nat, stage: Stage): System
    requires p < |s.processes|
  {
    At(s.(locks := s.locks - {s.processes[p].lock}), p, stage)
  }

  function AnswerStage(s: System, p: Process, live: BindingRow): Stage {
    match EvaluateIdempotency(
      Seconds(p.now), Some(BindingFromRow(live, p.request.subject)), p.request.subject, p.request.key,
      CreateOperation, TransfersRoute, p.request.digest)
    case Success(Replay) =>
      if live.transferId.Some? && FindOwned(s.transfers, p.request.subject, live.transferId.value).Some?
      then Answering(live.transferId.value) else Aborted
    case _ => Aborted
  }

  /** One statement of process `p`, from committed tables and its own pending writes. */
  ghost predicate Executes(s: System, t: System, p: nat, statement: Statement) {
    && p < |s.processes|
    && var me := s.processes[p];
    match statement
    case Begin =>
      me.stage == Idle && t == At(s, p, if CreateFault(me.request, me.now).Some? then Aborted else Begun)
    case TakeLock =>
      me.stage == Begun && me.lock !in s.locks && t == At(s.(locks := s.locks[me.lock := p]), p, Locked)
    case SelectBinding(row) =>
      && me.stage == Locked
      && (if row.Some? then row.value in s.bindings && Concerns(row.value, me.request)
          else forall b :: b in s.bindings ==> !Concerns(b, me.request))
      && t == At(s, p, if row == None then Missed(None)
                       else if Seconds(row.value.expiresAt) > Seconds(me.now) then Found(row.value)
                       else Stale(row.value))
    case DeleteStale =>
      me.stage.Stale? && t == At(s, p, Missed(Some(me.stage.expired)))
    case Answer =>
      && me.stage.Found?
      && var next := AnswerStage(s, me, me.stage.live);
      t == if next == Aborted then Ended(s, p, Aborted) else At(s, p, next)
    case InsertTransfer =>
      && me.stage.Missed?
      && (forall q :: 0 <= q < |s.processes| ==> !Inserted(s.processes[q], me.request.newId))
      && t == if me.request.newId in s.transfers || !SqlTransfer(NewRow(me.request, me.now)) then Ended(s, p, Aborted)
              else At(s, p, TransferInserted(me.stage.deleted))
    case InsertBinding =>
      && me.stage.TransferInserted?
      && t == if !SqlBinding(CreateBinding(me.request, me.now)) then Ended(s, p, Aborted)
              else At(s, p, BindingInserted(me.stage.deleted))
    case Commit =>
      if me.stage.Answering? then t == Ended(s, p, Committed(me.stage.transferId, false))
      else
        && me.stage.BindingInserted?
        && var remaining := if me.stage.deleted.Some? then s.bindings - {me.stage.deleted.value} else s.bindings;
        t == Ended(s.(transfers := s.transfers[me.request.newId := NewRow(me.request, me.now)],
                      bindings := remaining + {CreateBinding(me.request, me.now)}),
                   p, Committed(me.request.newId, true))
    case Rollback =>
      (me.stage == Begun && t == At(s, p, Aborted)) || (HoldsLock(me.stage) && t == Ended(s, p, Aborted))
  }

  predicate SameBindingKey(a: BindingRow, b: BindingRow) { a.subject == b.subject && a.key == b.key }

  /** An acknowledgement's binding, written while no create holds the lock of its key and
      once nothing for that key is live at its own clock reading. */
  ghost predicate AckBinds(s: System, t: System, b: BindingRow) {
    && b.operation == AcknowledgeOperation
    && (forall p :: 0 <= p < |s.processes| && HoldsLock(s.processes[p].stage) ==> !Concerns(b, s.processes[p].request))
    && (forall a :: a in s.bindings && SameBindingKey(a, b) ==> Seconds(a.expiresAt) <= Seconds(b.createdAt))
    && t.bindings == (set a | a in s.bindings && !SameBindingKey(a, b)) + {b}
  }

  /** A whole transaction of another handler: it updates a committed transfer without
      changing its owner and may bind an acknowledgement. */
  ghost predicate Touches(s: System, t: System, id: Uuid) {
    && id in s.transfers && id in t.transfers && t.transfers[id].subject == s.transfers[id].subject
    && t.transfers == s.transfers[id := t.transfers[id]] && t.locks == s.locks && t.processes == s.processes
    && (t.bindings == s.bindings || exists b :: AckBinds(s, t, b))
  }

  ghost predicate Next(s: System, t: System) {
    (exists p, statement :: Executes(s, t, p, statement)) || (exists id :: Touches(s, t, id))
  }

  ghost predicate UniqueBindings(bindings: set<BindingRow>) {
    forall a, b :: a in bindings && b in bindings && a.subject == b.subject && a.key == b.key ==> a == b
  }

  ghost predicate Starts(s: System) {
    && s.locks == map[] && UniqueBindings(s.bindings)
    && (forall p :: 0 <= p < |s.processes| ==> s.processes[p].stage == Idle)
    && (forall p, q :: 0 <= p < q < |s.processes| && SameKey(s.processes[p], s.processes[q]) ==>
          s.processes[p].lock == s.processes[q].lock)
  }

  /** Step `i` of the run is a step of the system. */
  ghost predicate StepsAt(run: seq<System>, i: nat)
    requires i < |run| - 1
  {
    Next(run[i], run[i + 1])
  }

  /** A run: any sequence of steps from a start. */
  ghost predicate IsRun(run: seq<System>) {
    && run != [] && Starts(run[0])
    && forall i :: 0 <= i < |run| - 1 ==> StepsAt(run, i)
  }

  function BindingOf(p: Process): BindingRow { CreateBinding(p.request, p.now) }

  predicate Outlives(b: BindingRow, p: Process) { Seconds(p.now) < Seconds(b.expiresAt) }

  /** `b` is the create binding that answers `p` with transfer `id`. */
  predicate Answers(b: BindingRow, p: Process, id: Uuid) {
    && Concerns(b, p.request) && b.operation == CreateOperation
    && b.transferId == Some(id) && b.digest == p.request.digest
  }

  /** What holds of one process in a system. */
  ghost predicate ProcessSound(s: System, p: nat)
    requires p < |s.processes|
  {
    var me := s.processes[p];
    && (HoldsLock(me.stage) ==> me.lock in s.locks && s.locks[me.lock] == p)
    && (me.stage != Idle && me.stage != Aborted ==> Outlives(BindingOf(me), me))
    && match me.stage
       case Found(b) => b in s.bindings && Concerns(b, me.request) && Outlives(b, me)
       case Stale(b) => b in s.bindings && Concerns(b, me.request) && Seconds(b.expiresAt) <= Seconds(me.now)
       case Missed(d) => OnlyDeleted(s, me, d)
       case TransferInserted(d) => OnlyDeleted(s, me, d)
       case BindingInserted(d) => OnlyDeleted(s, me, d)
       case Answering(id) =>
         id in s.transfers && exists b :: b in s.bindings && Answers(b, me, id) && Outlives(b, me)
       case Committed(id, _) => id in s.transfers
       case _ => true
  }

  /** The only committed binding for the key, if any, is the one this transaction deleted. */
  ghost predicate OnlyDeleted(s: System, me: Process, deleted: Option<BindingRow>) {
    && (deleted.Some? ==>
          deleted.value in s.bindings && Concerns(deleted.value, me.request)
          && Seconds(deleted.value.expiresAt) <= Seconds(me.now))
    && forall b :: b in s.bindings && Concerns(b, me.request) ==> deleted == Some(b)
  }

  ghost predicate KeysAccounted(start: System, s: System) {
    forall id :: id in s.transfers <==>
      id in start.transfers || exists p :: 0 <= p < |s.processes| && CreatedBy(s.processes[p], id)
  }

  /** Created transfers are new and pairwise different. */
  ghost predicate CreatedDistinct(start: System, s: System) {
    && (forall p :: 0 <= p < |s.processes| && Created(s.processes[p]) ==>
          s.processes[p].stage.transferId !in start.transfers)
    && (forall p, q :: 0 <= p < q < |s.processes| && Created(s.processes[p]) && Created(s.processes[q]) ==>
          s.processes[p].stage.transferId != s.processes[q].stage.transferId)
  }

  /** Transfers inserted but not committed are new and pairwise different. */
  ghost predicate PendingDistinct(s: System) {
    && (forall p :: 0 <= p < |s.processes| && HasInserted(s.processes[p].stage) ==>
          s.processes[p].request.newId !in s.transfers)
    && (forall p, q :: 0 <= p < q < |s.processes| && HasInserted(s.processes[p].stage)
                       && HasInserted(s.processes[q].stage) ==>
          s.processes[p].request.newId != s.processes[q].request.newId)
  }

  /** Transfers are those of the start and one for each request that created one. */
  ghost predicate TransfersAccounted(start: System, s: System) {
    KeysAccounted(start, s) && CreatedDistinct(start, s) && PendingDistinct(s)
  }

  predicate Created(p: Process) { p.stage.Committed? && p.stage.created }

  predicate CreatedBy(p: Process, id: Uuid) { Created(p) && p.stage.transferId == id }

  /** Processes keep their request, clock reading and lock. */
  ghost predicate SameProcesses(s: System, t: System) {
    && |s.processes| == |t.processes|
    && forall p :: 0 <= p < |s.processes| ==> t.processes[p] == s.processes[p].(stage := t.processes[p].stage)
  }

  ghost predicate SharedLocks(s: System) {
    forall p, q :: 0 <= p < |s.processes| && 0 <= q < |s.processes| && SameKey(s.processes[p], s.processes[q]) ==>
      s.processes[p].lock == s.processes[q].lock
  }

  ghost predicate LockSafe(s: System) {
    && SharedLocks(s) && UniqueBindings(s.bindings)
    && forall p :: 0 <= p < |s.processes| ==> ProcessSound(s, p)
  }

  lemma HoldersAgree(s: System, p: nat, q: nat)
    requires LockSafe(s) && p < |s.processes| && q < |s.processes|
    requires SameKey(s.processes[p], s.processes[q])
    requires HoldsLock(s.processes[p].stage) && HoldsLock(s.processes[q].stage)
    ensures p == q
  {
    assert ProcessSound(s, p) && ProcessSound(s, q);
  }

  ghost predicate Commits(s: System, t: System, p: nat)
    requires p < |s.processes|
  {
    s.processes[p].stage.BindingInserted? && Executes(s, t, p, Commit)
  }

  /** Apart from a committing create, a step leaves the tables alone and moves one process. */
  ghost predicate Quiet(s: System, t: System, p: nat) {
    && p < |s.processes| && SameProcesses(s, t)
    && (forall q :: 0 <= q < |s.processes| && q != p ==> t.processes[q] == s.processes[q])
    && t.transfers == s.transfers && t.bindings == s.bindings
    && (|| t.locks == s.locks
        || (s.processes[p].lock !in s.locks && t.locks == s.locks[s.processes[p].lock := p])
        || (HoldsLock(s.processes[p].stage) && t.locks == s.locks - {s.processes[p].lock}))
    && !Created(s.processes[p]) && !Created(t.processes[p])
    && (HasInserted(t.processes[p].stage) ==>
          || HasInserted(s.processes[p].stage)
          || (&& s.processes[p].request.newId !in s.transfers
              && forall q :: 0 <= q < |s.processes| ==> !Inserted(s.processes[q], s.processes[p].request.newId)))
  }

  lemma StageMoves(s: System, t: System, p: nat, statement: Statement)
    requires Executes(s, t, p, statement)
    ensures |t.processes| == |s.processes|
    ensures forall q :: 0 <= q < |s.processes| && q != p ==> t.processes[q] == s.processes[q]
    ensures t.processes[p].stage.Committed? <==> statement == Commit
    ensures statement != Commit ==> t.transfers == s.transfers && t.bindings == s.bindings
    ensures !s.processes[p].stage.Committed?
  {
  }

  lemma StepShape(s: System, t: System, p: nat, statement: Statement)
    requires Executes(s, t, p, statement)
    ensures Commits(s, t, p) || Quiet(s, t, p)
  {
    if statement != Commit {
      QuietUnlessCommit(s, t, p, statement);
    }
  }

  lemma QuietUnlessCommit(s: System, t: System, p: nat, statement: Statement)
    requires Executes(s, t, p, statement) && statement != Commit
    ensures Quiet(s, t, p)
  {
    StageMoves(s, t, p, statement);
    if statement == InsertTransfer || statement == InsertBinding {
      assert t.bindings == s.bindings;
    } else {
      assert !HasInserted(t.processes[p].stage);
    }
  }

  lemma QuietPreservesOthers(s: System, t: System, p: nat, q: nat)
    requires LockSafe(s) && Quiet(s, t, p) && q < |s.processes| && p != q
    ensures ProcessSound(t, q)
  {
    assert ProcessSound(s, q) && ProcessSound(s, p);
  }

  lemma CommitPreservesOthers(s: System, t: System, p: nat, q: nat)
    requires LockSafe(s) && p < |s.processes| && q < |s.processes| && p != q && Commits(s, t, p)
    ensures ProcessSound(t, q)
  {
    assert ProcessSound(s, q) && ProcessSound(s, p);
    var me, other := s.processes[p], s.processes[q];
    if HoldsLock(other.stage) {
      assert !SameKey(me, other) by {
        if SameKey(me, other) {
          HoldersAgree(s, p, q);
        }
      }
      assert forall b :: Concerns(b, other.request) ==> (b in t.bindings <==> b in s.bindings);
    }
  }

  lemma CommitKeepsUnique(s: System, t: System, p: nat)
    requires LockSafe(s) && p < |s.processes| && Commits(s, t, p)
    ensures UniqueBindings(t.bindings) && SameProcesses(s, t)
  {
    assert ProcessSound(s, p);
  }

  /** A validated request lives at least a minute longer than its clock reading. */
  lemma CreatedOutlives(r: CreateRequest, now: Time)
    requires CreateFault(r, now) == None
    ensures Seconds(now) < Seconds(CreateBinding(r, now).expiresAt)
  {
  }

  lemma OwnCommitSound(s: System, t: System, p: nat)
    requires LockSafe(s) && Executes(s, t, p, Commit)
    ensures ProcessSound(t, p)
  {
    assert ProcessSound(s, p);
  }

  lemma OwnAnswerSound(s: System, t: System, p: nat)
    requires LockSafe(s) && Executes(s, t, p, Answer)
    ensures ProcessSound(t, p)
  {
    assert ProcessSound(s, p) && s.processes[p].stage.live in s.bindings;
  }

  lemma OwnStepSound(s: System, t: System, p: nat, statement: Statement)
    requires LockSafe(s) && Executes(s, t, p, statement)
    ensures ProcessSound(t, p)
  {
    var me := s.processes[p];
    if statement == Commit {
      OwnCommitSound(s, t, p);
    } else if statement == Answer {
      OwnAnswerSound(s, t, p);
    } else {
      assert ProcessSound(s, p);
      if statement == Begin && CreateFault(me.request, me.now) == None {
        CreatedOutlives(me.request, me.now);
      }
    }
  }

  lemma StepKeepsLockSafe(s: System, t: System, p: nat, statement: Statement)
    requires LockSafe(s) && Executes(s, t, p, statement)
    ensures LockSafe(t) && SameProcesses(s, t)
  {
    StepShape(s, t, p, statement);
    var quiet := Quiet(s, t, p);
    if !quiet {
      CommitKeepsUnique(s, t, p);
    }
    forall q | 0 <= q < |t.processes|
      ensures ProcessSound(t, q)
    {
      if q == p {
        OwnStepSound(s, t, p, statement);
      } else if quiet {
        QuietPreservesOthers(s, t, p, q);
      } else {
        CommitPreservesOthers(s, t, p, q);
      }
    }
  }

  lemma QuietKeepsKeys(start: System, s: System, t: System, p: nat)
    requires KeysAccounted(start, s) && CreatedDistinct(start, s) && Quiet(s, t, p)
    ensures KeysAccounted(start, t) && CreatedDistinct(start, t)
  {
    assert forall q, id :: 0 <= q < |s.processes| ==>
      (CreatedBy(t.processes[q], id) <==> CreatedBy(s.processes[q], id));
  }

  lemma QuietKeepsPending(s: System, t: System, p: nat)
    requires PendingDistinct(s) && Quiet(s, t, p)
    ensures PendingDistinct(t)
  {
  }

  /** A committing create adds its own transfer and nothing else. */
  ghost predicate CommitEffect(s: System, t: System, p: nat) {
    && p < |s.processes| && |t.processes| == |s.processes|
    && HasInserted(s.processes[p].stage)
    && t.processes[p] == s.processes[p].(stage := Committed(s.processes[p].request.newId, true))
    && (forall q :: 0 <= q < |s.processes| && q != p ==> t.processes[q] == s.processes[q])
    && t.transfers.Keys == s.transfers.Keys + {s.processes[p].request.newId}
  }

  lemma CommitShape(s: System, t: System, p: nat)
    requires p < |s.processes| && Commits(s, t, p)
    ensures CommitEffect(s, t, p)
  {
  }

  lemma CommitKeepsKeys(start: System, s: System, t: System, p: nat)
    requires KeysAccounted(start, s) && CommitEffect(s, t, p)
    ensures KeysAccounted(start, t)
  {
    var created := s.processes[p].request.newId;
    forall id
      ensures id in t.transfers <==>
        id in start.transfers || exists q :: 0 <= q < |t.processes| && CreatedBy(t.processes[q], id)
    {
      if id == created {
        assert CreatedBy(t.processes[p], id);
      } else if exists q :: 0 <= q < |s.processes| && CreatedBy(s.processes[q], id) {
        var q :| 0 <= q < |s.processes| && CreatedBy(s.processes[q], id);
        assert CreatedBy(t.processes[q], id);
      }
    }
  }

  lemma CommitKeepsDistinct(start: System, s: System, t: System, p: nat)
    requires KeysAccounted(start, s) && CreatedDistinct(start, s) && PendingDistinct(s) && CommitEffect(s, t, p)
    ensures CreatedDistinct(start, t)
  {
    assert s.processes[p].request.newId !in start.transfers;
    assert forall q :: 0 <= q < |s.processes| && Created(s.processes[q]) ==>
      CreatedBy(s.processes[q], s.processes[q].stage.transferId);
  }

  lemma CommitKeepsPending(s: System, t: System, p: nat)
    requires PendingDistinct(s) && CommitEffect(s, t, p)
    ensures PendingDistinct(t)
  {
  }

  lemma StepKeepsAccounts(start: System, s: System, t: System, p: nat, statement: Statement)
    requires TransfersAccounted(start, s) && Executes(s, t, p, statement)
    ensures TransfersAccounted(start, t)
  {
    StepShape(s, t, p, statement);
    if Quiet(s, t, p) {
      QuietKeepsKeys(start, s, t, p);
      QuietKeepsPending(s, t, p);
    } else {
      CommitShape(s, t, p);
      CommitKeepsKeys(start, s, t, p);
      CommitKeepsDistinct(start, s, t, p);
      CommitKeepsPending(s, t, p);
    }
  }

  lemma TouchKeepsLockSafe(s: System, t: System, id: Uuid)
    requires LockSafe(s) && Touches(s, t, id)
    ensures LockSafe(t) && SameProcesses(s, t)
  {
    assert t.transfers.Keys == s.transfers.Keys;
    if t.bindings != s.bindings {
      var b :| AckBinds(s, t, b);
      forall q | 0 <= q < |t.processes|
        ensures ProcessSound(t, q)
      {
        AckBindsPreserves(s, t, b, q);
      }
    } else {
      forall q | 0 <= q < |t.processes|
        ensures ProcessSound(t, q)
      {
        assert ProcessSound(s, q);
      }
    }
  }

  lemma AckBindsPreserves(s: System, t: System, b: BindingRow, q: nat)
    requires q < |s.processes| && ProcessSound(s, q) && AckBinds(s, t, b)
    requires t.locks == s.locks && t.processes == s.processes && t.transfers.Keys == s.transfers.Keys
    ensures ProcessSound(t, q)
  {
    var other := s.processes[q];
    if HoldsLock(other.stage) {
      assert forall a :: Concerns(a, other.request) ==> (a in t.bindings <==> a in s.bindings);
    }
  }

  lemma TouchKeepsAccounts(start: System, s: System, t: System, id: Uuid)
    requires TransfersAccounted(start, s) && Touches(s, t, id)
    ensures TransfersAccounted(start, t)
  {
    assert t.transfers.Keys == s.transfers.Keys;
  }

  lemma NextKeeps(start: System, s: System, t: System)
    requires LockSafe(s) && TransfersAccounted(start, s) && Next(s, t)
    ensures LockSafe(t) && TransfersAccounted(start, t) && SameProcesses(s, t)
  {
    if exists p, statement :: Executes(s, t, p, statement) {
      var p, statement :| Executes(s, t, p, statement);
      StepKeepsLockSafe(s, t, p, statement);
      StepKeepsAccounts(start, s, t, p, statement);
    } else {
      var id :| Touches(s, t, id);
      TouchKeepsLockSafe(s, t, id);
      TouchKeepsAccounts(start, s, t, id);
    }
  }

  /** In every reachable system each key has at most one binding and at most one request
      past its lock, and the transfers are exactly those of the start and one for each
      request that created one, under pairwise distinct identifiers. */
  lemma {:induction false} RunKeepsSafe(run: seq<System>, i: nat)
    requires IsRun(run) && i < |run|
    ensures LockSafe(run[i]) && TransfersAccounted(run[0], run[i]) && SameProcesses(run[0], run[i])
  {
    if i == 0 {
    } else {
      RunKeepsSafe(run, i - 1);
      assert StepsAt(run, i - 1);
      NextKeeps(run[0], run[i - 1], run[i]);
    }
  }

  /** Mutual exclusion: in every run at most one request per key is past its lock. */
  lemma OneHolderPerKey(run: seq<System>, i: nat, p: nat, q: nat)
    requires IsRun(run) && i < |run| && p < |run[i].processes| && q < |run[i].processes|
    requires SameKey(run[i].processes[p], run[i].processes[q])
    requires HoldsLock(run[i].processes[p].stage) && HoldsLock(run[i].processes[q].stage)
    ensures p == q
  {
    RunKeepsSafe(run, i);
    HoldersAgree(run[i], p, q);
  }

  ghost predicate HasBinding(s: System, p: Process, id: Uuid) {
    exists b :: b in s.bindings && Answers(b, p, id)
  }

  /** Whatever the clocks, a request that commits is answered with the binding its key has
      at that moment, and that binding is a create's and carries its digest. */
  lemma CommitAnswersWithBinding(run: seq<System>, i: nat, t: System, p: nat)
    requires IsRun(run) && i < |run| && p < |run[i].processes| && Executes(run[i], t, p, Commit)
    ensures t.processes[p].stage.Committed?
    ensures HasBinding(t, t.processes[p], t.processes[p].stage.transferId)
  {
    RunKeepsSafe(run, i);
    var me := run[i].processes[p];
    assert ProcessSound(run[i], p);
    if me.stage.BindingInserted? {
      assert BindingOf(me) in t.bindings;
    } else {
      var b :| b in run[i].bindings && Answers(b, me, me.stage.transferId);
      assert b in t.bindings;
    }
  }

  /** A commit under a bound key keeps the binding and creates nothing exactly when the
      binding outlives the clock reading of the request. */
  lemma CommitDecides(s: System, t: System, p: nat, b: BindingRow)
    requires LockSafe(s) && Executes(s, t, p, Commit)
    requires b in s.bindings && Concerns(b, s.processes[p].request)
    ensures b in t.bindings <==> Outlives(b, s.processes[p])
    ensures Created(t.processes[p]) <==> !Outlives(b, s.processes[p])
  {
    assert ProcessSound(s, p);
    var me := s.processes[p];
    if me.stage.BindingInserted? {
      assert BindingOf(me) != b;
    }
  }

  /** Step `k` of the run commits request `p`. */
  ghost predicate CommitsAt(run: seq<System>, k: nat, p: nat) {
    && k < |run| - 1 && p < |run[k].processes| && p < |run[k + 1].processes|
    && JustCommitted(run[k], run[k + 1], p)
  }

  ghost predicate JustCommitted(s: System, t: System, p: nat)
    requires p < |s.processes| && p < |t.processes|
  {
    !s.processes[p].stage.Committed? && t.processes[p].stage.Committed?
  }

  /** A request of the key commits with a clock reading at or past the expiry of `b`. */
  ghost predicate LateCommit(s: System, t: System, b: BindingRow) {
    exists x :: 0 <= x < |s.processes| && x < |t.processes| && JustCommitted(s, t, x)
                && Concerns(b, s.processes[x].request) && !Outlives(b, s.processes[x])
  }

  /** An acknowledgement takes the key of `b`. */
  ghost predicate AckTakesKey(s: System, t: System, b: BindingRow) {
    exists a :: a in t.bindings && a !in s.bindings && SameBindingKey(a, b) && a.operation == AcknowledgeOperation
  }

  ghost predicate Disturbs(s: System, t: System, b: BindingRow) { LateCommit(s, t, b) || AckTakesKey(s, t, b) }

  lemma StatementFate(s: System, t: System, p: nat, statement: Statement, b: BindingRow)
    requires LockSafe(s) && Executes(s, t, p, statement) && b in s.bindings
    ensures b in t.bindings <==> !Disturbs(s, t, b)
  {
    StageMoves(s, t, p, statement);
    assert forall x :: 0 <= x < |s.processes| && JustCommitted(s, t, x) ==> x == p;
    assert !AckTakesKey(s, t, b);
    if statement == Commit {
      assert JustCommitted(s, t, p) && ProcessSound(s, p);
      if Concerns(b, s.processes[p].request) {
        CommitDecides(s, t, p, b);
      }
    } else {
      assert !JustCommitted(s, t, p);
    }
  }

  lemma TouchFate(s: System, t: System, id: Uuid, b: BindingRow)
    requires LockSafe(s) && Touches(s, t, id) && b in s.bindings && b.operation == CreateOperation
    ensures b in t.bindings <==> !Disturbs(s, t, b)
  {
    assert !LateCommit(s, t, b);
    if t.bindings != s.bindings {
      var a :| AckBinds(s, t, a);
      if SameBindingKey(a, b) {
        assert a in t.bindings && a !in s.bindings;
      }
    }
  }

  /** A create binding survives a step if and only if the step does not disturb it. */
  lemma BindingFate(s: System, t: System, b: BindingRow)
    requires LockSafe(s) && Next(s, t) && b in s.bindings && b.operation == CreateOperation
    ensures b in t.bindings <==> !Disturbs(s, t, b)
  {
    if exists p, statement :: Executes(s, t, p, statement) {
      var p, statement :| Executes(s, t, p, statement);
      StatementFate(s, t, p, statement, b);
    } else {
      var id :| Touches(s, t, id);
      TouchFate(s, t, id, b);
    }
  }

  /** Transfer `id` exists and no create binding for the key of `b` answers with it. */
  ghost predicate Forgotten(s: System, b: BindingRow, id: Uuid) {
    && id in s.transfers
    && forall a :: a in s.bindings && SameBindingKey(a, b) && a.operation == CreateOperation ==>
         a.transferId != Some(id)
  }

  lemma NextKeepsTransfers(s: System, t: System, id: Uuid)
    requires Next(s, t) && id in s.transfers
    ensures id in t.transfers
  {
    if exists p, statement :: Executes(s, t, p, statement) {
      var p, statement :| Executes(s, t, p, statement);
      StepShape(s, t, p, statement);
    }
  }

  lemma OwnBinding(s: System, t: System, p: nat, statement: Statement, a: BindingRow)
    requires Executes(s, t, p, statement) && a in t.bindings && a !in s.bindings
    ensures a == BindingOf(s.processes[p]) && HasInserted(s.processes[p].stage)
  {
    StageMoves(s, t, p, statement);
  }

  /** A binding that is new after a step is an acknowledgement's or names a new transfer. */
  lemma NewBindingsNameNewTransfers(start: System, s: System, t: System, a: BindingRow, id: Uuid)
    requires TransfersAccounted(start, s) && Next(s, t) && id in s.transfers
    requires a in t.bindings && a !in s.bindings && a.operation == CreateOperation
    ensures a.transferId != Some(id)
  {
    if exists p, statement :: Executes(s, t, p, statement) {
      var p, statement :| Executes(s, t, p, statement);
      OwnBinding(s, t, p, statement, a);
    }
  }

  lemma NextKeepsForgotten(start: System, s: System, t: System, b: BindingRow, id: Uuid)
    requires TransfersAccounted(start, s) && Next(s, t) && Forgotten(s, b, id)
    ensures Forgotten(t, b, id)
  {
    NextKeepsTransfers(s, t, id);
    forall a | a in t.bindings && SameBindingKey(a, b) && a.operation == CreateOperation
      ensures a.transferId != Some(id)
    {
      if a !in s.bindings {
        NewBindingsNameNewTransfers(start, s, t, a, id);
      }
    }
  }

  lemma DisturbedIsForgotten(start: System, s: System, t: System, b: BindingRow, id: Uuid)
    requires LockSafe(s) && TransfersAccounted(start, s) && Next(s, t)
    requires b in s.bindings && b !in t.bindings && id in s.transfers
    ensures Forgotten(t, b, id)
  {
    NextKeepsTransfers(s, t, id);
    forall a | a in t.bindings && SameBindingKey(a, b) && a.operation == CreateOperation
      ensures a.transferId != Some(id)
    {
      assert a !in s.bindings;
      NewBindingsNameNewTransfers(start, s, t, a, id);
    }
  }

  ghost predicate DisturbsAt(run: seq<System>, k: nat, b: BindingRow)
    requires k < |run| - 1
  {
    Disturbs(run[k], run[k + 1], b)
  }

  /** No step from `i` up to `j` disturbs `b`. */
  ghost predicate Undisturbed(run: seq<System>, i: nat, j: nat, b: BindingRow) {
    forall k :: i <= k < j && k < |run| - 1 ==> !DisturbsAt(run, k, b)
  }

  /** What has become of create binding `b` of transfer `id`. */
  ghost predicate Fate(s: System, b: BindingRow, id: Uuid, undisturbed: bool) {
    id in s.transfers && if undisturbed then b in s.bindings else Forgotten(s, b, id)
  }

  lemma NextFate(start: System, s: System, t: System, b: BindingRow, id: Uuid, undisturbed: bool)
    requires LockSafe(s) && TransfersAccounted(start, s) && Next(s, t)
    requires b.operation == CreateOperation && Fate(s, b, id, undisturbed)
    ensures Fate(t, b, id, undisturbed && !Disturbs(s, t, b))
  {
    NextKeepsTransfers(s, t, id);
    if undisturbed {
      BindingFate(s, t, b);
      if Disturbs(s, t, b) {
        DisturbedIsForgotten(start, s, t, b, id);
      }
    } else {
      NextKeepsForgotten(start, s, t, b, id);
    }
  }

  /** From a state that holds a create binding to a later one: an undisturbed binding is
      still there, a disturbed one is forgotten for good. */
  lemma {:induction false} BindingFateAlongRun(run: seq<System>, i: nat, j: nat, b: BindingRow, id: Uuid)
    requires IsRun(run) && i <= j < |run|
    requires b.operation == CreateOperation && Fate(run[i], b, id, true)
    ensures Fate(run[j], b, id, Undisturbed(run, i, j, b))
    decreases j
  {
    if i == j {
    } else {
      BindingFateAlongRun(run, i, j - 1, b, id);
      BindingFateNext(run, i, j, b, id);
    }
  }

  lemma BindingFateNext(run: seq<System>, i: nat, j: nat, b: BindingRow, id: Uuid)
    requires IsRun(run) && i < j < |run|
    requires b.operation == CreateOperation && Fate(run[j - 1], b, id, Undisturbed(run, i, j - 1, b))
    ensures Fate(run[j], b, id, Undisturbed(run, i, j, b))
  {
    RunKeepsSafe(run, j - 1);
    assert StepsAt(run, j - 1);
    UndisturbedExtends(run, i, j, b);
    NextFate(run[0], run[j - 1], run[j], b, id, Undisturbed(run, i, j - 1, b));
  }

  lemma UndisturbedExtends(run: seq<System>, i: nat, j: nat, b: BindingRow)
    requires i < j < |run|
    ensures Undisturbed(run, i, j, b) <==> Undisturbed(run, i, j - 1, b) && !Disturbs(run[j - 1], run[j], b)
  {
    assert Undisturbed(run, i, j, b) ==> !DisturbsAt(run, j - 1, b);
  }

  lemma OnlyCommitCommits(s: System, t: System, p: nat)
    requires Next(s, t) && p < |s.processes| && p < |t.processes| && JustCommitted(s, t, p)
    ensures Executes(s, t, p, Commit)
  {
    if exists x, statement :: Executes(s, t, x, statement) {
      var x, statement :| Executes(s, t, x, statement);
      StageMoves(s, t, x, statement);
    }
  }

  /** A step that commits a request is its Commit statement, and leaves its answer bound. */
  lemma CommitBinds(run: seq<System>, k: nat, p: nat)
    requires IsRun(run) && CommitsAt(run, k, p)
    ensures Executes(run[k], run[k + 1], p, Commit)
    ensures run[k + 1].processes[p].stage.transferId in run[k + 1].transfers
    ensures HasBinding(run[k + 1], run[k + 1].processes[p], run[k + 1].processes[p].stage.transferId)
  {
    assert StepsAt(run, k);
    OnlyCommitCommits(run[k], run[k + 1], p);
    CommitAnswersWithBinding(run, k, run[k + 1], p);
    RunKeepsSafe(run, k + 1);
    assert ProcessSound(run[k + 1], p);
  }

  /** A request that commits is answered with `id` exactly when the binding of `id` has
      not been disturbed up to that commit, which then creates nothing. */
  lemma FateDecidesAnswer(s: System, t: System, q: nat, b: BindingRow, id: Uuid, undisturbed: bool)
    requires LockSafe(s) && UniqueBindings(t.bindings) && Executes(s, t, q, Commit)
    requires HasBinding(t, t.processes[q], t.processes[q].stage.transferId)
    requires Concerns(b, s.processes[q].request) && b.transferId == Some(id)
    requires Fate(t, b, id, undisturbed) && (undisturbed ==> b in s.bindings)
    ensures t.processes[q].stage.transferId == id <==> undisturbed
    ensures undisturbed ==> b.digest == s.processes[q].request.digest && !Created(t.processes[q])
  {
    var other := t.processes[q];
    var answer :| answer in t.bindings && Answers(answer, other, other.stage.transferId);
    if undisturbed {
      assert answer == b;
      CommitDecides(s, t, q, b);
    } else {
      assert SameBindingKey(answer, b);
    }
  }

  lemma CommittedBinding(run: seq<System>, i: nat, p: nat, b: BindingRow)
    requires IsRun(run) && CommitsAt(run, i, p)
    requires b in run[i + 1].bindings && Concerns(b, run[i + 1].processes[p].request)
    ensures var me := run[i + 1].processes[p];
      Answers(b, me, me.stage.transferId) && Fate(run[i + 1], b, me.stage.transferId, true)
  {
    CommitBinds(run, i, p);
    RunKeepsSafe(run, i + 1);
  }

  lemma AnswerAlongRun(run: seq<System>, i: nat, j: nat, q: nat, b: BindingRow, id: Uuid)
    requires IsRun(run) && i <= j && CommitsAt(run, j, q) && Concerns(b, run[j + 1].processes[q].request)
    requires b.operation == CreateOperation && b.transferId == Some(id) && Fate(run[i], b, id, true)
    ensures run[j + 1].processes[q].stage.transferId == id <==> Undisturbed(run, i, j + 1, b)
    ensures Undisturbed(run, i, j + 1, b) ==>
      b.digest == run[j + 1].processes[q].request.digest && !Created(run[j + 1].processes[q])
  {
    CommitBinds(run, j, q);
    RunKeepsSafe(run, j);
    RunKeepsSafe(run, j + 1);
    BindingFateAlongRun(run, i, j, b, id);
    BindingFateAlongRun(run, i, j + 1, b, id);
    UndisturbedExtends(run, i, j + 1, b);
    FateDecidesAnswer(run[j], run[j + 1], q, b, id, Undisturbed(run, i, j + 1, b));
  }

  /** Concurrent create, exactly: when `p` commits before `q` under one key and `b` is the
      binding `p` leaves there, the two are answered with the same transfer if and only if
      no request of the key that commits after `p`, `q` included, reads a clock at or past
      the expiry of `b`, and no acknowledgement takes the key in between. They then carry
      the same digest and `q` creates nothing. */
  lemma SameKeySameTransfer(run: seq<System>, i: nat, j: nat, p: nat, q: nat, b: BindingRow)
    requires IsRun(run) && i < j && CommitsAt(run, i, p) && CommitsAt(run, j, q)
    requires SameKey(run[i + 1].processes[p], run[j + 1].processes[q])
    requires b in run[i + 1].bindings && Concerns(b, run[i + 1].processes[p].request)
    ensures run[i + 1].processes[p].stage.transferId == run[j + 1].processes[q].stage.transferId <==>
      Undisturbed(run, i + 1, j + 1, b)
    ensures Undisturbed(run, i + 1, j + 1, b) ==>
      && run[i + 1].processes[p].request.digest == run[j + 1].processes[q].request.digest
      && !Created(run[j + 1].processes[q])
  {
    var id := run[i + 1].processes[p].stage.transferId;
    CommittedBinding(run, i, p, b);
    AnswerAlongRun(run, i + 1, j, q, b, id);
  }

  /** Every lock belongs to a process that is past it. */
  ghost predicate LocksOwned(s: System) {
    forall l :: l in s.locks ==>
      s.locks[l] < |s.processes| && HoldsLock(s.processes[s.locks[l]].stage) && s.processes[s.locks[l]].lock == l
  }

  lemma LocksMove(s: System, t: System, p: nat, statement: Statement)
    requires Executes(s, t, p, statement)
    ensures var me := s.processes[p];
      if statement == TakeLock then t.locks == s.locks[me.lock := p] && HoldsLock(t.processes[p].stage)
      else if HoldsLock(t.processes[p].stage) || !HoldsLock(me.stage) then t.locks == s.locks
      else t.locks == s.locks - {me.lock}
    ensures t.processes[p].lock == s.processes[p].lock
    ensures HoldsLock(s.processes[p].stage) && !HoldsLock(t.processes[p].stage) ==> statement != TakeLock
  {
  }

  lemma StepKeepsLocksOwned(s: System, t: System, p: nat, statement: Statement)
    requires LocksOwned(s) && LockSafe(s) && Executes(s, t, p, statement)
    ensures LocksOwned(t)
  {
    assert ProcessSound(s, p);
    LocksMove(s, t, p, statement);
    StageMoves(s, t, p, statement);
  }

  lemma NextKeepsLocksOwned(s: System, t: System)
    requires LocksOwned(s) && LockSafe(s) && Next(s, t)
    ensures LocksOwned(t)
  {
    if exists p, statement :: Executes(s, t, p, statement) {
      var p, statement :| Executes(s, t, p, statement);
      StepKeepsLocksOwned(s, t, p, statement);
    } else {
      var id :| Touches(s, t, id);
    }
  }

  lemma {:induction false} RunKeepsLocksOwned(run: seq<System>, i: nat)
    requires IsRun(run) && i < |run|
    ensures LocksOwned(run[i])
  {
    if i == 0 {
    } else {
      RunKeepsLocksOwned(run, i - 1);
      LocksOwnedNext(run, i - 1);
    }
  }

  lemma LocksOwnedNext(run: seq<System>, i: nat)
    requires IsRun(run) && i < |run| - 1 && LocksOwned(run[i])
    ensures LocksOwned(run[i + 1])
  {
    RunKeepsSafe(run, i);
    assert StepsAt(run, i);
    NextKeepsLocksOwned(run[i], run[i + 1]);
  }

  ghost predicate CanProceed(s: System, p: nat) {
    exists t, statement :: statement != Rollback && Executes(s, t, p, statement)
  }

  lemma InsertedProceeds(s: System, p: nat)
    requires p < |s.processes| && HasInserted(s.processes[p].stage)
    ensures CanProceed(s, p)
  {
    var me := s.processes[p];
    if me.stage.TransferInserted? {
      var t := if !SqlBinding(CreateBinding(me.request, me.now)) then Ended(s, p, Aborted)
               else At(s, p, BindingInserted(me.stage.deleted));
      assert Executes(s, t, p, InsertBinding);
    } else {
      var remaining := if me.stage.deleted.Some? then s.bindings - {me.stage.deleted.value} else s.bindings;
      var t := Ended(s.(transfers := s.transfers[me.request.newId := NewRow(me.request, me.now)],
                        bindings := remaining + {CreateBinding(me.request, me.now)}),
                     p, Committed(me.request.newId, true));
      assert Executes(s, t, p, Commit);
    }
  }

  lemma HolderProceeds(s: System, p: nat)
    requires p < |s.processes| && HoldsLock(s.processes[p].stage)
    ensures CanProceed(s, p) || exists q :: 0 <= q < |s.processes| && CanProceed(s, q)
  {
    var me := s.processes[p];
    match me.stage
    case Locked =>
      if b :| b in s.bindings && Concerns(b, me.request) {
        var t := At(s, p, if Seconds(b.expiresAt) > Seconds(me.now) then Found(b) else Stale(b));
        assert Executes(s, t, p, SelectBinding(Some(b)));
      } else {
        assert Executes(s, At(s, p, Missed(None)), p, SelectBinding(None));
      }
    case Stale(b) =>
      assert Executes(s, At(s, p, Missed(Some(b))), p, DeleteStale);
    case Found(b) =>
      var next := AnswerStage(s, me, b);
      assert Executes(s, if next == Aborted then Ended(s, p, Aborted) else At(s, p, next), p, Answer);
    case Answering(id) =>
      assert Executes(s, Ended(s, p, Committed(id, false)), p, Commit);
    case Missed(d) =>
      if q :| 0 <= q < |s.processes| && Inserted(s.processes[q], me.request.newId) {
        InsertedProceeds(s, q);
      } else {
        var refused := me.request.newId in s.transfers || !SqlTransfer(NewRow(me.request, me.now));
        var t := if refused then Ended(s, p, Aborted) else At(s, p, TransferInserted(d));
        assert Executes(s, t, p, InsertTransfer);
      }
    case _ =>
      InsertedProceeds(s, p);
  }

  /** No deadlock: while a request is unfinished, some request can execute a statement of
      its own without rolling back. */
  lemma NeverStuck(run: seq<System>, i: nat, p: nat)
    requires IsRun(run) && i < |run| && p < |run[i].processes| && !Finished(run[i].processes[p].stage)
    ensures exists q :: 0 <= q < |run[i].processes| && CanProceed(run[i], q)
  {
    var s := run[i];
    var me := s.processes[p];
    RunKeepsLocksOwned(run, i);
    if me.stage == Idle {
      assert Executes(s, At(s, p, if CreateFault(me.request, me.now).Some? then Aborted else Begun), p, Begin);
      assert CanProceed(s, p);
    } else if me.stage == Begun {
      if me.lock in s.locks {
        HolderProceeds(s, s.locks[me.lock]);
      } else {
        assert Executes(s, At(s.(locks := s.locks[me.lock := p]), p, Locked), p, TakeLock);
        assert CanProceed(s, p);
      }
    } else {
      HolderProceeds(s, p);
    }
  }
}
