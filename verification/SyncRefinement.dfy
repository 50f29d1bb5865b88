/** The engine against two simpler machines: the one-object model of `sync-model-check`, and a
    machine that keeps nothing but the log. */
module SyncRefinement {
  import opened Text
  import opened SyncProtocol
  import opened SyncReachability
  import opened SyncConvergence
  import opened SyncPaging
  import opened SyncSnapshot

  /** `status` is absent when the mutation does not concern the watched object. */
  datatype ModelResult = Accepted(status: Option<ApplyStatus>, resultCursor: u64) | Conflict

  datatype ModelState = ModelState(
    serverSequence: u64,
    winner: Option<SequencedMutation>,
    log: seq<SequencedMutation>,
    replayIndex: map<Text, SequencedMutation>,
    replayOrder: seq<Text>)

  function ModelStatus(x: ModelState, watched: Text, entry: SequencedMutation): Option<ApplyStatus> {
    if entry.mutation.objectId != watched then None
    else if x.winner.Some? && !WinsConflict(entry, x.winner.value) then Some(Superseded)
    else Some(Applied)
  }

  function ModelRemember(x: ModelState, capacity: usize, entry: SequencedMutation): ModelState {
    var order := x.replayOrder + [entry.mutation.mutationId];
    var excess := Max(0, |order| - capacity);
    x.(replayOrder := order[excess..],
       replayIndex := x.replayIndex[entry.mutation.mutationId := entry] - (set id | id in order[..excess]))
  }

  function ModelApply(x: ModelState, watched: Text, capacity: usize, m: SyncMutation): (ModelState, ModelResult)
    requires m.mutationId in x.replayIndex || x.serverSequence < U64_MAX
  {
    if m.mutationId in x.replayIndex then
      var previous := x.replayIndex[m.mutationId];
      (x, if previous.mutation == m then Accepted(Some(Replayed), previous.serverSequence) else Conflict)
    else
      var entry := SequencedMutation(x.serverSequence + 1, m);
      var status := ModelStatus(x, watched, entry);
      var sequenced := x.(
        serverSequence := x.serverSequence + 1,
        winner := if status == Some(Applied) then Some(entry) else x.winner,
        log := x.log + [entry]);
      (ModelRemember(sequenced, capacity, entry), Accepted(status, x.serverSequence + 1))
  }

  /** The one-object model of `sync-model-check`, for any watched object and any capacity. */
  class Model {
    const watched: Text
    const capacity: usize
    var serverSequence: u64
    var winner: Option<SequencedMutation>
    var log: seq<SequencedMutation>
    var replayIndex: map<Text, SequencedMutation>
    var replayOrder: seq<Text>

    function State(): ModelState
      reads this
    {
      ModelState(serverSequence, winner, log, replayIndex, replayOrder)
    }

    constructor (watched: Text, capacity: usize)
      ensures this.watched == watched && this.capacity == capacity
      ensures State() == ModelState(0, None, [], map[], [])
    {
      this.watched, this.capacity := watched, capacity;
      serverSequence, winner, log, replayIndex, replayOrder := 0, None, [], map[], [];
    }

    method Remember(entry: SequencedMutation)
      modifies this`replayIndex, this`replayOrder
      ensures State() == old(ModelRemember(State(), capacity, entry))
    {
      replayIndex := replayIndex[entry.mutation.mutationId := entry];
      replayOrder := replayOrder + [entry.mutation.mutationId];
      ghost var order, index := replayOrder, replayIndex;
      ghost var popped := 0;
      while |replayOrder| > capacity
        invariant 0 <= popped <= Max(0, |order| - capacity)
        invariant replayOrder == order[popped..]
        invariant replayIndex == index - (set id | id in order[..popped])
      {
        var expired := replayOrder[0];
        replayOrder := replayOrder[1..];
        replayIndex := replayIndex - {expired};
        assert order[..popped + 1] == order[..popped] + [expired];
        popped := popped + 1;
      }
      assert popped == Max(0, |order| - capacity);
    }

    method Apply(m: SyncMutation) returns (r: ModelResult)
      requires m.mutationId in replayIndex || serverSequence < U64_MAX
      modifies this
      ensures (State(), r) == old(ModelApply(State(), watched, capacity, m))
    {
      if m.mutationId in replayIndex {
        var previous := replayIndex[m.mutationId];
        return if previous.mutation == m then Accepted(Some(Replayed), previous.serverSequence) else Conflict;
      }
      serverSequence := serverSequence + 1;
      var entry := SequencedMutation(serverSequence, m);
      var status := if m.objectId != watched then None
                    else if winner.Some? && !WinsConflict(entry, winner.value) then Some(Superseded)
                    else Some(Applied);
      if status == Some(Applied) {
        winner := Some(entry);
      }
      log := log + [entry];
      Remember(entry);
      r := Accepted(status, serverSequence);
    }
  }

  /** The engine and the model agree on every field the model has. */
  ghost predicate Simulates(s: Engine, x: ModelState, watched: Text) {
    && x.serverSequence == s.serverSequence
    && x.winner == (if watched in s.records then Some(s.records[watched]) else None)
    && x.log == s.log && x.replayIndex == s.replayIndex && x.replayOrder == s.replayOrder
  }

  /** Everything a caller can observe agrees: cursor, retained replays, the watched
      record, the whole log through one pull, and the same after a restart. */
  ghost predicate ObservationallyEqual(s: Engine, x: ModelState, watched: Text) {
    && s.serverSequence == x.serverSequence
    && |s.replayIndex| == |x.replayIndex|
    && x.winner == (if watched in s.records then Some(s.records[watched]) else None)
    && (forall limit: usize :: limit > 0 && limit >= |x.log| ==>
          Pulled(s, 0, limit) == Success(PullPage(x.log, x.serverSequence, false)))
    && SnapshotFault(s) == None
  }

  ghost predicate SameResult(
    actual: Result<Transition, SyncError>, expected: ModelResult, m: SyncMutation, watched: Text)
  {
    match expected
    case Accepted(status, resultCursor) =>
      && actual.Success? && actual.value.result.cursor == resultCursor
      && (m.objectId == watched ==> status == Some(actual.value.result.status))
      && (m.objectId != watched ==>
            status == if actual.value.result.status == Replayed then Some(Replayed) else None)
    case Conflict => actual == Failure(IdempotencyConflict)
  }

  /** One step of both machines from related states gives the same answer and related states. */
  lemma StepSimulates(s: Engine, x: ModelState, watched: Text, m: SyncMutation)
    requires Simulates(s, x, watched) && Valid(m)
    requires m.mutationId in s.replayIndex || s.serverSequence < U64_MAX
    ensures var (y, expected) := ModelApply(x, watched, s.replayCapacity, m);
      Simulates(Advance(s, m), y, watched) && SameResult(Transitioned(s, m), expected, m, watched)
  {
    AdvanceCases(s, m);
  }

  ghost predicate ValidAndUnexhausted(capacity: usize, ms: seq<SyncMutation>) {
    (forall m :: m in ms ==> Valid(m)) && NeverExhausted(Initial(capacity), ms)
  }

  lemma {:induction false} RunSimulates(capacity: usize, watched: Text, ms: seq<SyncMutation>)
    requires capacity > 0 && ValidAndUnexhausted(capacity, ms)
    ensures Simulates(Run(Initial(capacity), ms), ModelRun(capacity, watched, ms), watched)
  {
    if ms == [] {
    } else {
      var earlier, last := ms[..|ms| - 1], ms[|ms| - 1];
      ReachableCoherent(capacity, earlier);
      RunSimulates(capacity, watched, earlier);
      StepSimulates(Run(Initial(capacity), earlier), ModelRun(capacity, watched, earlier), watched, last);
    }
  }

  /** The model after delivering `ms`. */
  ghost function ModelRun(capacity: usize, watched: Text, ms: seq<SyncMutation>): ModelState {
    if ms == [] then ModelState(0, None, [], map[], [])
    else
      var x, last := ModelRun(capacity, watched, ms[..|ms| - 1]), ms[|ms| - 1];
      if last.mutationId in x.replayIndex || x.serverSequence < U64_MAX
      then ModelApply(x, watched, capacity, last).0 else x
  }

  /** Unbounded refinement: after any run of valid mutations that does not exhaust the
      sequence, for every capacity and every watched object, engine and model are
      observationally equal, and they answer the next valid mutation alike, unless the engine
      has no sequence left for it. */
  lemma {:induction false} EngineRefinesModel(capacity: usize, watched: Text, ms: seq<SyncMutation>, m: SyncMutation)
    requires capacity > 0 && ValidAndUnexhausted(capacity, ms)
    requires Valid(m)
    requires Transitioned(Run(Initial(capacity), ms), m) != Failure(InvalidMutation(ServerSequenceExhausted))
    ensures var s, x := Run(Initial(capacity), ms), ModelRun(capacity, watched, ms);
      && ObservationallyEqual(s, x, watched)
      && (m.mutationId in x.replayIndex || x.serverSequence < U64_MAX)
      && SameResult(Transitioned(s, m), ModelApply(x, watched, capacity, m).1, m, watched)
      && (Transitioned(s, m).Failure? ==> Advance(s, m) == s && ModelApply(x, watched, capacity, m).0 == x)
  {
    var s, x := Run(Initial(capacity), ms), ModelRun(capacity, watched, ms);
    ReachableCoherent(capacity, ms);
    RunSimulates(capacity, watched, ms);
    StepSimulates(s, x, watched, m);
    ReachableSnapshotAccepted(capacity, ms);
    WholeLogPulled(s);
  }

  lemma WholeLogPulled(s: Engine)
    requires DenseLog(s)
    ensures forall limit: usize :: limit > 0 && limit >= |s.log| ==>
      Pulled(s, 0, limit) == Success(PullPage(s.log, s.serverSequence, false))
  {
    forall limit: usize | limit > 0 && limit >= |s.log|
      ensures Pulled(s, 0, limit) == Success(PullPage(s.log, s.serverSequence, false))
    {
      PulledAfter(s, 0, 0, limit);
      assert s.log[0..|s.log|] == s.log;
      assert s.log != [] ==> s.log[|s.log| - 1].serverSequence == |s.log|;
    }
  }

  /** The entry of a window that carries an identifier. */
  function Find(window: seq<SequencedMutation>, id: Text): Option<SequencedMutation> {
    if window == [] then None
    else if window[0].mutation.mutationId == id then Some(window[0])
    else Find(window[1..], id)
  }

  function ScanStatus(log: seq<SequencedMutation>, entry: SequencedMutation): ApplyStatus {
    var head := FullScan(log, entry.mutation.objectId);
    if head.Some? && !WinsConflict(entry, head.value) then Superseded else Applied
  }

  /** The log-only machine: every question is answered by scanning the log. */
  function ScanStep(
    log: seq<SequencedMutation>, capacity: usize, m: SyncMutation)
    : Result<(seq<SequencedMutation>, ApplyResult), SyncError>
  {
    var invalid, previous := ValidateMutation(m), Find(Window(log, capacity), m.mutationId);
    if invalid.Some? then Failure(InvalidMutation(invalid.value))
    else if previous.Some? then
      if previous.value.mutation != m then Failure(IdempotencyConflict)
      else Success((log, ApplyResult(Replayed, previous.value.serverSequence)))
    else if |log| >= U64_MAX then Failure(InvalidMutation(ServerSequenceExhausted))
    else
      var entry := SequencedMutation(|log| + 1, m);
      Success((log + [entry], ApplyResult(ScanStatus(log, entry), |log| + 1)))
  }

  function ScanRun(capacity: usize, ms: seq<SyncMutation>): seq<SequencedMutation> {
    if ms == [] then []
    else
      var log := ScanRun(capacity, ms[..|ms| - 1]);
      match ScanStep(log, capacity, ms[|ms| - 1])
      case Success(next) => next.0
      case Failure(_) => log
  }

  lemma {:induction false} FindInIndex(
    order: seq<Text>, index: map<Text, SequencedMutation>, window: seq<SequencedMutation>, id: Text)
    requires Indexes(order, index, window)
    ensures Find(window, id) == if id in index then Some(index[id]) else None
    decreases |window|
  {
    if window == [] {
    } else {
      IndexesPop(order, index, window);
      FindInIndex(order[1..], index - {order[0]}, window[1..], id);
    }
  }

  /** The two machines accept with the same log and result, or fail with the same error. */
  ghost predicate SameAnswer(
    indexed: Result<Transition, SyncError>, scanned: Result<(seq<SequencedMutation>, ApplyResult), SyncError>)
  {
    match indexed
    case Success(t) => scanned == Success((t.nextState.log, t.result))
    case Failure(error) => scanned == Failure(error)
  }

  lemma StatusLikeScan(s: Engine, entry: SequencedMutation)
    requires DenseLog(s) && Materialised(s)
    ensures ScanStatus(s.log, entry) == StatusOf(s.records, entry)
  {
    CoherentScan(s, entry.mutation.objectId);
  }

  lemma SequencedLikeScan(s: Engine, m: SyncMutation)
    requires |s.log| == s.serverSequence && Valid(m) && m.mutationId !in s.replayIndex && s.serverSequence < U64_MAX
    requires Find(Window(s.log, s.replayCapacity), m.mutationId) == None
    requires ScanStatus(s.log, NextEntry(s, m)) == StatusOf(s.records, NextEntry(s, m))
    ensures SameAnswer(Transitioned(s, m), ScanStep(s.log, s.replayCapacity, m))
  {
    assert Append(s, m).log == s.log + [NextEntry(s, m)];
  }

  lemma UnsequencedLikeScan(s: Engine, m: SyncMutation)
    requires |s.log| == s.serverSequence
    requires !(Valid(m) && m.mutationId !in s.replayIndex && s.serverSequence < U64_MAX)
    requires Find(Window(s.log, s.replayCapacity), m.mutationId) ==
      if m.mutationId in s.replayIndex then Some(s.replayIndex[m.mutationId]) else None
    ensures SameAnswer(Transitioned(s, m), ScanStep(s.log, s.replayCapacity, m))
  {
  }

  /** A coherent engine answers as the scan of its log would. */
  lemma CoherentAnswersLikeScan(s: Engine, m: SyncMutation)
    requires Coherent(s)
    ensures SameAnswer(Transitioned(s, m), ScanStep(s.log, s.replayCapacity, m))
  {
    FindInIndex(s.replayOrder, s.replayIndex, Window(s.log, s.replayCapacity), m.mutationId);
    if Valid(m) && m.mutationId !in s.replayIndex && s.serverSequence < U64_MAX {
      StatusLikeScan(s, NextEntry(s, m));
      SequencedLikeScan(s, m);
    } else {
      UnsequencedLikeScan(s, m);
    }
  }

  /** The indexed engine refines the log-only machine: same log and same answer to every
      mutation, valid or not, after every run, exhaustion included. */
  lemma {:induction false} EngineRefinesScan(capacity: usize, ms: seq<SyncMutation>, m: SyncMutation)
    requires capacity > 0
    ensures Run(Initial(capacity), ms).log == ScanRun(capacity, ms)
    ensures SameAnswer(Transitioned(Run(Initial(capacity), ms), m), ScanStep(ScanRun(capacity, ms), capacity, m))
    decreases |ms|
  {
    if ms == [] {
    } else {
      EngineRefinesScan(capacity, ms[..|ms| - 1], ms[|ms| - 1]);
    }
    ReachableCoherent(capacity, ms);
    CoherentAnswersLikeScan(Run(Initial(capacity), ms), m);
  }
}
