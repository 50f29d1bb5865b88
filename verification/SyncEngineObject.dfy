/** The engine object: its methods change fields step by step and are proved against
    the pure rules of `SyncProtocol`. */
module SyncEngineObject {
  import opened Text
  import opened SyncProtocol

  /** A computed transition whose next state is an engine of its own. */
  datatype EngineTransition = EngineTransition(nextState: SyncEngine, result: ApplyResult)

  class SyncEngine {
    var serverSequence: u64
    var records: map<Text, SequencedMutation>
    var log: seq<SequencedMutation>
    var replayIndex: map<Text, SequencedMutation>
    var replayOrder: seq<Text>
    var replayCapacity: usize

    function State(): Engine
      reads this
    {
      Engine(serverSequence, records, log, replayIndex, replayOrder, replayCapacity)
    }

    constructor FromFields(s: Engine)
      ensures State() == s
    {
      serverSequence, records, log := s.serverSequence, s.records, s.log;
      replayIndex, replayOrder, replayCapacity := s.replayIndex, s.replayOrder, s.replayCapacity;
    }

    static method New(capacity: usize) returns (r: Result<SyncEngine, SyncError>)
      ensures capacity == 0 ==> r == Failure(InvalidMutation(ReplayCapacityNotPositive))
      ensures capacity > 0 ==> r.Success? && fresh(r.value) && r.value.State() == Initial(capacity)
    {
      if capacity == 0 {
        return Failure(InvalidMutation(ReplayCapacityNotPositive));
      }
      var engine := new SyncEngine.FromFields(Engine(0, map[], [], map[], [], capacity));
      r := Success(engine);
    }

    method Clone() returns (copy: SyncEngine)
      ensures fresh(copy) && copy.State() == State()
    {
      copy := new SyncEngine.FromFields(State());
    }

    method RememberReplay(entry: SequencedMutation)
      modifies this`replayIndex, this`replayOrder
      ensures State() == Remember(old(State()), entry)
    {
      var mutationId := entry.mutation.mutationId;
      replayIndex := replayIndex[mutationId := entry];
      replayOrder := replayOrder + [mutationId];
      ghost var order, index := replayOrder, replayIndex;
      ghost var popped := 0;
      while |replayOrder| > replayCapacity
        invariant 0 <= popped <= Max(0, |order| - replayCapacity)
        invariant replayOrder == order[popped..]
        invariant replayIndex == index - (set id | id in order[..popped])
      {
        var expired := replayOrder[0];
        replayOrder := replayOrder[1..];
        replayIndex := replayIndex - {expired};
        assert order[..popped + 1] == order[..popped] + [expired];
        popped := popped + 1;
      }
      assert popped == Max(0, |order| - replayCapacity);
    }

    method Transition(mutation: SyncMutation) returns (r: Result<EngineTransition, SyncError>)
      ensures match Transitioned(State(), mutation)
        case Failure(error) => r == Failure(error)
        case Success(t) =>
          && r.Success? && fresh(r.value.nextState)
          && r.value.nextState.State() == t.nextState && r.value.result == t.result
    {
      var invalid := ValidateMutation(mutation);
      if invalid.Some? {
        return Failure(InvalidMutation(invalid.value));
      }
      if mutation.mutationId in replayIndex {
        var previous := replayIndex[mutation.mutationId];
        if previous.mutation != mutation {
          return Failure(IdempotencyConflict);
        }
        var unchangedState := Clone();
        return Success(EngineTransition(unchangedState, ApplyResult(Replayed, previous.serverSequence)));
      }
      if serverSequence == U64_MAX {
        return Failure(InvalidMutation(ServerSequenceExhausted));
      }
      var nextSequence := serverSequence + 1;
      var sequenced := SequencedMutation(nextSequence, mutation);
      var status := Applied;
      if mutation.objectId in records && !WinsConflict(sequenced, records[mutation.objectId]) {
        status := Superseded;
      }
      var nextState := Clone();
      nextState.serverSequence := nextSequence;
      if status == Applied {
        nextState.records := nextState.records[mutation.objectId := sequenced];
      }
      nextState.log := nextState.log + [sequenced];
      assert nextState.State() == Logged(State(), mutation);
      nextState.RememberReplay(sequenced);
      r := Success(EngineTransition(nextState, ApplyResult(status, nextState.serverSequence)));
    }

    /** Commits a successful transition; a rejected mutation leaves every field alone. */
    method Apply(mutation: SyncMutation) returns (r: Result<ApplyResult, SyncError>)
      modifies this
      ensures State() == Advance(old(State()), mutation)
      ensures match old(Transitioned(State(), mutation))
        case Failure(error) => r == Failure(error)
        case Success(t) => r == Success(t.result)
    {
      var transition := Transition(mutation);
      if transition.Failure? {
        return Failure(transition.error);
      }
      var next := transition.value.nextState;
      serverSequence, records, log := next.serverSequence, next.records, next.log;
      replayIndex, replayOrder, replayCapacity := next.replayIndex, next.replayOrder, next.replayCapacity;
      r := Success(transition.value.result);
    }

    /** Scans a log once: collects up to `limit` entries past the cursor, then looks for one more. */
    static method Page(log: seq<SequencedMutation>, after: u64, limit: usize)
      returns (mutations: seq<SequencedMutation>, hasMore: bool)
      ensures mutations == Pending(log, after)[..Min(limit, |Pending(log, after)|)]
      ensures hasMore <==> |Pending(log, after)| > limit
    {
      mutations, hasMore := [], false;
      var i := 0;
      ghost var rest := Pending(log, after);
      while i < |log| && !hasMore
        invariant 0 <= i <= |log| && |mutations| <= limit
        invariant Pending(log, after) == mutations + rest
        invariant if hasMore then rest != [] && |mutations| == limit else rest == Pending(log[i..], after)
        decreases |log| - i, !hasMore
      {
        var entry := log[i];
        assert log[i..][1..] == log[i + 1..];
        if entry.serverSequence > after {
          if |mutations| < limit {
            mutations := mutations + [entry];
            rest := rest[1..];
          } else {
            hasMore := true;
          }
        }
        i := i + 1;
      }
    }

    method Pull(after: u64, limit: usize) returns (r: Result<PullPage, SyncError>)
      ensures r == Pulled(State(), after, limit)
    {
      if limit == 0 {
        return Failure(InvalidMutation(PullLimitNotPositive));
      }
      if after > serverSequence {
        return Failure(InvalidMutation(PullCursorAhead));
      }
      var mutations, hasMore := Page(log, after, limit);
      var cursor := if mutations == [] then Max(serverSequence, after) else mutations[|mutations| - 1].serverSequence;
      r := Success(PullPage(mutations, cursor, hasMore));
    }

    method ValidateSnapshot() returns (fault: Option<Reason>)
      ensures fault == SnapshotFault(State())
    {
      if replayCapacity == 0 {
        return Some(ReplayCapacityNotPositive);
      }
      if |log| > serverSequence {
        return Some(LogLongerThanSequence);
      }
      var previous: u64 := 0;
      var i := 0;
      while i < |log|
        invariant 0 <= i <= |log|
        invariant LogFault(log, 0, serverSequence) == LogFault(log[i..], previous, serverSequence)
      {
        var entry := log[i];
        assert log[i..][1..] == log[i + 1..];
        if entry.serverSequence <= previous || entry.serverSequence > serverSequence {
          return Some(LogNotMonotonic);
        }
        if ValidateMutation(entry.mutation).Some? {
          return Some(LogHoldsInvalidMutation);
        }
        previous := entry.serverSequence;
        i := i + 1;
      }
      if |replayIndex| != |replayOrder| || |replayIndex| > replayCapacity
         || exists id :: id in replayOrder && id !in replayIndex {
        return Some(ReplayIndexInconsistent);
      }
      if exists target :: target in records
           && (records[target].serverSequence > serverSequence || ValidateMutation(records[target].mutation).Some?) {
        return Some(RecordOutsideLog);
      }
      fault := None;
    }

    /** Rebuilds an engine from what a snapshot decodes to, or reports why it is refused. */
    static method Restore(decoded: Option<Engine>) returns (r: Result<SyncEngine, SyncError>)
      ensures match Restored(decoded)
        case Success(engine) => r.Success? && fresh(r.value) && r.value.State() == engine
        case Failure(error) => r == Failure(error)
    {
      if decoded == None {
        return Failure(InvalidSnapshot(SnapshotNotDecodable));
      }
      var engine := new SyncEngine.FromFields(decoded.value);
      var fault := engine.ValidateSnapshot();
      r := if fault.Some? then Failure(InvalidSnapshot(fault.value)) else Success(engine);
    }
  }
}
