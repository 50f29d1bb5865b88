/** What `validate_snapshot` accepts and what an accepted snapshot keeps after restore. */
module SyncSnapshot {
  import opened Text
  import opened SyncProtocol
  import opened SyncReachability
  import opened SyncPaging

  ghost predicate Accepted(s: Engine) { SnapshotFault(s) == None }

  lemma {:induction false} LogFaultNone(log: seq<SequencedMutation>, previous: u64, serverSequence: u64)
    ensures LogFault(log, previous, serverSequence) == None <==>
      && (forall i :: 0 <= i < |log| ==>
            previous < log[i].serverSequence <= serverSequence && Valid(log[i].mutation))
      && (forall i, j :: 0 <= i < j < |log| ==> log[i].serverSequence < log[j].serverSequence)
  {
    if log == [] {
    } else {
      LogFaultNone(log[1..], log[0].serverSequence, serverSequence);
      assert forall i :: 0 < i < |log| ==> log[i] == log[1..][i - 1];
      if LogFault(log, previous, serverSequence) == None {
        forall i, j | 0 <= i < j < |log|
          ensures log[i].serverSequence < log[j].serverSequence
        {
          assert log[j] == log[1..][j - 1];
        }
      }
      if forall i :: 0 <= i < |log| ==> previous < log[i].serverSequence <= serverSequence && Valid(log[i].mutation) {
        assert previous < log[0].serverSequence <= serverSequence && Valid(log[0].mutation);
      }
    }
  }

  /** An engine's life: deliveries, and restarts from a snapshot taken at that moment. */
  datatype Incident = Delivery(mutation: SyncMutation) | Restart

  /** The engine after its life, or the error of the first restart that failed. */
  function Survive(s: Engine, life: seq<Incident>): Result<Engine, SyncError> {
    if life == [] then Success(s)
    else
      match Survive(s, life[..|life| - 1])
      case Failure(error) => Failure(error)
      case Success(t) =>
        match life[|life| - 1]
        case Delivery(m) => Success(Advance(t, m))
        case Restart => Restored(Some(t))
  }

  function Deliveries(life: seq<Incident>): seq<SyncMutation> {
    if life == [] then []
    else
      Deliveries(life[..|life| - 1])
      + match life[|life| - 1] { case Delivery(m) => [m] case Restart => [] }
  }

  /** Restarts are invisible: however many there are and whenever they happen, each succeeds
      and the engine ends where its deliveries alone would have led. */
  lemma {:induction false} RestartIsInvisible(capacity: usize, life: seq<Incident>)
    requires capacity > 0
    ensures Survive(Initial(capacity), life) == Success(Run(Initial(capacity), Deliveries(life)))
  {
    if life == [] {
    } else {
      var earlier := life[..|life| - 1];
      RestartIsInvisible(capacity, earlier);
      if life[|life| - 1].Restart? {
        assert Deliveries(life) == Deliveries(earlier);
        ReachableSnapshotAccepted(capacity, Deliveries(earlier));
      } else {
        var ms := Deliveries(life);
        assert ms[..|ms| - 1] == Deliveries(earlier);
      }
    }
  }

  lemma AcceptedIncreasing(s: Engine)
    requires Accepted(s)
    ensures IncreasingLog(s)
  {
    LogFaultNone(s.log, 0, s.serverSequence);
  }

  /** What survives restore: for any accepted snapshot, reachable or not, every later
      state extends its log with strictly increasing sequences, and a client that pages
      from the start while deliveries continue holds, once a pull reports no more,
      every entry of the log exactly once and in order. */
  lemma RestoredLogPagesOnce(s: Engine, events: seq<Event>, limit: usize)
    requires Accepted(s) && limit > 0
    ensures var x := SessionRun(Session(s, 0, []), events);
      && s.log <= x.engine.log
      && IncreasingLog(x.engine)
      && x.received <= x.engine.log
      && Pulled(x.engine, x.cursor, limit).Success?
      && (var page := Pulled(x.engine, x.cursor, limit).value;
          && x.received + page.mutations <= x.engine.log
          && (!page.hasMore ==> x.received + page.mutations == x.engine.log))
  {
    AcceptedIncreasing(s);
    var start := Session(s, 0, []);
    SessionStaysInStep(start, events);
    LogOnlyGrows(start, events);
    PullReturnsNext(SessionRun(start, events), limit);
  }

  lemma {:induction false} LogOnlyGrows(x: Session, events: seq<Event>)
    requires InStep(x)
    ensures x.engine.log <= SessionRun(x, events).engine.log
  {
    if events == [] {
    } else {
      LogOnlyGrows(x, events[..|events| - 1]);
      SessionStaysInStep(x, events[..|events| - 1]);
      var before := SessionRun(x, events[..|events| - 1]);
      if events[|events| - 1].Deliver? {
        AdvanceKeepsIncreasing(before.engine, events[|events| - 1].mutation);
      }
    }
  }

  ghost predicate DistinctOrder(s: Engine) {
    forall i, j :: 0 <= i < j < |s.replayOrder| ==> s.replayOrder[i] != s.replayOrder[j]
  }

  ghost predicate Fresh(s: Engine, m: SyncMutation) {
    Valid(m) && m.mutationId !in s.replayIndex && s.serverSequence < U64_MAX
  }

  /** The part of acceptance that does not concern the replay window. */
  ghost predicate BodyAccepted(s: Engine) {
    && s.replayCapacity > 0 && |s.log| <= s.serverSequence && LogFault(s.log, 0, s.serverSequence) == None
    && forall target :: target in s.records ==>
         s.records[target].serverSequence <= s.serverSequence && Valid(s.records[target].mutation)
  }

  ghost predicate ReplayAccepted(s: Engine) {
    && |s.replayIndex| == |s.replayOrder| <= s.replayCapacity
    && forall id :: id in s.replayOrder ==> id in s.replayIndex
  }

  lemma AcceptedParts(s: Engine)
    ensures Accepted(s) <==> BodyAccepted(s) && ReplayAccepted(s)
  {
  }

  lemma CoherentBody(s: Engine)
    requires DenseLog(s) && Materialised(s) && s.replayCapacity > 0
    ensures BodyAccepted(s)
  {
    LogFaultNone(s.log, 0, s.serverSequence);
    forall target | target in s.records
      ensures s.records[target].serverSequence <= s.serverSequence && Valid(s.records[target].mutation)
    {
      assert s.records[target] in s.log;
    }
  }

  lemma CoherentReplay(s: Engine)
    requires ReplayWindow(s)
    ensures ReplayAccepted(s)
  {
    RetainedCount(s);
    forall id | id in s.replayOrder
      ensures id in s.replayIndex
    {
      var i :| 0 <= i < |s.replayOrder| && s.replayOrder[i] == id;
    }
  }

  /** Every reachable engine passes the snapshot check, so a restart loses nothing. */
  lemma {:induction false} ReachableSnapshotAccepted(capacity: usize, ms: seq<SyncMutation>)
    requires capacity > 0
    ensures Accepted(Run(Initial(capacity), ms))
  {
    var s := Run(Initial(capacity), ms);
    ReachableCoherent(capacity, ms);
    CoherentBody(s);
    CoherentReplay(s);
    AcceptedParts(s);
  }

  lemma AppendKeepsBody(s: Engine, m: SyncMutation)
    requires BodyAccepted(s) && Fresh(s, m)
    ensures BodyAccepted(Append(s, m))
  {
    LogFaultNone(s.log, 0, s.serverSequence);
    var next := Append(s, m);
    assert next.log == s.log + [NextEntry(s, m)];
    LogFaultNone(next.log, 0, next.serverSequence);
  }

  lemma PopExact(order: seq<Text>, index: map<Text, SequencedMutation>, entry: SequencedMutation)
    requires order != [] && |index| == |order| && entry.mutation.mutationId !in index
    requires forall id :: id in order ==> id in index
    ensures var id := entry.mutation.mutationId;
      var popped, kept := (order + [id])[1..], index[id := entry] - {order[0]};
      && |kept| == |popped|
      && ((forall x :: x in popped ==> x in kept) <==> order[0] !in order[1..])
  {
    var id := entry.mutation.mutationId;
    var popped, kept := (order + [id])[1..], index[id := entry] - {order[0]};
    assert popped == order[1..] + [id];
    assert kept.Keys == index.Keys + {id} - {order[0]};
    assert |index.Keys + {id}| == |index| + 1;
  }

  lemma AppendReplayExact(s: Engine, m: SyncMutation)
    requires s.replayCapacity > 0 && ReplayAccepted(s) && Fresh(s, m)
    ensures ReplayAccepted(Append(s, m)) <==>
      |s.replayOrder| < s.replayCapacity || s.replayOrder[0] !in s.replayOrder[1..]
  {
    var order, index := s.replayOrder + [m.mutationId], s.replayIndex[m.mutationId := NextEntry(s, m)];
    var next := Append(s, m);
    RememberOne(Logged(s, m), NextEntry(s, m));
    if |s.replayOrder| == s.replayCapacity {
      assert next.replayOrder == order[1..] && next.replayIndex == index - {order[0]};
      PopExact(s.replayOrder, s.replayIndex, NextEntry(s, m));
    } else {
      assert next.replayOrder == order && next.replayIndex == index;
      assert |index| == |s.replayIndex| + 1;
      assert ReplayAccepted(next);
    }
  }

  /** Acceptance is not kept by every step: after sequencing a fresh mutation an accepted
      snapshot is accepted again if and only if nothing is evicted or the evicted
      identifier does not occur a second time in the replay order. */
  lemma AcceptanceKeptExactly(s: Engine, m: SyncMutation)
    requires Accepted(s) && Fresh(s, m)
    ensures Accepted(Advance(s, m)) <==>
      |s.replayOrder| < s.replayCapacity || s.replayOrder[0] !in s.replayOrder[1..]
  {
    AcceptedParts(s);
    AdvanceCases(s, m);
    AppendKeepsBody(s, m);
    AppendReplayExact(s, m);
    AcceptedParts(Append(s, m));
  }

  lemma AppendKeepsDistinct(s: Engine, m: SyncMutation)
    requires s.replayCapacity > 0 && ReplayAccepted(s) && Fresh(s, m) && DistinctOrder(s)
    ensures DistinctOrder(Append(s, m))
  {
    RememberOne(Logged(s, m), NextEntry(s, m));
    assert m.mutationId !in s.replayOrder;
    var order := s.replayOrder + [m.mutationId];
    assert forall i, j :: 0 <= i < j < |order| ==> order[i] != order[j];
  }

  /** A snapshot accepted with a replay order free of repetitions stays accepted forever. */
  lemma {:induction false} DistinctSnapshotStaysAccepted(s: Engine, ms: seq<SyncMutation>)
    requires Accepted(s) && DistinctOrder(s)
    ensures Accepted(Run(s, ms)) && DistinctOrder(Run(s, ms))
  {
    if ms == [] {
    } else {
      var before, m := Run(s, ms[..|ms| - 1]), ms[|ms| - 1];
      DistinctSnapshotStaysAccepted(s, ms[..|ms| - 1]);
      AdvanceCases(before, m);
      if Fresh(before, m) {
        AcceptanceKeptExactly(before, m);
        AcceptedParts(before);
        AppendKeepsDistinct(before, m);
      }
    }
  }

  /** `n` in base 256, lowest digit first. */
  function Numeral(n: nat): Text { [n % 256] + if n < 256 then [] else Numeral(n / 256) }

  function Value(t: Text): nat { if t == [] then 0 else t[0] + 256 * Value(t[1..]) }

  function Power(k: nat): nat { if k == 0 then 1 else 256 * Power(k - 1) }

  lemma {:induction false} NumeralValue(n: nat)
    ensures Value(Numeral(n)) == n
  {
    if n < 256 {
      assert Numeral(n)[1..] == [];
    } else {
      NumeralValue(n / 256);
      assert Numeral(n)[1..] == Numeral(n / 256);
    }
  }

  lemma {:induction false} NumeralLength(n: nat, k: nat)
    requires 0 < k && n < Power(k)
    ensures 1 <= |Numeral(n)| <= k
  {
    if n < 256 {
    } else {
      assert k > 1 by {
        assert Power(1) == 256 * Power(0);
      }
      NumeralLength(n / 256, k - 1);
    }
  }

  /** No replay index exhausts the identifiers. */
  lemma UnusedIdentifier(taken: set<Text>)
    requires |taken| <= U64_MAX
    ensures exists id: Text :: 1 <= |id| <= 128 && id !in taken
  {
    var numerals := seq(|taken| + 1, n requires n >= 0 => Numeral(n));
    forall i, j | 0 <= i < j < |numerals|
      ensures numerals[i] != numerals[j]
    {
      NumeralValue(i);
      NumeralValue(j);
    }
    DistinctCount(numerals);
    if forall n :: 0 <= n < |numerals| ==> numerals[n] in taken {
      SubsetSize((set id | id in numerals), taken);
    } else {
      var n :| 0 <= n < |numerals| && numerals[n] !in taken;
      assert Power(9) == 256 * (256 * (256 * (256 * Power(5))));
      assert Power(5) == 256 * (256 * (256 * (256 * Power(1))));
      NumeralLength(n, 9);
    }
  }

  lemma FreshExists(s: Engine)
    requires Accepted(s) && s.serverSequence < U64_MAX
    ensures exists m :: Fresh(s, m)
  {
    AcceptedParts(s);
    UnusedIdentifier(s.replayIndex.Keys);
    var id: Text :| 1 <= |id| <= 128 && id !in s.replayIndex.Keys;
    assert Fresh(s, SyncMutation(id, [111], 0, [100], PinChanged(true)));
  }

  /** Positions `i` and `j` of the replay order hold one identifier. */
  ghost predicate Repeats(s: Engine, i: nat, j: nat) {
    i < j < |s.replayOrder| <= s.replayCapacity && s.replayOrder[i] == s.replayOrder[j]
  }

  /** How many more fresh mutations bring position `i` to its eviction. */
  function Distance(s: Engine, i: nat): int { s.replayCapacity - |s.replayOrder| + i }

  /** From `s` to `next` one fresh identifier has joined the replay order. */
  ghost predicate OrderMoves(s: Engine, next: Engine, id: Text) {
    && id !in s.replayOrder && 0 < s.replayCapacity && |s.replayOrder| <= s.replayCapacity
    && next.serverSequence == s.serverSequence + 1 && next.replayCapacity == s.replayCapacity
    && next.replayOrder == if |s.replayOrder| < s.replayCapacity then s.replayOrder + [id]
                           else (s.replayOrder + [id])[1..]
  }

  lemma FreshOrder(s: Engine, m: SyncMutation)
    requires Accepted(s) && Fresh(s, m)
    ensures OrderMoves(s, Advance(s, m), m.mutationId)
  {
    AcceptedParts(s);
    AdvanceCases(s, m);
    RememberOne(Logged(s, m), NextEntry(s, m));
  }

  /** While acceptance survives, a repetition moves one step closer to its eviction. */
  lemma RepetitionMoves(s: Engine, next: Engine, id: Text, i: nat, j: nat)
    requires OrderMoves(s, next, id) && Repeats(s, i, j)
    requires |s.replayOrder| < s.replayCapacity || s.replayOrder[0] !in s.replayOrder[1..]
    ensures exists k, l :: Repeats(next, k, l) && Distance(next, k) == Distance(s, i) - 1
  {
    RepetitionShifts(s.replayOrder, id, i, j);
    if |s.replayOrder| < s.replayCapacity {
      assert Repeats(next, i, j);
    } else {
      assert Repeats(next, i - 1, j - 1);
    }
  }

  lemma RepetitionShifts(order: seq<Text>, id: Text, i: nat, j: nat)
    requires i < j < |order| && order[i] == order[j]
    ensures (order + [id])[i] == (order + [id])[j]
    ensures order[0] !in order[1..] ==> 0 < i && (order + [id])[1..][i - 1] == (order + [id])[1..][j - 1]
  {
    assert order[1..][j - 1] == order[j];
  }

  /** Some repetition is `distance` fresh mutations short of its eviction. */
  ghost predicate RepeatsWithin(s: Engine, distance: nat) {
    exists i, j :: Repeats(s, i, j) && Distance(s, i) == distance
  }

  lemma RepetitionNears(s: Engine, m: SyncMutation, distance: nat)
    requires Accepted(s) && Fresh(s, m) && RepeatsWithin(s, distance) && Accepted(Advance(s, m))
    ensures Advance(s, m).serverSequence == s.serverSequence + 1
    ensures distance > 0 && RepeatsWithin(Advance(s, m), distance - 1)
  {
    var i, j :| Repeats(s, i, j) && Distance(s, i) == distance;
    AcceptanceKeptExactly(s, m);
    FreshOrder(s, m);
    RepetitionMoves(s, Advance(s, m), m.mutationId, i, j);
    var k, l :| Repeats(Advance(s, m), k, l) && Distance(Advance(s, m), k) == distance - 1;
  }

  lemma RunPrepends(s: Engine, m: SyncMutation, ms: seq<SyncMutation>)
    ensures Run(s, [m] + ms) == Run(Advance(s, m), ms)
  {
    assert [m][..0] == [] && Run(s, [m]) == Advance(s, m);
    RunAppend(s, [m], ms);
  }

  /** Whatever is delivered, the engine's next snapshot is accepted again. */
  ghost predicate StaysAccepted(s: Engine) { forall ms :: Accepted(Run(s, ms)) }

  lemma SpoiledBy(s: Engine, m: SyncMutation, ms: seq<SyncMutation>)
    requires !Accepted(Run(Advance(s, m), ms))
    ensures !StaysAccepted(s)
  {
    RunPrepends(s, m, ms);
    var longer := [m] + ms;
    assert !Accepted(Run(s, longer));
  }

  lemma SpoiledEarlier(s: Engine, m: SyncMutation)
    requires !Accepted(Advance(s, m)) || !StaysAccepted(Advance(s, m))
    ensures !StaysAccepted(s)
  {
    var next := Advance(s, m);
    assert Run(next, []) == next;
    var ms :| !Accepted(Run(next, ms));
    SpoiledBy(s, m, ms);
  }

  /** An accepted snapshot whose replay order repeats an identifier is spoiled by some
      deliveries, once the earlier occurrence comes to be evicted. */
  lemma {:induction false} RepetitionSpoils(s: Engine, distance: nat)
    requires Accepted(s) && RepeatsWithin(s, distance) && s.serverSequence + distance < U64_MAX
    ensures !StaysAccepted(s)
    decreases distance
  {
    FreshExists(s);
    var m :| Fresh(s, m);
    if Accepted(Advance(s, m)) {
      RepetitionNears(s, m, distance);
      RepetitionSpoils(Advance(s, m), distance - 1);
    }
    SpoiledEarlier(s, m);
  }

  /** The sequence is exhausted before any repeated identifier comes to be evicted. */
  ghost predicate RepetitionsOutOfReach(s: Engine) {
    forall i, j :: Repeats(s, i, j) ==> s.serverSequence + Distance(s, i) >= U64_MAX
  }

  lemma OutOfReachKeepsAcceptance(s: Engine, m: SyncMutation)
    requires Accepted(s) && Fresh(s, m) && RepetitionsOutOfReach(s)
    ensures Accepted(Advance(s, m))
  {
    AcceptedParts(s);
    AcceptanceKeptExactly(s, m);
    if |s.replayOrder| == s.replayCapacity && s.replayOrder[0] in s.replayOrder[1..] {
      var j :| 0 <= j < |s.replayOrder[1..]| && s.replayOrder[1..][j] == s.replayOrder[0];
      assert Repeats(s, 0, j + 1);
      assert false;
    }
  }

  /** What repeats after a fresh mutation did before, one step further from its eviction. */
  lemma RepetitionsCameNearer(s: Engine, next: Engine, id: Text, i: nat, j: nat)
    requires OrderMoves(s, next, id) && Repeats(next, i, j)
    ensures exists k, l :: Repeats(s, k, l) && Distance(s, k) == Distance(next, i) + 1
  {
    NewestIsNotRepeated(s.replayOrder, id, i, j);
    var k := if |s.replayOrder| < s.replayCapacity then 0 else 1;
    assert Repeats(s, i + k, j + k);
  }

  lemma NewestIsNotRepeated(order: seq<Text>, id: Text, i: nat, j: nat)
    requires id !in order && i < j
    ensures j <= |order| && (order + [id])[i] == (order + [id])[j] ==> j < |order| && order[i] == order[j]
    ensures j < |order| && (order + [id])[1..][i] == (order + [id])[1..][j] ==>
      j + 1 < |order| && order[i + 1] == order[j + 1]
  {
  }

  lemma OutOfReachStays(s: Engine, next: Engine, id: Text)
    requires OrderMoves(s, next, id) && RepetitionsOutOfReach(s)
    ensures RepetitionsOutOfReach(next)
  {
    forall i, j | Repeats(next, i, j)
      ensures next.serverSequence + Distance(next, i) >= U64_MAX
    {
      RepetitionsCameNearer(s, next, id, i, j);
    }
  }

  lemma {:induction false} OutOfReachStaysAccepted(s: Engine, ms: seq<SyncMutation>)
    requires Accepted(s) && RepetitionsOutOfReach(s)
    ensures Accepted(Run(s, ms)) && RepetitionsOutOfReach(Run(s, ms))
  {
    if ms == [] {
    } else {
      var before, m := Run(s, ms[..|ms| - 1]), ms[|ms| - 1];
      OutOfReachStaysAccepted(s, ms[..|ms| - 1]);
      AdvanceCases(before, m);
      if Fresh(before, m) {
        OutOfReachKeepsAcceptance(before, m);
        FreshOrder(before, m);
        OutOfReachStays(before, Advance(before, m), m.mutationId);
      }
    }
  }

  /** Which accepted snapshots stay accepted, exactly: all later states are accepted if and
      only if the sequence is exhausted before any repeated identifier of the replay order
      comes to be evicted. */
  lemma StaysAcceptedExactly(s: Engine)
    requires Accepted(s)
    ensures StaysAccepted(s) <==> RepetitionsOutOfReach(s)
  {
    if RepetitionsOutOfReach(s) {
      forall ms
        ensures Accepted(Run(s, ms))
      {
        OutOfReachStaysAccepted(s, ms);
      }
    } else {
      var i, j :| Repeats(s, i, j) && s.serverSequence + Distance(s, i) < U64_MAX;
      assert RepeatsWithin(s, Distance(s, i));
      RepetitionSpoils(s, Distance(s, i));
    }
  }

  /** With a capacity's worth of sequence left that means: if and only if the replay order
      repeats no identifier. */
  lemma AmpleSequenceStaysAcceptedExactly(s: Engine)
    requires Accepted(s) && s.serverSequence + s.replayCapacity <= U64_MAX
    ensures StaysAccepted(s) <==> DistinctOrder(s)
  {
    StaysAcceptedExactly(s);
    AcceptedParts(s);
    if !DistinctOrder(s) {
      var i, j :| 0 <= i < j < |s.replayOrder| && s.replayOrder[i] == s.replayOrder[j];
      assert Repeats(s, i, j);
    }
  }

  /** A snapshot no engine reaches: its replay order repeats an identifier and its only
      record is not in its log. */
  function Forged(kept: SyncMutation, other: SyncMutation): Engine {
    var entry := SequencedMutation(1, kept);
    Engine(1, map[kept.objectId := entry], [],
           map[kept.mutationId := entry, other.mutationId := entry], [kept.mutationId, kept.mutationId], 2)
  }

  /** The snapshot check is weaker than reachability: a forged snapshot is accepted, no
      delivery sequence reaches it, and the next fresh mutation makes it unacceptable. */
  lemma ForgedSnapshotAccepted(kept: SyncMutation, other: SyncMutation, novel: SyncMutation)
    requires Valid(kept) && Valid(novel)
    requires kept.mutationId != other.mutationId
    requires novel.mutationId != kept.mutationId && novel.mutationId != other.mutationId
    ensures Accepted(Forged(kept, other))
    ensures forall ms :: Run(Initial(2), ms) != Forged(kept, other)
    ensures !Accepted(Advance(Forged(kept, other), novel))
  {
    var s := Forged(kept, other);
    assert s.replayIndex.Keys == {kept.mutationId, other.mutationId};
    AcceptedParts(s);
    forall ms
      ensures Run(Initial(2), ms) != s
    {
      ReachableCoherent(2, ms);
    }
    AcceptanceKeptExactly(s, novel);
    assert s.replayOrder[1..][0] == kept.mutationId;
  }
}
