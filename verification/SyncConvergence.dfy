/** Replicas that receive the same mutations end with the same heads. */
module SyncConvergence {
  import opened Text
  import opened SyncProtocol
  import opened SyncReachability

  /** Among the valid deliveries an identifier names one mutation. */
  ghost predicate IdDeterminesMutation(ms: seq<SyncMutation>) {
    forall a, b :: a in ms && b in ms && Valid(a) && Valid(b) && a.mutationId == b.mutationId ==> a == b
  }

  /** No delivery met an exhausted server sequence. */
  ghost predicate NeverExhausted(s: Engine, ms: seq<SyncMutation>) {
    ms == [] ||
    (&& NeverExhausted(s, ms[..|ms| - 1])
     && Transitioned(Run(s, ms[..|ms| - 1]), ms[|ms| - 1]) != Failure(InvalidMutation(ServerSequenceExhausted)))
  }

  ghost predicate Delivered(log: seq<SequencedMutation>, m: SyncMutation) {
    exists e :: e in log && e.mutation == m
  }

  lemma {:induction false} SequenceBound(capacity: usize, ms: seq<SyncMutation>)
    ensures Run(Initial(capacity), ms).serverSequence <= |ms|
  {
    if ms == [] {
    } else {
      SequenceBound(capacity, ms[..|ms| - 1]);
    }
  }

  /** Fewer than 2^64 deliveries never exhaust the sequence. */
  lemma {:induction false} ShortRunNeverExhausted(capacity: usize, ms: seq<SyncMutation>)
    requires |ms| <= U64_MAX
    ensures NeverExhausted(Initial(capacity), ms)
  {
    if ms == [] {
    } else {
      ShortRunNeverExhausted(capacity, ms[..|ms| - 1]);
      SequenceBound(capacity, ms[..|ms| - 1]);
    }
  }

  /** Nothing enters the log but valid mutations that were delivered. */
  lemma {:induction false} LogIsDelivered(capacity: usize, ms: seq<SyncMutation>, e: SequencedMutation)
    requires e in Run(Initial(capacity), ms).log
    ensures e.mutation in ms && Valid(e.mutation)
  {
    if ms == [] {
    } else {
      var earlier, last := ms[..|ms| - 1], ms[|ms| - 1];
      var s := Run(Initial(capacity), earlier);
      AdvanceCases(s, last);
      if e in s.log {
        LogIsDelivered(capacity, earlier, e);
      }
    }
  }

  /** No other valid mutation of `ms` carries the identifier of `t`. */
  ghost predicate OwnsIdentifier(ms: seq<SyncMutation>, t: SyncMutation) {
    forall m :: m in ms && Valid(m) && m.mutationId == t.mutationId ==> m == t
  }

  /** A valid mutation that owns its identifier enters the log, whatever is evicted. */
  lemma {:induction false} OwnerIsLogged(capacity: usize, ms: seq<SyncMutation>, t: SyncMutation)
    requires capacity > 0 && NeverExhausted(Initial(capacity), ms)
    requires t in ms && Valid(t) && OwnsIdentifier(ms, t)
    ensures Delivered(Run(Initial(capacity), ms).log, t)
  {
    var earlier, last := ms[..|ms| - 1], ms[|ms| - 1];
    var s := Run(Initial(capacity), earlier);
    assert ms == earlier + [last];
    AdvanceCases(s, last);
    if t in earlier {
      OwnerIsLogged(capacity, earlier, t);
      var e :| e in s.log && e.mutation == t;
      assert e in Run(Initial(capacity), ms).log;
    } else if t.mutationId in s.replayIndex {
      ReachableCoherent(capacity, earlier);
      WindowLookup(s, t.mutationId);
      var kept := s.replayIndex[t.mutationId];
      assert kept in s.log;
      LogIsDelivered(capacity, earlier, kept);
    } else {
      assert Advance(s, last).log == s.log + [NextEntry(s, last)];
      assert NextEntry(s, last) in Run(Initial(capacity), ms).log;
    }
  }

  /** The log carries exactly the valid mutations delivered, whatever was evicted. */
  lemma {:induction false} LogCarriesDeliveries(capacity: usize, ms: seq<SyncMutation>, m: SyncMutation)
    requires capacity > 0 && IdDeterminesMutation(ms) && NeverExhausted(Initial(capacity), ms)
    ensures m in ms && Valid(m) <==> Delivered(Run(Initial(capacity), ms).log, m)
  {
    if m in ms && Valid(m) {
      OwnerIsLogged(capacity, ms, m);
    } else if Delivered(Run(Initial(capacity), ms).log, m) {
      var e :| e in Run(Initial(capacity), ms).log && e.mutation == m;
      LogIsDelivered(capacity, ms, e);
    }
  }

  /** Entries with different identifiers are ordered by their mutations alone. */
  lemma WinsByMutation(a: SequencedMutation, b: SequencedMutation, c: SequencedMutation, d: SequencedMutation)
    requires a.mutation == c.mutation && b.mutation == d.mutation
    requires a.mutation.mutationId != b.mutation.mutationId
    ensures WinsConflict(a, b) <==> WinsConflict(c, d)
  {
  }

  /** `a` wins against `b` at equal sequence. */
  predicate Beats(a: SyncMutation, b: SyncMutation) { WinsConflict(SequencedMutation(0, a), SequencedMutation(0, b)) }

  /** A valid mutation of `ms` for `target`. */
  predicate Contender(ms: seq<SyncMutation>, target: Text, m: SyncMutation) {
    m in ms && Valid(m) && m.objectId == target
  }

  ghost predicate Greatest(ms: seq<SyncMutation>, target: Text, t: SyncMutation) {
    Contender(ms, target, t) && forall m :: Contender(ms, target, m) ==> !Beats(m, t)
  }

  /** A greatest valid mutation for `target` that alone carries its identifier. */
  ghost predicate Decisive(ms: seq<SyncMutation>, target: Text, t: SyncMutation) {
    Greatest(ms, target, t) && OwnsIdentifier(ms, t)
  }

  /** `delivered` is a delivery of exactly the mutations of `ms` that is never exhausted. */
  ghost predicate Delivers(ms: seq<SyncMutation>, capacity: usize, delivered: seq<SyncMutation>) {
    && capacity > 0 && (forall m :: m in delivered <==> m in ms)
    && NeverExhausted(Initial(capacity), delivered)
  }

  ghost predicate SameHead(a: Engine, b: Engine, target: Text) {
    && (target in a.records <==> target in b.records)
    && (target in a.records ==> a.records[target].mutation == b.records[target].mutation)
  }

  /** All deliveries of `ms`, in any order, with any repetitions and under any positive
      capacities, end with the same head mutation for `target`. */
  ghost predicate Converges(ms: seq<SyncMutation>, target: Text) {
    forall capacityA: usize, a, capacityB: usize, b :: Delivers(ms, capacityA, a) && Delivers(ms, capacityB, b) ==>
      SameHead(Run(Initial(capacityA), a), Run(Initial(capacityB), b), target)
  }

  lemma HeadIsContender(ms: seq<SyncMutation>, capacity: usize, delivered: seq<SyncMutation>, target: Text)
    requires capacity > 0 && forall m :: m in delivered <==> m in ms
    requires target in Run(Initial(capacity), delivered).records
    ensures Contender(ms, target, Run(Initial(capacity), delivered).records[target].mutation)
  {
    ReachableCoherent(capacity, delivered);
    LogIsDelivered(capacity, delivered, Run(Initial(capacity), delivered).records[target]);
  }

  /** An entry whose mutation no contender beats, and whose identifier no other mutation
      of the log carries, makes that mutation the head. */
  lemma UnbeatenIsHead(ms: seq<SyncMutation>, capacity: usize, delivered: seq<SyncMutation>, target: Text,
                       e: SequencedMutation)
    requires capacity > 0 && forall m :: m in delivered <==> m in ms
    requires e in Run(Initial(capacity), delivered).log && Greatest(ms, target, e.mutation)
    requires forall other :: other in Run(Initial(capacity), delivered).log
                             && other.mutation.mutationId == e.mutation.mutationId ==>
               other.mutation == e.mutation
    ensures target in Run(Initial(capacity), delivered).records
    ensures Run(Initial(capacity), delivered).records[target].mutation == e.mutation
  {
    var s := Run(Initial(capacity), delivered);
    ReachableCoherent(capacity, delivered);
    HeadIsContender(ms, capacity, delivered, target);
    var head := s.records[target];
    if head.mutation != e.mutation {
      assert head in s.log && WinsConflict(head, e);
      WinsByMutation(head, e, SequencedMutation(0, head.mutation), SequencedMutation(0, e.mutation));
      assert false;
    }
  }

  /** A decisive mutation is the head after every delivery. */
  lemma DecisiveIsHead(
    ms: seq<SyncMutation>, capacity: usize, delivered: seq<SyncMutation>, target: Text, t: SyncMutation)
    requires Delivers(ms, capacity, delivered) && Decisive(ms, target, t)
    ensures target in Run(Initial(capacity), delivered).records
    ensures Run(Initial(capacity), delivered).records[target].mutation == t
  {
    var s := Run(Initial(capacity), delivered);
    OwnerIsLogged(capacity, delivered, t);
    var e :| e in s.log && e.mutation == t;
    forall other | other in s.log && other.mutation.mutationId == t.mutationId
      ensures other.mutation == t
    {
      LogIsDelivered(capacity, delivered, other);
    }
    UnbeatenIsHead(ms, capacity, delivered, target, e);
  }

  lemma {:induction false} GreatestExists(ms: seq<SyncMutation>, target: Text)
    requires exists m :: Contender(ms, target, m)
    ensures exists t :: Greatest(ms, target, t)
  {
    if ms == [] {
    } else {
      var earlier, last := ms[..|ms| - 1], ms[|ms| - 1];
      assert ms == earlier + [last];
      assert forall m :: Contender(ms, target, m) <==>
        Contender(earlier, target, m) || (m == last && Contender(ms, target, last));
      if exists m :: Contender(earlier, target, m) {
        GreatestExists(earlier, target);
        var best :| Greatest(earlier, target, best);
        var t := if Contender(ms, target, last) && Beats(last, best) then last else best;
        forall m | Contender(ms, target, m)
          ensures !Beats(m, t)
        {
          WinsIrreflexive(SequencedMutation(0, m));
          if Beats(m, t) && Beats(t, best) {
            WinsTransitive(SequencedMutation(0, m), SequencedMutation(0, t), SequencedMutation(0, best));
          }
        }
        assert Greatest(ms, target, t);
      } else {
        WinsIrreflexive(SequencedMutation(0, last));
        assert Greatest(ms, target, last);
      }
    }
  }

  lemma {:induction false} LogGrows(s: Engine, ms: seq<SyncMutation>)
    ensures s.log <= Run(s, ms).log
  {
    if ms == [] {
    } else {
      LogGrows(s, ms[..|ms| - 1]);
      AdvanceCases(Run(s, ms[..|ms| - 1]), ms[|ms| - 1]);
    }
  }

  lemma FirstIsLogged(capacity: usize, x: SyncMutation, ms: seq<SyncMutation>)
    requires Valid(x) && capacity > 0
    ensures [SequencedMutation(1, x)] <= Run(Initial(capacity), [x] + ms).log
  {
    FirstDelivery(capacity, x);
    assert [x][..0] == [];
    assert Run(Initial(capacity), [x]) == AfterFirst(capacity, x);
    RunAppend(Initial(capacity), [x], ms);
    LogGrows(AfterFirst(capacity, x), ms);
  }

  /** Delivered first to an engine that never evicts, `x` keeps its identifier to itself. */
  lemma FirstKeepsIdentifier(capacity: usize, x: SyncMutation, ms: seq<SyncMutation>)
    requires Valid(x) && capacity > |ms|
    ensures var log := Run(Initial(capacity), [x] + ms).log;
      && log != [] && log[0].mutation == x
      && forall e :: e in log && e.mutation.mutationId == x.mutationId ==> e == log[0]
  {
    var s := Run(Initial(capacity), [x] + ms);
    FirstIsLogged(capacity, x, ms);
    ReachableCoherent(capacity, [x] + ms);
    SequenceBound(capacity, [x] + ms);
    ShortLogIsDistinct(s);
  }

  /** Nothing has been evicted from an engine whose log fits its window. */
  lemma ShortLogIsDistinct(s: Engine)
    requires ReplayWindow(s) && |s.log| <= s.replayCapacity
    ensures forall i, j :: 0 <= i < j < |s.log| ==> s.log[i].mutation.mutationId != s.log[j].mutation.mutationId
  {
    assert Window(s.log, s.replayCapacity) == s.log;
    assert forall i :: 0 <= i < |s.log| ==> s.replayOrder[i] == s.log[i].mutation.mutationId;
  }

  /** Delivered first, a greatest mutation is the head of an engine that never evicts. */
  lemma GreatestFirst(ms: seq<SyncMutation>, target: Text, t: SyncMutation, capacity: usize)
    requires Greatest(ms, target, t) && capacity > |ms|
    ensures var s := Run(Initial(capacity), [t] + ms);
      target in s.records && s.records[target].mutation == t
  {
    FirstKeepsIdentifier(capacity, t, ms);
    UnbeatenIsHead(ms, capacity, [t] + ms, target, Run(Initial(capacity), [t] + ms).log[0]);
  }

  /** Delivered first, another holder of its identifier keeps it out of the log. */
  lemma HolderFirst(ms: seq<SyncMutation>, target: Text, t: SyncMutation, x: SyncMutation, capacity: usize)
    requires Valid(x) && x != t && x.mutationId == t.mutationId && capacity > |ms|
    ensures var s := Run(Initial(capacity), [x] + ms);
      target in s.records ==> s.records[target].mutation != t
  {
    FirstKeepsIdentifier(capacity, x, ms);
    ReachableCoherent(capacity, [x] + ms);
  }

  lemma DeliveredFirst(ms: seq<SyncMutation>, x: SyncMutation, capacity: usize)
    requires x in ms && 0 < capacity && |ms| + 1 <= U64_MAX
    ensures Delivers(ms, capacity, [x] + ms)
  {
    ShortRunNeverExhausted(capacity, [x] + ms);
  }

  lemma SharedIdentifierDiverges(ms: seq<SyncMutation>, target: Text, t: SyncMutation)
    requires |ms| + 1 <= U64_MAX && Greatest(ms, target, t) && !OwnsIdentifier(ms, t)
    ensures !Converges(ms, target)
  {
    var x :| x in ms && Valid(x) && x.mutationId == t.mutationId && x != t;
    var capacity: usize := |ms| + 1;
    DeliveredFirst(ms, t, capacity);
    DeliveredFirst(ms, x, capacity);
    GreatestFirst(ms, target, t, capacity);
    HolderFirst(ms, target, t, x, capacity);
    assert !SameHead(Run(Initial(capacity), [t] + ms), Run(Initial(capacity), [x] + ms), target);
  }

  lemma DecisiveConverges(ms: seq<SyncMutation>, target: Text)
    requires (exists m :: Contender(ms, target, m)) ==> exists t :: Decisive(ms, target, t)
    ensures Converges(ms, target)
  {
    forall capacityA: usize, a, capacityB: usize, b | Delivers(ms, capacityA, a) && Delivers(ms, capacityB, b)
      ensures SameHead(Run(Initial(capacityA), a), Run(Initial(capacityB), b), target)
    {
      if t :| Decisive(ms, target, t) {
        DecisiveIsHead(ms, capacityA, a, target, t);
        DecisiveIsHead(ms, capacityB, b, target, t);
      } else {
        if target in Run(Initial(capacityA), a).records {
          HeadIsContender(ms, capacityA, a, target);
        }
        if target in Run(Initial(capacityB), b).records {
          HeadIsContender(ms, capacityB, b, target);
        }
      }
    }
  }

  /** Convergence, exactly: all deliveries of `ms` end with the same head mutation for an
      object if and only if no valid mutation of `ms` concerns the object, or a greatest one
      that does alone carries its identifier. Reused identifiers among losers do no harm. */
  lemma ConvergesExactly(ms: seq<SyncMutation>, target: Text)
    requires |ms| + 1 <= U64_MAX
    ensures Converges(ms, target) <==>
      ((exists m :: Contender(ms, target, m)) ==> exists t :: Decisive(ms, target, t))
  {
    if (exists m :: Contender(ms, target, m)) ==> exists t :: Decisive(ms, target, t) {
      DecisiveConverges(ms, target);
    } else {
      GreatestExists(ms, target);
      var t :| Greatest(ms, target, t);
      assert !Decisive(ms, target, t);
      SharedIdentifierDiverges(ms, target, t);
    }
  }

  /** Convergence for all objects, from a condition on identifiers alone: if an identifier
      determines its mutation, two engines that received the same mutations, in any order,
      with any repetitions and under any two positive capacities, hold the same heads. */
  lemma Converge(
    capacityA: usize, deliveredA: seq<SyncMutation>, capacityB: usize, deliveredB: seq<SyncMutation>, target: Text)
    requires capacityA > 0 && capacityB > 0
    requires forall m :: m in deliveredA <==> m in deliveredB
    requires IdDeterminesMutation(deliveredA)
    requires NeverExhausted(Initial(capacityA), deliveredA)
    requires NeverExhausted(Initial(capacityB), deliveredB)
    ensures SameHead(Run(Initial(capacityA), deliveredA), Run(Initial(capacityB), deliveredB), target)
  {
    if exists m :: Contender(deliveredA, target, m) {
      GreatestExists(deliveredA, target);
      var t :| Greatest(deliveredA, target, t);
      assert Decisive(deliveredA, target, t);
    }
    DecisiveConverges(deliveredA, target);
    assert Delivers(deliveredA, capacityA, deliveredA) && Delivers(deliveredA, capacityB, deliveredB);
  }

  /** `a` and `b` reuse one identifier for different content and tie in every other
      component of the conflict order; `between` concerns another object. */
  ghost predicate ReusedIdentifier(a: SyncMutation, b: SyncMutation, between: SyncMutation) {
    && Valid(a) && Valid(b) && Valid(between) && a != b
    && a.mutationId == b.mutationId && a.objectId == b.objectId
    && a.logicalClock == b.logicalClock && a.deviceId == b.deviceId
    && DeletionPrecedence(a.kind) == DeletionPrecedence(b.kind)
    && between.mutationId != a.mutationId && between.objectId != a.objectId
  }

  function AfterFirst(capacity: usize, a: SyncMutation): Engine {
    var entry := SequencedMutation(1, a);
    Engine(1, map[a.objectId := entry], [entry], map[a.mutationId := entry], [a.mutationId], capacity)
  }

  function AfterSecond(a: SyncMutation, b: SyncMutation): Engine {
    var e1, e2 := SequencedMutation(1, a), SequencedMutation(2, b);
    Engine(2, map[a.objectId := e1, b.objectId := e2], [e1, e2], map[b.mutationId := e2], [b.mutationId], 1)
  }

  lemma FirstDelivery(capacity: usize, a: SyncMutation)
    requires Valid(a) && capacity > 0
    ensures Advance(Initial(capacity), a) == AfterFirst(capacity, a)
  {
    var entry := SequencedMutation(1, a);
    var logged := Logged(Initial(capacity), a);
    assert logged == Engine(1, map[a.objectId := entry], [entry], map[], [], capacity) by {
      assert [] + [entry] == [entry];
      assert map[][a.objectId := entry] == map[a.objectId := entry];
    }
    RememberOne(logged, entry);
    assert [] + [a.mutationId] == [a.mutationId];
    assert map[][a.mutationId := entry] == map[a.mutationId := entry];
    AdvanceCases(Initial(capacity), a);
  }

  lemma SecondDelivery(a: SyncMutation, b: SyncMutation)
    requires Valid(b) && b.mutationId != a.mutationId && b.objectId != a.objectId
    ensures Advance(AfterFirst(1, a), b) == AfterSecond(a, b)
  {
    RememberOne(Logged(AfterFirst(1, a), b), SequencedMutation(2, b));
    AdvanceCases(AfterFirst(1, a), b);
    assert ([a.mutationId] + [b.mutationId])[1..] == [b.mutationId];
  }

  /** Under a window of one identifier, reusing an identifier for other content after its
      eviction leaves the last content delivered as the head. */
  lemma LastContentWins(a: SyncMutation, between: SyncMutation, b: SyncMutation)
    requires ReusedIdentifier(a, b, between)
    ensures var s := Run(Initial(1), [a, between, b]);
      a.objectId in s.records && s.records[a.objectId].mutation == b
  {
    assert [a, between, b][..2] == [a, between] && [a, between][..1] == [a] && [a][..0] == [];
    FirstDelivery(1, a);
    SecondDelivery(a, between);
    var s := AfterSecond(a, between);
    assert Run(Initial(1), []) == Initial(1);
    assert Run(Initial(1), [a]) == AfterFirst(1, a);
    assert Run(Initial(1), [a, between]) == s;
    assert Run(Initial(1), [a, between, b]) == Advance(s, b);
    AdvanceCases(s, b);
    assert WinsConflict(NextEntry(s, b), s.records[a.objectId]);
  }

  const PINNED := SyncMutation([97], [111], 1, [100], PinChanged(true))
  const UNPINNED := SyncMutation([97], [111], 1, [100], PinChanged(false))
  const ELSEWHERE := SyncMutation([98], [112], 1, [100], PinChanged(true))

  /** The identifier condition of `Converge` is needed: two replicas of these three
      mutations end with different heads for the same object. */
  lemma ReusedIdentifierDiverges()
    ensures var forward, backward := [PINNED, ELSEWHERE, UNPINNED], [UNPINNED, ELSEWHERE, PINNED];
      var a, b := Run(Initial(1), forward), Run(Initial(1), backward);
      && (forall m :: m in forward <==> m in backward)
      && [111] in a.records && [111] in b.records
      && a.records[[111]].mutation == UNPINNED && b.records[[111]].mutation == PINNED
  {
    assert [97] != [98] && [111] != [112];
    LastContentWins(PINNED, ELSEWHERE, UNPINNED);
    LastContentWins(UNPINNED, ELSEWHERE, PINNED);
  }
}
