/** What every reachable engine looks like: its records and its replay window
    are both determined by its log. */
module SyncReachability {
  import opened Text
  import opened SyncProtocol

  /** Entry `i` of the log carries sequence `i + 1` and a valid mutation. */
  ghost predicate DenseLog(s: Engine) {
    && |s.log| == s.serverSequence
    && forall i :: 0 <= i < |s.log| ==> s.log[i].serverSequence == i + 1 && Valid(s.log[i].mutation)
  }

  /** `head` is the entry of `log` for `target` that wins against every other one. */
  ghost predicate IsHead(log: seq<SequencedMutation>, target: Text, head: SequencedMutation) {
    && head in log
    && head.mutation.objectId == target
    && forall e :: e in log && e.mutation.objectId == target && e != head ==> WinsConflict(head, e)
  }

  ghost predicate Mentions(log: seq<SequencedMutation>, target: Text) {
    exists e :: e in log && e.mutation.objectId == target
  }

  ghost predicate Materialised(s: Engine) {
    && (forall target :: target in s.records ==> IsHead(s.log, target, s.records[target]))
    && (forall e :: e in s.log ==> e.mutation.objectId in s.records)
  }

  /** The last `capacity` entries of the log, or all of them. */
  function Window(log: seq<SequencedMutation>, capacity: nat): (w: seq<SequencedMutation>)
    ensures |w| == Min(capacity, |log|)
  {
    log[|log| - Min(capacity, |log|)..]
  }

  /** `order` lists the identifiers of `window` without repetition and `index` maps
      exactly those identifiers to their entries. */
  ghost predicate Indexes(
    order: seq<Text>, index: map<Text, SequencedMutation>, window: seq<SequencedMutation>)
  {
    && |order| == |window|
    && (forall i :: 0 <= i < |window| ==>
          order[i] == window[i].mutation.mutationId && order[i] in index && index[order[i]] == window[i])
    && (forall i, j :: 0 <= i < j < |order| ==> order[i] != order[j])
    && (forall id :: id in index ==> id in order)
  }

  ghost predicate ReplayWindow(s: Engine) {
    Indexes(s.replayOrder, s.replayIndex, Window(s.log, s.replayCapacity))
  }

  ghost predicate Coherent(s: Engine) {
    s.replayCapacity > 0 && DenseLog(s) && Materialised(s) && ReplayWindow(s)
  }

  lemma AppendKeepsHeads(s: Engine, m: SyncMutation)
    requires DenseLog(s) && Materialised(s) && s.serverSequence < U64_MAX
    ensures Materialised(Append(s, m))
  {
    var entry := SequencedMutation(s.serverSequence + 1, m);
    var next := Append(s, m);
    assert next.log == s.log + [entry];
    forall target | target in next.records
      ensures IsHead(next.log, target, next.records[target])
    {
      var head := next.records[target];
      forall e | e in next.log && e.mutation.objectId == target && e != head
        ensures WinsConflict(head, e)
      {
        if target == m.objectId && target in s.records {
          var current := s.records[target];
          WinsTotal(entry, current);
          if head == entry && e != current {
            WinsTransitive(entry, current, e);
          }
        }
      }
    }
  }

  lemma IndexesPush(
    order: seq<Text>, index: map<Text, SequencedMutation>, window: seq<SequencedMutation>, entry: SequencedMutation)
    requires Indexes(order, index, window) && entry.mutation.mutationId !in index
    ensures Indexes(order + [entry.mutation.mutationId], index[entry.mutation.mutationId := entry], window + [entry])
  {
  }

  lemma IndexesPop(order: seq<Text>, index: map<Text, SequencedMutation>, window: seq<SequencedMutation>)
    requires Indexes(order, index, window) && order != []
    ensures Indexes(order[1..], index - {order[0]}, window[1..])
  {
    forall id | id in index - {order[0]}
      ensures id in order[1..]
    {
      var k :| 0 <= k < |order| && order[k] == id;
      assert order[1..][k - 1] == id;
    }
  }

  lemma WindowPush(log: seq<SequencedMutation>, entry: SequencedMutation, capacity: nat)
    requires capacity > 0
    ensures var pushed := Window(log, capacity) + [entry];
      Window(log + [entry], capacity) == if |log| < capacity then pushed else pushed[1..]
  {
  }

  /** At most one identifier leaves a window that was within capacity. */
  lemma RememberOne(s: Engine, entry: SequencedMutation)
    requires 0 < s.replayCapacity && |s.replayOrder| <= s.replayCapacity
    ensures var order := s.replayOrder + [entry.mutation.mutationId];
      var index := s.replayIndex[entry.mutation.mutationId := entry];
      Remember(s, entry) ==
        if |s.replayOrder| < s.replayCapacity then s.(replayOrder := order, replayIndex := index)
        else s.(replayOrder := order[1..], replayIndex := index - {order[0]})
  {
    var order := s.replayOrder + [entry.mutation.mutationId];
    if |s.replayOrder| < s.replayCapacity {
      assert (set id | id in order[..0]) == {};
    } else {
      assert (set id | id in order[..1]) == {order[0]};
    }
  }

  lemma RememberKeepsWindow(s: Engine, sequenced: Engine, entry: SequencedMutation)
    requires s.replayCapacity > 0 && ReplayWindow(s) && entry.mutation.mutationId !in s.replayIndex
    requires sequenced.replayOrder == s.replayOrder && sequenced.replayIndex == s.replayIndex
    requires sequenced.replayCapacity == s.replayCapacity && sequenced.log == s.log + [entry]
    ensures ReplayWindow(Remember(sequenced, entry))
  {
    var window := Window(s.log, s.replayCapacity);
    RememberOne(sequenced, entry);
    WindowPush(s.log, entry, s.replayCapacity);
    IndexesPush(s.replayOrder, s.replayIndex, window, entry);
    if |s.log| >= s.replayCapacity {
      IndexesPop(s.replayOrder + [entry.mutation.mutationId], s.replayIndex[entry.mutation.mutationId := entry],
                 window + [entry]);
    }
  }

  lemma AppendKeepsWindow(s: Engine, m: SyncMutation)
    requires s.replayCapacity > 0 && ReplayWindow(s) && s.serverSequence < U64_MAX
    requires m.mutationId !in s.replayIndex
    ensures ReplayWindow(Append(s, m))
  {
    RememberKeepsWindow(s, Logged(s, m), NextEntry(s, m));
  }

  lemma AppendKeepsCoherent(s: Engine, m: SyncMutation)
    requires Coherent(s) && Valid(m) && m.mutationId !in s.replayIndex && s.serverSequence < U64_MAX
    ensures Coherent(Append(s, m))
  {
    assert Materialised(Append(s, m)) by {
      AppendKeepsHeads(s, m);
    }
    assert ReplayWindow(Append(s, m)) by {
      AppendKeepsWindow(s, m);
    }
  }

  /** A delivery either appends or leaves the engine as it is. */
  lemma AdvanceCases(s: Engine, m: SyncMutation)
    ensures if Valid(m) && m.mutationId !in s.replayIndex && s.serverSequence < U64_MAX
      then Advance(s, m) == Append(s, m)
      else Advance(s, m) == s
  {
  }

  lemma AdvanceKeepsCoherent(s: Engine, m: SyncMutation)
    requires Coherent(s)
    ensures Coherent(Advance(s, m))
    ensures Advance(s, m).replayCapacity == s.replayCapacity
  {
    AdvanceCases(s, m);
    if Valid(m) && m.mutationId !in s.replayIndex && s.serverSequence < U64_MAX {
      AppendKeepsCoherent(s, m);
    }
  }

  /** Every engine reached from a fresh one by any deliveries is coherent. */
  lemma {:induction false} ReachableCoherent(capacity: usize, ms: seq<SyncMutation>)
    requires capacity > 0
    ensures Coherent(Run(Initial(capacity), ms))
    ensures Run(Initial(capacity), ms).replayCapacity == capacity
  {
    if ms == [] {
    } else {
      ReachableCoherent(capacity, ms[..|ms| - 1]);
      AdvanceKeepsCoherent(Run(Initial(capacity), ms[..|ms| - 1]), ms[|ms| - 1]);
    }
  }

  /** The head a full scan of the log selects for `target`. */
  function FullScan(log: seq<SequencedMutation>, target: Text): Option<SequencedMutation> {
    if log == [] then None
    else
      var earlier, last := FullScan(log[..|log| - 1], target), log[|log| - 1];
      if last.mutation.objectId != target then earlier
      else if earlier.Some? && !WinsConflict(last, earlier.value) then earlier
      else Some(last)
  }

  lemma {:induction false} FullScanIsHead(log: seq<SequencedMutation>, target: Text)
    requires forall i, j :: 0 <= i < j < |log| ==> log[i].serverSequence != log[j].serverSequence
    ensures FullScan(log, target).Some? <==> Mentions(log, target)
    ensures FullScan(log, target).Some? ==> IsHead(log, target, FullScan(log, target).value)
  {
    if log == [] {
    } else {
      var shorter, last := log[..|log| - 1], log[|log| - 1];
      FullScanIsHead(shorter, target);
      assert log == shorter + [last];
      var scan := FullScan(shorter, target);
      if last.mutation.objectId == target && scan.Some? {
        WinsTotal(last, scan.value);
        forall e | e in shorter && e.mutation.objectId == target && WinsConflict(last, scan.value)
          ensures WinsConflict(last, e)
        {
          if e != scan.value {
            WinsTransitive(last, scan.value, e);
          }
        }
      }
    }
  }

  /** A log has at most one head per object. */
  lemma HeadUnique(log: seq<SequencedMutation>, target: Text, a: SequencedMutation, b: SequencedMutation)
    requires IsHead(log, target, a) && IsHead(log, target, b)
    ensures a == b
  {
    if a != b {
      WinsTransitive(a, b, a);
      WinsIrreflexive(a);
    }
  }

  /** Materialised view: in every reachable state the log is dense and `records`
      holds, for exactly the objects the log mentions, the one entry that wins
      against all others, which is what a full scan would find. */
  lemma {:induction false} RecordsAreTheFullScan(capacity: usize, ms: seq<SyncMutation>, target: Text)
    requires capacity > 0
    ensures var s := Run(Initial(capacity), ms);
      && DenseLog(s)
      && (target in s.records <==> Mentions(s.log, target))
      && (target in s.records ==> IsHead(s.log, target, s.records[target]))
      && FullScan(s.log, target) == if target in s.records then Some(s.records[target]) else None
  {
    ReachableCoherent(capacity, ms);
    CoherentScan(Run(Initial(capacity), ms), target);
  }

  lemma CoherentScan(s: Engine, target: Text)
    requires DenseLog(s) && Materialised(s)
    ensures target in s.records <==> Mentions(s.log, target)
    ensures FullScan(s.log, target) == if target in s.records then Some(s.records[target]) else None
  {
    FullScanIsHead(s.log, target);
    if target in s.records {
      assert s.records[target] in s.log;
      HeadUnique(s.log, target, s.records[target], FullScan(s.log, target).value);
    }
  }


  lemma WindowLookup(s: Engine, id: Text)
    requires ReplayWindow(s)
    ensures id in s.replayIndex ==>
      s.replayIndex[id] in Window(s.log, s.replayCapacity) && s.replayIndex[id].mutation.mutationId == id
    ensures forall e :: e in Window(s.log, s.replayCapacity) && e.mutation.mutationId == id ==>
      id in s.replayIndex && s.replayIndex[id] == e
  {
    if id in s.replayIndex {
      var i :| 0 <= i < |s.replayOrder| && s.replayOrder[i] == id;
    }
  }

  /** A coherent engine decides a valid mutation by the entries of its window alone. */
  lemma CoherentDecision(s: Engine, m: SyncMutation)
    requires ReplayWindow(s) && Valid(m)
    ensures var window := Window(s.log, s.replayCapacity);
      && (forall sequence: u64 ::
            (Transitioned(s, m) == Success(Transition(s, ApplyResult(Replayed, sequence)))
             <==> SequencedMutation(sequence, m) in window))
      && (Transitioned(s, m) == Failure(IdempotencyConflict)
          <==> exists e :: e in window && e.mutation.mutationId == m.mutationId && e.mutation != m)
      && ((Transitioned(s, m).Success? && Transitioned(s, m).value.result.status != Replayed)
          <==> s.serverSequence < U64_MAX
               && forall e :: e in window ==> e.mutation.mutationId != m.mutationId)
  {
    WindowLookup(s, m.mutationId);
  }

  /** Exact replay window: an engine reached by any deliveries keeps exactly the last
      `min(capacity, |log|)` entries for duplicate suppression, under pairwise distinct
      identifiers, and a valid mutation is replayed with its original sequence, rejected
      or sequenced according to those entries alone. */
  lemma {:induction false} ReplayDecision(capacity: usize, ms: seq<SyncMutation>, m: SyncMutation)
    requires capacity > 0 && Valid(m)
    ensures var s := Run(Initial(capacity), ms);
      var window := Window(s.log, capacity);
      && Indexes(s.replayOrder, s.replayIndex, window)
      && |s.replayIndex| == Min(capacity, |s.log|)
      && (forall sequence: u64 ::
            (Transitioned(s, m) == Success(Transition(s, ApplyResult(Replayed, sequence)))
             <==> SequencedMutation(sequence, m) in window))
      && (Transitioned(s, m) == Failure(IdempotencyConflict)
          <==> exists e :: e in window && e.mutation.mutationId == m.mutationId && e.mutation != m)
      && ((Transitioned(s, m).Success? && Transitioned(s, m).value.result.status != Replayed)
          <==> s.serverSequence < U64_MAX
               && forall e :: e in window ==> e.mutation.mutationId != m.mutationId)
  {
    var s := Run(Initial(capacity), ms);
    ReachableCoherent(capacity, ms);
    CoherentDecision(s, m);
    RetainedCount(s);
  }

  lemma RetainedCount(s: Engine)
    requires ReplayWindow(s)
    ensures |s.replayIndex| == Min(s.replayCapacity, |s.log|)
  {
    DistinctCount(s.replayOrder);
    assert s.replayIndex.Keys == set id | id in s.replayOrder;
  }

  /** Entries at most `capacity` positions apart carry different identifiers. */
  ghost predicate Spaced(log: seq<SequencedMutation>, capacity: usize) {
    forall i, j :: 0 <= i < j < |log| && j - i <= capacity ==> log[i].mutation.mutationId != log[j].mutation.mutationId
  }

  /** An identifier that the replay index lacks is that of no entry of the window. */
  lemma AbsentFromWindow(s: Engine, id: Text, i: nat)
    requires ReplayWindow(s) && i < |s.log| <= i + s.replayCapacity
    requires id !in s.replayIndex
    ensures s.log[i].mutation.mutationId != id
  {
    var window := Window(s.log, s.replayCapacity);
    assert window[i - (|s.log| - |window|)] == s.log[i];
  }

  lemma {:induction false} ReachableSpaced(capacity: usize, ms: seq<SyncMutation>)
    requires capacity > 0
    ensures Spaced(Run(Initial(capacity), ms).log, capacity)
  {
    if ms == [] {
    } else {
      var s, m := Run(Initial(capacity), ms[..|ms| - 1]), ms[|ms| - 1];
      ReachableSpaced(capacity, ms[..|ms| - 1]);
      ReachableCoherent(capacity, ms[..|ms| - 1]);
      AdvanceCases(s, m);
      forall i | 0 <= i < |s.log| <= i + capacity && m.mutationId !in s.replayIndex
        ensures s.log[i].mutation.mutationId != m.mutationId
      {
        AbsentFromWindow(s, m.mutationId, i);
      }
    }
  }

  lemma LogDeterminesRecords(s: Engine, t: Engine)
    requires DenseLog(s) && DenseLog(t) && Materialised(s) && Materialised(t) && s.log == t.log
    ensures s.records == t.records
  {
    forall target
      ensures target in s.records <==> target in t.records
      ensures target in s.records ==> s.records[target] == t.records[target]
    {
      CoherentScan(s, target);
      CoherentScan(t, target);
    }
  }

  lemma WindowDeterminesIndex(
    order: seq<Text>, a: map<Text, SequencedMutation>, b: map<Text, SequencedMutation>,
    window: seq<SequencedMutation>)
    requires Indexes(order, a, window) && Indexes(order, b, window)
    ensures a == b
  {
    forall id | id in a || id in b
      ensures id in a && id in b && a[id] == b[id]
    {
      var i :| 0 <= i < |order| && order[i] == id;
    }
  }

  /** Coherent engines of one capacity are told apart by their logs alone. */
  lemma LogDeterminesEngine(s: Engine, t: Engine)
    requires Coherent(s) && Coherent(t) && s.log == t.log && s.replayCapacity == t.replayCapacity
    ensures s == t
  {
    LogDeterminesRecords(s, t);
    assert s.replayOrder == t.replayOrder;
    WindowDeterminesIndex(s.replayOrder, s.replayIndex, t.replayIndex, Window(s.log, s.replayCapacity));
  }

  function Mutations(log: seq<SequencedMutation>): seq<SyncMutation> {
    seq(|log|, i requires 0 <= i < |log| => log[i].mutation)
  }

  /** Delivering a spaced log again to a new engine sequences every entry as before. */
  lemma {:induction false} Redelivered(s: Engine, n: nat)
    requires Coherent(s) && Spaced(s.log, s.replayCapacity) && n <= |s.log|
    ensures Run(Initial(s.replayCapacity), Mutations(s.log[..n])).log == s.log[..n]
  {
    var ms := Mutations(s.log[..n]);
    if n == 0 {
    } else {
      Redelivered(s, n - 1);
      assert ms[..n - 1] == Mutations(s.log[..n - 1]);
      ReachableCoherent(s.replayCapacity, ms[..n - 1]);
      RedeliveredNext(s, n, Run(Initial(s.replayCapacity), ms[..n - 1]));
    }
  }

  lemma AbsentFromIndex(s: Engine, id: Text)
    requires ReplayWindow(s)
    requires forall i :: 0 <= i < |s.log| <= i + s.replayCapacity ==> s.log[i].mutation.mutationId != id
    ensures id !in s.replayIndex
  {
    var window := Window(s.log, s.replayCapacity);
    forall i | 0 <= i < |window|
      ensures s.replayOrder[i] != id
    {
      assert window[i] == s.log[|s.log| - |window| + i];
    }
  }

  lemma RedeliveredNext(s: Engine, n: nat, t: Engine)
    requires DenseLog(s) && Spaced(s.log, s.replayCapacity) && 0 < n <= |s.log|
    requires DenseLog(t) && ReplayWindow(t) && t.log == s.log[..n - 1] && t.replayCapacity == s.replayCapacity
    ensures Advance(t, s.log[n - 1].mutation).log == s.log[..n]
  {
    var m := s.log[n - 1].mutation;
    AbsentFromIndex(t, m.mutationId);
    AdvanceCases(t, m);
    assert s.log[..n] == s.log[..n - 1] + [s.log[n - 1]];
  }

  /** Reachability, exactly: an engine of positive capacity is reached by some deliveries if
      and only if it is coherent and entries of its log within capacity of each other
      carry different identifiers. It is then reached by its own log. */
  lemma ReachableExactly(s: Engine)
    ensures (s.replayCapacity > 0 && exists ms :: Run(Initial(s.replayCapacity), ms) == s) <==>
      Coherent(s) && Spaced(s.log, s.replayCapacity)
  {
    if s.replayCapacity > 0 && exists ms :: Run(Initial(s.replayCapacity), ms) == s {
      var ms :| Run(Initial(s.replayCapacity), ms) == s;
      ReachableCoherent(s.replayCapacity, ms);
      ReachableSpaced(s.replayCapacity, ms);
    }
    if Coherent(s) && Spaced(s.log, s.replayCapacity) {
      var ms := Mutations(s.log);
      Redelivered(s, |s.log|);
      assert s.log[..|s.log|] == s.log;
      ReachableCoherent(s.replayCapacity, ms);
      LogDeterminesEngine(s, Run(Initial(s.replayCapacity), ms));
    }
  }

  /** The head order used for monotonicity: unchanged or overtaken by a winner. */
  ghost predicate NotBehind(later: SequencedMutation, earlier: SequencedMutation) {
    later == earlier || WinsConflict(later, earlier)
  }

  /** From any state, along any run, a head never disappears and never loses ground. */
  lemma {:induction false} HeadsNeverRegress(s: Engine, ms: seq<SyncMutation>, target: Text)
    requires target in s.records
    ensures target in Run(s, ms).records
    ensures NotBehind(Run(s, ms).records[target], s.records[target])
  {
    if ms == [] {
    } else {
      var before := Run(s, ms[..|ms| - 1]);
      HeadsNeverRegress(s, ms[..|ms| - 1], target);
      var after := Run(s, ms);
      if after.records[target] != before.records[target] && before.records[target] != s.records[target] {
        WinsTransitive(after.records[target], before.records[target], s.records[target]);
      }
    }
  }

  /** A deleted object stays deleted until a mutation with a larger clock arrives. */
  lemma {:induction false} TombstonePersists(s: Engine, ms: seq<SyncMutation>, target: Text)
    requires target in s.records && s.records[target].mutation.kind.Tombstone?
    ensures target in Run(s, ms).records
    ensures var clock := s.records[target].mutation.logicalClock;
      var later := Run(s, ms).records[target].mutation;
      later.logicalClock > clock || (later.logicalClock == clock && later.kind.Tombstone?)
  {
    HeadsNeverRegress(s, ms, target);
  }
}
