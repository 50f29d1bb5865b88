/** A client that pages through the log while mutations keep arriving. */
module SyncPaging {
  import opened Text
  import opened SyncProtocol
  import opened SyncReachability

  /** Sequences grow strictly along the log and never pass the server's. */
  ghost predicate IncreasingLog(s: Engine) {
    && (forall i :: 0 <= i < |s.log| ==> 0 < s.log[i].serverSequence <= s.serverSequence)
    && (forall i, j :: 0 <= i < j < |s.log| ==> s.log[i].serverSequence < s.log[j].serverSequence)
  }

  /** The first `k` entries are exactly those at or before the cursor. */
  ghost predicate SplitsAt(log: seq<SequencedMutation>, cursor: u64, k: nat) {
    && k <= |log|
    && (forall i :: 0 <= i < k ==> log[i].serverSequence <= cursor)
    && (forall i :: k <= i < |log| ==> log[i].serverSequence > cursor)
  }

  lemma {:induction false} PendingIsSuffix(log: seq<SequencedMutation>, cursor: u64, k: nat)
    requires SplitsAt(log, cursor, k)
    ensures Pending(log, cursor) == log[k..]
  {
    if log == [] {
    } else {
      PendingIsSuffix(log[1..], cursor, if k == 0 then 0 else k - 1);
    }
  }

  lemma AdvanceKeepsIncreasing(s: Engine, m: SyncMutation)
    requires IncreasingLog(s)
    ensures IncreasingLog(Advance(s, m))
    ensures s.log <= Advance(s, m).log && s.serverSequence <= Advance(s, m).serverSequence
    ensures forall i :: |s.log| <= i < |Advance(s, m).log| ==> Advance(s, m).log[i].serverSequence > s.serverSequence
  {
    AdvanceCases(s, m);
  }

  datatype Event = Deliver(mutation: SyncMutation) | Pull(limit: usize)

  /** One client beside the engine: its cursor and everything it has received. */
  datatype Session = Session(engine: Engine, cursor: u64, received: seq<SequencedMutation>)

  function SessionStep(x: Session, event: Event): Session {
    match event
    case Deliver(m) => x.(engine := Advance(x.engine, m))
    case Pull(limit) =>
      match Pulled(x.engine, x.cursor, limit)
      case Success(page) => x.(cursor := page.cursor, received := x.received + page.mutations)
      case Failure(_) => x
  }

  function SessionRun(x: Session, events: seq<Event>): Session {
    if events == [] then x
    else SessionStep(SessionRun(x, events[..|events| - 1]), events[|events| - 1])
  }

  /** The client holds exactly the log prefix up to its cursor. */
  ghost predicate InStep(x: Session) {
    && IncreasingLog(x.engine)
    && x.cursor <= x.engine.serverSequence
    && SplitsAt(x.engine.log, x.cursor, |x.received|)
    && x.received == x.engine.log[..|x.received|]
  }

  /** A pull past the first `k` entries returns the next `min(limit, remaining)` of them. */
  lemma PulledAfter(s: Engine, cursor: u64, k: nat, limit: usize)
    requires SplitsAt(s.log, cursor, k) && cursor <= s.serverSequence && limit > 0
    ensures var n := Min(limit, |s.log| - k);
      Pulled(s, cursor, limit) == Success(PullPage(
        s.log[k..k + n], if n == 0 then s.serverSequence else s.log[k + n - 1].serverSequence, k + n < |s.log|))
  {
    PendingIsSuffix(s.log, cursor, k);
    var n := Min(limit, |s.log| - k);
    assert s.log[k..][..n] == s.log[k..k + n];
  }

  lemma SplitMovesBy(s: Engine, cursor: u64, k: nat, n: nat)
    requires IncreasingLog(s) && SplitsAt(s.log, cursor, k) && k + n <= |s.log|
    requires n == 0 ==> k == |s.log|
    ensures SplitsAt(s.log, if n == 0 then s.serverSequence else s.log[k + n - 1].serverSequence, k + n)
  {
  }

  /** A pull with a positive limit returns the next entries and says whether more remain. */
  lemma PullReturnsNext(x: Session, limit: usize)
    requires InStep(x) && limit > 0
    ensures Pulled(x.engine, x.cursor, limit).Success?
    ensures var page := Pulled(x.engine, x.cursor, limit).value;
      var k := |x.received|;
      var n := Min(limit, |x.engine.log| - k);
      && page.mutations == x.engine.log[k..k + n]
      && (page.hasMore <==> k + n < |x.engine.log|)
      && x.cursor <= page.cursor <= x.engine.serverSequence
      && SplitsAt(x.engine.log, page.cursor, k + n)
  {
    var k := |x.received|;
    PulledAfter(x.engine, x.cursor, k, limit);
    SplitMovesBy(x.engine, x.cursor, k, Min(limit, |x.engine.log| - k));
  }

  lemma StepKeepsInStep(x: Session, event: Event)
    requires InStep(x)
    ensures InStep(SessionStep(x, event))
  {
    match event
    case Deliver(m) =>
      AdvanceKeepsIncreasing(x.engine, m);
    case Pull(limit) =>
      if limit > 0 {
        PullReturnsNext(x, limit);
        var k, page := |x.received|, Pulled(x.engine, x.cursor, limit).value;
        assert x.engine.log[..k] + page.mutations == x.engine.log[..k + |page.mutations|];
      }
  }

  /** Interleaved pull safety: however deliveries and pulls interleave, the client has
      received exactly the log prefix at or before its cursor. */
  lemma {:induction false} SessionStaysInStep(x: Session, events: seq<Event>)
    requires InStep(x)
    ensures InStep(SessionRun(x, events))
  {
    if events == [] {
    } else {
      SessionStaysInStep(x, events[..|events| - 1]);
      StepKeepsInStep(SessionRun(x, events[..|events| - 1]), events[|events| - 1]);
    }
  }

  lemma {:induction false} SessionStaysCoherent(x: Session, events: seq<Event>)
    requires Coherent(x.engine)
    ensures Coherent(SessionRun(x, events).engine)
  {
    if events == [] {
    } else {
      var before := SessionRun(x, events[..|events| - 1]);
      SessionStaysCoherent(x, events[..|events| - 1]);
      if events[|events| - 1].Deliver? {
        AdvanceKeepsCoherent(before.engine, events[|events| - 1].mutation);
      }
    }
  }

  /** The client has received the log up to its cursor, and a pull with this limit moves
      the cursor to `min(cursor + limit, serverSequence)`, returns the entries between and
      reports `hasMore` exactly while entries remain. */
  ghost predicate ToldByCursor(x: Session, limit: usize) {
    var next := Min(x.cursor + limit, x.engine.serverSequence);
    && x.cursor <= x.engine.serverSequence == |x.engine.log|
    && x.received == x.engine.log[..x.cursor]
    && Pulled(x.engine, x.cursor, limit) ==
         Success(PullPage(x.engine.log[x.cursor..next], next, next < x.engine.serverSequence))
  }

  lemma DenseSession(x: Session, limit: usize)
    requires InStep(x) && DenseLog(x.engine) && limit > 0
    ensures ToldByCursor(x, limit)
  {
    DenseSplit(x.engine, x.cursor, |x.received|);
    PulledAfter(x.engine, x.cursor, x.cursor, limit);
  }

  lemma NewSession(capacity: usize)
    requires capacity > 0
    ensures InStep(Session(Initial(capacity), 0, [])) && Coherent(Initial(capacity))
  {
  }

  /** A client of a new engine meets no gap and no repetition at any moment, however its
      pulls interleave with deliveries. */
  lemma ClientReceivesPrefix(capacity: usize, events: seq<Event>, limit: usize)
    requires capacity > 0 && limit > 0
    ensures ToldByCursor(SessionRun(Session(Initial(capacity), 0, []), events), limit)
  {
    NewSession(capacity);
    var start := Session(Initial(capacity), 0, []);
    SessionStaysInStep(start, events);
    SessionStaysCoherent(start, events);
    DenseSession(SessionRun(start, events), limit);
  }

  lemma DenseSplit(s: Engine, cursor: u64, k: nat)
    requires DenseLog(s) && cursor <= s.serverSequence && SplitsAt(s.log, cursor, k)
    ensures k == cursor
  {
    assert k < |s.log| ==> s.log[k].serverSequence == k + 1;
    assert k > 0 ==> s.log[k - 1].serverSequence == k;
  }

  lemma DensePull(s: Engine, cursor: u64, limit: usize)
    requires DenseLog(s) && cursor <= s.serverSequence && limit > 0
    ensures Pulled(s, cursor, limit).Success?
    ensures Pulled(s, cursor, limit).value.cursor == Min(cursor + limit, s.serverSequence)
  {
    PendingIsSuffix(s.log, cursor, cursor);
  }

  /** How many pulls of one limit bring a cursor to the end of a quiescent log. */
  function PullsToDrain(s: Engine, cursor: u64, limit: usize): nat
    requires DenseLog(s) && cursor <= s.serverSequence && limit > 0
    decreases s.serverSequence - cursor
  {
    if cursor == s.serverSequence then 0
    else
      DensePull(s, cursor, limit);
      1 + PullsToDrain(s, Pulled(s, cursor, limit).value.cursor, limit)
  }

  /** `n` is the quotient of `remaining` by `limit`, rounded up. */
  ghost predicate IsCeiling(n: nat, remaining: nat, limit: nat) {
    remaining <= n * limit && (n > 0 ==> (n - 1) * limit < remaining)
  }

  /** Pull progress: a quiescent log drains in `ceil(remaining / limit)` pulls. */
  lemma {:induction false} DrainTakesCeiling(s: Engine, cursor: u64, limit: usize)
    requires DenseLog(s) && cursor <= s.serverSequence && limit > 0
    ensures IsCeiling(PullsToDrain(s, cursor, limit), s.serverSequence - cursor, limit)
    decreases s.serverSequence - cursor
  {
    if cursor == s.serverSequence {
    } else {
      DensePull(s, cursor, limit);
      var next := Min(cursor + limit, s.serverSequence);
      DrainTakesCeiling(s, next, limit);
      var rest := PullsToDrain(s, next, limit);
      assert (1 + rest) * limit == limit + rest * limit;
      assert rest * limit == (rest - 1) * limit + limit;
    }
  }
}
