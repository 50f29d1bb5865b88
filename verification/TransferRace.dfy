/** Any number of acknowledgements and cancellations of one transfer, each split where its
    handler is: a lookup that takes no row lock, and the writes that rest on it. */
module TransferRace {
  import opened Text
  import opened TransferPolicy
  import opened TransferService
  import opened TransferHistory

  datatype Settlement = Acks(ack: AckRequest) | Cancels

  datatype Party = Party(settlement: Settlement, now: Time)

  /** `rewrites` tells whether the decision differs from the state that was read. */
  datatype Stage = Waiting | Decided(target: TransferState, rewrites: bool) | Done(target: TransferState) | Refused

  /** `writer` is the party that last wrote the row of transfer `id`. */
  datatype Race = Race(id: Uuid, db: Database, parties: seq<Party>, stages: seq<Stage>, writer: Option<nat>)

  function RowOf(r: Race): TransferRow
    requires r.id in r.db.transfers
  {
    r.db.transfers[r.id]
  }

  function Decide(row: TransferRow, x: Party): Result<TransferState, PolicyError> {
    match x.settlement
    case Acks(ack) => AcknowledgeState(Seconds(x.now), Seconds(row.expiresAt), row.state, ack.disposition)
    case Cancels => Success(CancelState(Seconds(x.now), Seconds(row.expiresAt), row.state))
  }

  /** The UPDATE of the row as it is when the statement comes to it. */
  function WrittenRow(row: TransferRow, x: Party, target: TransferState): TransferRow {
    row.(state := target, updatedAt := x.now,
         acknowledgedAt := if x.settlement.Acks? then Some(x.now) else None,
         cancelledAt := if target == Cancelled then Some(x.now) else None)
  }

  function KeyOf(ack: AckRequest): (Uuid, Text) { (ack.subject, ack.key) }

  /** Lookup and decision on the committed row. */
  function Look(r: Race, p: nat): Race
    requires p < |r.parties| == |r.stages| && r.id in r.db.transfers
  {
    match Decide(RowOf(r), r.parties[p])
    case Failure(_) => r.(stages := r.stages[p := Refused])
    case Success(target) => r.(stages := r.stages[p := Decided(target, target != RowOf(r).state)])
  }

  /** The writes, committed together unless a CHECK refuses one of them. */
  function Commit(r: Race, p: nat, target: TransferState, rewrites: bool): Race
    requires p < |r.parties| == |r.stages| && r.id in r.db.transfers
  {
    var x := r.parties[p];
    var row := if rewrites then WrittenRow(RowOf(r), x, target) else RowOf(r);
    if rewrites && !SqlTransfer(row) then r.(stages := r.stages[p := Refused])
    else
      var transfers := r.db.transfers[r.id := row];
      var writer := if rewrites then Some(p) else r.writer;
      match x.settlement
      case Cancels =>
        Race(r.id, Database(transfers, r.db.bindings), r.parties, r.stages[p := Done(target)], writer)
      case Acks(ack) =>
        var binding := AckBinding(ack, target, x.now, row.expiresAt);
        if !SqlBinding(binding) then r.(stages := r.stages[p := Refused])
        else
          Race(r.id, Database(transfers, r.db.bindings[KeyOf(ack) := binding]), r.parties,
               r.stages[p := Done(target)], writer)
  }

  /** The next half of party `p`, if it has one left. */
  function Step(r: Race, p: nat): Race {
    if p >= |r.parties| || |r.stages| != |r.parties| || r.id !in r.db.transfers then r
    else
      match r.stages[p]
      case Waiting => Look(r, p)
      case Decided(target, rewrites) => Commit(r, p, target, rewrites)
      case _ => r
  }

  /** The race after the parties have moved in the order of `schedule`. */
  function RunRace(r: Race, schedule: seq<nat>): Race {
    if schedule == [] then r else Step(RunRace(r, schedule[..|schedule| - 1]), schedule[|schedule| - 1])
  }

  /** Acknowledgements of transfer `id` that pass validation and find their key unbound. */
  ghost predicate Unhindered(r: Race, x: Party)
    requires r.id in r.db.transfers
  {
    x.settlement.Acks? ==>
      var ack := x.settlement.ack;
      && ack.transferId == r.id && ack.subject == RowOf(r).subject && AckFault(ack, x.now) == None
      && LiveBinding(r.db.bindings, ack.subject, ack.key, Seconds(x.now)) == None
  }

  /** Keys are pairwise different: requests under one key wait for its lock. */
  ghost predicate KeysDiffer(r: Race) {
    forall p, q :: 0 <= p < q < |r.parties| && r.parties[p].settlement.Acks? && r.parties[q].settlement.Acks? ==>
      KeyOf(r.parties[p].settlement.ack) != KeyOf(r.parties[q].settlement.ack)
  }

  /** All parties are about to begin, at sound tables, with readings up to `clock`. */
  ghost predicate Starts(r: Race, clock: Time) {
    && r.id in r.db.transfers && |r.stages| == |r.parties| && r.writer == None
    && Sound(r.db, clock) && KeysDiffer(r)
    && forall p :: 0 <= p < |r.parties| ==>
         r.stages[p] == Waiting && r.parties[p].now <= clock && Unhindered(r, r.parties[p])
  }

  /** The two halves of an unhindered party in a row are what its handler does. */
  lemma HandlerIsBothHalves(r: Race, p: nat)
    requires r.id in r.db.transfers && p < |r.parties| == |r.stages| && r.stages[p] == Waiting
    requires SqlTransfer(RowOf(r)) && Unhindered(r, r.parties[p])
    ensures var end, x := Step(Step(r, p), p), r.parties[p];
      match x.settlement
      case Acks(ack) =>
        && end.db == HandleAck(r.db, ack, x.now).0
        && (end.stages[p].Done? <==> HandleAck(r.db, ack, x.now).1.Success?)
      case Cancels =>
        end.stages[p].Done? && (end.db, None) == HandleCancel(r.db, RowOf(r).subject, r.id, x.now)
  {
    var x := r.parties[p];
    match Decide(RowOf(r), x)
    case Failure(_) =>
      assert Step(Step(r, p), p).stages[p] == Refused;
    case Success(target) =>
      var decided := Step(r, p);
      assert decided.stages[p] == Decided(target, target != RowOf(r).state);
      assert Step(decided, p) == Commit(decided, p, target, target != RowOf(r).state);
  }

  /** Apart from the columns a settlement writes, transfers are as at the start. */
  ghost predicate TransfersTrace(start: Race, r: Race, clock: Time)
    requires start.id in start.db.transfers && r.id in r.db.transfers && r.id == start.id
  {
    var before, row := RowOf(start), RowOf(r);
    && r.db.transfers == start.db.transfers[r.id := row]
    && row == before.(state := row.state, updatedAt := row.updatedAt, acknowledgedAt := row.acknowledgedAt,
                      cancelledAt := row.cancelledAt)
    && SqlTransfer(row) && (row.state == Expired ==> Seconds(row.expiresAt) <= Seconds(clock))
  }

  /** The row carries the target of its last writer, and only a pending one is rewritten. */
  ghost predicate WriterTraces(start: Race, r: Race)
    requires start.id in start.db.transfers && r.id in r.db.transfers && |r.stages| == |r.parties|
  {
    match r.writer
    case None => RowOf(r) == RowOf(start)
    case Some(w) =>
      && w < |r.stages| && r.stages[w] == Done(RowOf(r).state)
      && RowOf(start).state == Pending && RowOf(r).state != Pending
  }

  ghost predicate StageTraces(start: Race, x: Party, stage: Stage)
    requires start.id in start.db.transfers
  {
    && (x.settlement.Acks? ==> stage.Decided? || stage.Done? ==>
          stage.target == TargetState(x.settlement.ack.disposition))
    && (stage.Decided? && stage.rewrites ==>
          && RowOf(start).state == Pending && stage.target != Pending
          && (x.settlement.Cancels? ==>
                stage.target == if Seconds(x.now) >= Seconds(RowOf(start).expiresAt) then Expired else Cancelled))
  }

  predicate Bound(r: Race, p: nat)
    requires p < |r.parties| == |r.stages|
  {
    r.parties[p].settlement.Acks? && r.stages[p].Done?
  }

  function Lookup(bindings: map<(Uuid, Text), BindingRow>, key: (Uuid, Text)): Option<BindingRow> {
    if key in bindings then Some(bindings[key]) else None
  }

  /** The binding that party `p` writes for itself. */
  function OwnBinding(start: Race, r: Race, p: nat): BindingRow
    requires p < |r.parties| == |r.stages| && start.id in start.db.transfers && Bound(r, p)
  {
    AckBinding(r.parties[p].settlement.ack, r.stages[p].target, r.parties[p].now, RowOf(start).expiresAt)
  }

  predicate Owns(r: Race, p: nat, key: (Uuid, Text))
    requires p < |r.parties| == |r.stages|
  {
    Bound(r, p) && KeyOf(r.parties[p].settlement.ack) == key
  }

  /** Each acknowledgement that is done holds its own binding; other keys are as at the start. */
  ghost predicate BindingsTrace(start: Race, r: Race)
    requires |r.stages| == |r.parties| && start.id in start.db.transfers
  {
    && (forall p, key :: 0 <= p < |r.parties| && Owns(r, p, key) ==>
          SqlBinding(OwnBinding(start, r, p)) && Lookup(r.db.bindings, key) == Some(OwnBinding(start, r, p)))
    && (forall key :: (forall p :: 0 <= p < |r.parties| ==> !Owns(r, p, key)) ==>
          Lookup(r.db.bindings, key) == Lookup(start.db.bindings, key))
  }

  ghost predicate Traces(start: Race, r: Race, clock: Time)
    requires start.id in start.db.transfers
  {
    && r.id == start.id && r.parties == start.parties && |r.stages| == |r.parties| && r.id in r.db.transfers
    && TransfersTrace(start, r, clock) && WriterTraces(start, r) && BindingsTrace(start, r)
    && forall p :: 0 <= p < |r.parties| ==> StageTraces(start, r.parties[p], r.stages[p])
  }

  /** Clocks up to `clock` and pairwise different keys. */
  ghost predicate Fair(r: Race, clock: Time) {
    KeysDiffer(r) && forall p :: 0 <= p < |r.parties| ==> r.parties[p].now <= clock
  }

  /** A party that moves on without writing leaves every trace. */
  lemma StageKeepsTraces(start: Race, r: Race, p: nat, stage: Stage, clock: Time)
    requires start.id in start.db.transfers && Traces(start, r, clock) && p < |r.stages|
    requires !r.stages[p].Done? && !stage.Done? && StageTraces(start, r.parties[p], stage)
    ensures Traces(start, r.(stages := r.stages[p := stage]), clock)
  {
    var next := r.(stages := r.stages[p := stage]);
    assert forall q, key :: 0 <= q < |r.parties| ==> (Owns(next, q, key) <==> Owns(r, q, key));
    assert forall q, key :: 0 <= q < |r.parties| && Owns(r, q, key) ==>
      OwnBinding(start, next, q) == OwnBinding(start, r, q);
  }

  lemma LookKeepsTraces(start: Race, r: Race, p: nat, clock: Time)
    requires start.id in start.db.transfers && Traces(start, r, clock) && p < |r.stages| && r.stages[p] == Waiting
    ensures Traces(start, Look(r, p), clock)
  {
    LookTraces(start, r, p, clock);
    StageKeepsTraces(start, r, p, Look(r, p).stages[p], clock);
  }

  lemma LookTraces(start: Race, r: Race, p: nat, clock: Time)
    requires start.id in start.db.transfers && |r.stages| == |r.parties| && r.id == start.id && r.id in r.db.transfers
    requires TransfersTrace(start, r, clock) && WriterTraces(start, r) && p < |r.stages|
    ensures !Look(r, p).stages[p].Done? && StageTraces(start, r.parties[p], Look(r, p).stages[p])
    ensures Look(r, p) == r.(stages := r.stages[p := Look(r, p).stages[p]])
  {
  }

  /** What a commit that is not refused changes. */
  ghost predicate Committed(r: Race, next: Race, p: nat, row: TransferRow)
    requires p < |r.stages| == |r.parties| && r.id in r.db.transfers && r.stages[p].Decided?
  {
    var x, target, rewrites := r.parties[p], r.stages[p].target, r.stages[p].rewrites;
    && row == (if rewrites then WrittenRow(RowOf(r), x, target) else RowOf(r)) && (rewrites ==> SqlTransfer(row))
    && next.id == r.id && next.parties == r.parties && next.stages == r.stages[p := Done(target)]
    && next.db.transfers == r.db.transfers[r.id := row]
    && next.writer == (if rewrites then Some(p) else r.writer)
    && match x.settlement
       case Cancels => next.db.bindings == r.db.bindings
       case Acks(ack) =>
         var binding := AckBinding(ack, target, x.now, row.expiresAt);
         SqlBinding(binding) && next.db.bindings == r.db.bindings[KeyOf(ack) := binding]
  }

  lemma CommitShape(r: Race, p: nat)
    requires p < |r.stages| == |r.parties| && r.id in r.db.transfers && r.stages[p].Decided?
    ensures var next := Commit(r, p, r.stages[p].target, r.stages[p].rewrites);
      || next == r.(stages := r.stages[p := Refused])
      || exists row :: Committed(r, next, p, row)
  {
    var next := Commit(r, p, r.stages[p].target, r.stages[p].rewrites);
    if next.stages[p] != Refused {
      assert Committed(r, next, p, RowOf(next));
    }
  }

  lemma CommittedBindings(start: Race, r: Race, p: nat, next: Race, row: TransferRow)
    requires KeysDiffer(r) && |r.stages| == |r.parties| && p < |r.stages| && r.stages[p].Decided?
    requires start.id in start.db.transfers && r.id in r.db.transfers && row.expiresAt == RowOf(start).expiresAt
    requires BindingsTrace(start, r) && Committed(r, next, p, row)
    ensures BindingsTrace(start, next)
  {
    assert forall q, key :: 0 <= q < |r.parties| && q != p ==> (Owns(next, q, key) <==> Owns(r, q, key));
    forall q, key | 0 <= q < |next.parties| && Owns(next, q, key)
      ensures SqlBinding(OwnBinding(start, next, q))
      ensures Lookup(next.db.bindings, key) == Some(OwnBinding(start, next, q))
    {
      if q != p {
        assert Owns(r, q, key) && OwnBinding(start, next, q) == OwnBinding(start, r, q);
      }
    }
    forall key | forall q :: 0 <= q < |next.parties| ==> !Owns(next, q, key)
      ensures Lookup(next.db.bindings, key) == Lookup(start.db.bindings, key)
    {
      assert !Owns(next, p, key);
      assert forall q :: 0 <= q < |r.parties| && q != p ==> !Owns(next, q, key) && !Owns(r, q, key);
    }
  }

  lemma CommittedRow(start: Race, r: Race, p: nat, clock: Time, next: Race, row: TransferRow)
    requires Fair(r, clock) && start.id in start.db.transfers && Traces(start, r, clock)
    requires p < |r.stages| && r.stages[p].Decided? && Committed(r, next, p, row)
    ensures next.id in next.db.transfers && TransfersTrace(start, next, clock) && WriterTraces(start, next)
  {
    assert StageTraces(start, r.parties[p], r.stages[p]);
    assert RowOf(next) == row && r.parties[p].now <= clock;
    SecondsMonotone(r.parties[p].now, clock);
  }

  lemma SecondsMonotone(a: Time, b: Time)
    requires a <= b
    ensures Seconds(a) <= Seconds(b)
  {
  }

  lemma CommitKeepsTraces(start: Race, r: Race, p: nat, clock: Time)
    requires Fair(r, clock) && start.id in start.db.transfers && Traces(start, r, clock)
    requires p < |r.stages| && r.stages[p].Decided?
    ensures Traces(start, Commit(r, p, r.stages[p].target, r.stages[p].rewrites), clock)
  {
    var next := Commit(r, p, r.stages[p].target, r.stages[p].rewrites);
    CommitShape(r, p);
    if row :| Committed(r, next, p, row) {
      CommittedRow(start, r, p, clock, next, row);
      CommittedBindings(start, r, p, next, row);
      assert StageTraces(start, r.parties[p], r.stages[p]);
    } else {
      StageKeepsTraces(start, r, p, Refused, clock);
    }
  }

  lemma StartTraces(start: Race, clock: Time)
    requires Starts(start, clock)
    ensures Traces(start, start, clock)
  {
    assert start.db.transfers[start.id := RowOf(start)] == start.db.transfers;
    assert RowSound(start.id, RowOf(start), clock);
  }

  lemma {:induction false} RunTraces(start: Race, schedule: seq<nat>, clock: Time)
    requires Starts(start, clock)
    ensures Traces(start, RunRace(start, schedule), clock)
  {
    if schedule == [] {
      StartTraces(start, clock);
    } else {
      RunTraces(start, schedule[..|schedule| - 1], clock);
      StepKeepsTraces(start, RunRace(start, schedule[..|schedule| - 1]), schedule[|schedule| - 1], clock);
    }
  }

  lemma StepKeepsTraces(start: Race, r: Race, p: nat, clock: Time)
    requires Fair(r, clock) && start.id in start.db.transfers && Traces(start, r, clock)
    ensures Traces(start, Step(r, p), clock)
  {
    if p < |r.stages| && r.stages[p] == Waiting {
      LookKeepsTraces(start, r, p, clock);
    } else if p < |r.stages| && r.stages[p].Decided? {
      CommitKeepsTraces(start, r, p, clock);
    }
  }

  /** Every acknowledgement that is done was answered with the state the row now has. */
  ghost predicate Truthful(r: Race)
    requires |r.stages| == |r.parties| && r.id in r.db.transfers
  {
    forall p :: 0 <= p < |r.parties| && Bound(r, p) ==>
      TargetState(r.parties[p].settlement.ack.disposition) == RowOf(r).state
  }

  lemma OwnBindingSoundExactly(start: Race, r: Race, p: nat, clock: Time)
    requires Starts(start, clock) && Traces(start, r, clock) && p < |r.parties| && Bound(r, p)
    ensures var key := KeyOf(r.parties[p].settlement.ack);
      && key in r.db.bindings
      && (BindingSound(r.db, key, r.db.bindings[key]) <==>
          TargetState(r.parties[p].settlement.ack.disposition) == RowOf(r).state)
  {
    assert Owns(r, p, KeyOf(r.parties[p].settlement.ack));
    assert Unhindered(start, start.parties[p]) && StageTraces(start, r.parties[p], r.stages[p]);
  }

  lemma OldBindingStaysSound(start: Race, r: Race, key: (Uuid, Text), b: BindingRow, clock: Time)
    requires start.id in start.db.transfers && r.id == start.id && r.id in r.db.transfers && |r.stages| == |r.parties|
    requires BindingSound(start.db, key, b) && TransfersTrace(start, r, clock) && WriterTraces(start, r)
    ensures BindingSound(r.db, key, b)
  {
  }

  lemma RowsStaySound(start: Race, r: Race, clock: Time)
    requires Starts(start, clock) && Traces(start, r, clock)
    ensures forall id :: id in r.db.transfers ==> RowSound(id, r.db.transfers[id], clock)
  {
    assert RowSound(start.id, RowOf(start), clock);
  }

  lemma TruthfulBindingsSound(start: Race, r: Race, clock: Time)
    requires Starts(start, clock) && Traces(start, r, clock) && Truthful(r)
    ensures forall key :: key in r.db.bindings ==> BindingSound(r.db, key, r.db.bindings[key])
  {
    forall key | key in r.db.bindings
      ensures BindingSound(r.db, key, r.db.bindings[key])
    {
      if p :| 0 <= p < |r.parties| && Owns(r, p, key) {
        OwnBindingSoundExactly(start, r, p, clock);
      } else {
        assert Lookup(r.db.bindings, key) == Lookup(start.db.bindings, key);
        OldBindingStaysSound(start, r, key, start.db.bindings[key], clock);
      }
    }
  }

  lemma TracesSoundExactly(start: Race, r: Race, clock: Time)
    requires Starts(start, clock) && Traces(start, r, clock)
    ensures Sound(r.db, clock) <==> Truthful(r)
  {
    RowsStaySound(start, r, clock);
    if Truthful(r) {
      TruthfulBindingsSound(start, r, clock);
    } else {
      var p :| 0 <= p < |r.parties| && Bound(r, p)
               && TargetState(r.parties[p].settlement.ack.disposition) != RowOf(r).state;
      OwnBindingSoundExactly(start, r, p, clock);
    }
  }

  /** Unlocked settlements, exactly: however the halves of any number of parties interleave,
      the row shows the decision of whoever wrote it last, and the tables are sound if and
      only if every acknowledgement that is done asked for just that state. */
  lemma SettlementsSoundExactly(start: Race, schedule: seq<nat>, clock: Time)
    requires Starts(start, clock)
    ensures var r := RunRace(start, schedule);
      && |r.stages| == |r.parties| && r.id in r.db.transfers
      && (Sound(r.db, clock) <==> Truthful(r))
      && (r.writer.Some? ==> r.writer.value < |r.stages| && r.stages[r.writer.value] == Done(RowOf(r).state))
      && (r.writer.None? ==> RowOf(r) == RowOf(start))
  {
    RunTraces(start, schedule, clock);
    TracesSoundExactly(start, RunRace(start, schedule), clock);
  }

  /** A party that looks once the row has been written never writes it. */
  ghost predicate KeepsRow(r: Race, p: nat) {
    && p < |r.stages| == |r.parties| && r.id in r.db.transfers
    && RowOf(r).state != Pending && r.writer != Some(p)
    && (r.stages[p].Decided? ==> !r.stages[p].rewrites)
  }

  lemma StepKeepsKeepsRow(start: Race, r: Race, p: nat, q: nat, clock: Time)
    requires Fair(r, clock) && start.id in start.db.transfers && Traces(start, r, clock) && KeepsRow(r, p)
    ensures KeepsRow(Step(r, q), p)
  {
    StepKeepsTraces(start, r, q, clock);
    assert q < |r.stages| ==> StageTraces(start, r.parties[q], r.stages[q]);
  }

  lemma {:induction false} KeepsRowAlong(start: Race, before: seq<nat>, after: seq<nat>, p: nat, clock: Time)
    requires Starts(start, clock) && KeepsRow(RunRace(start, before), p)
    ensures KeepsRow(RunRace(start, before + after), p)
    decreases |after|
  {
    if after == [] {
      assert before + after == before;
    } else {
      var earlier := before + after[..|after| - 1];
      assert (before + after)[..|before + after| - 1] == earlier;
      KeepsRowAlong(start, before, after[..|after| - 1], p, clock);
      RunTraces(start, earlier, clock);
      StepKeepsKeepsRow(start, RunRace(start, earlier), p, after[|after| - 1], clock);
    }
  }

  /** A settled row is only ever rewritten by parties that looked before it was settled: one
      that has yet to look when some writer has committed is never the writer afterwards. */
  lemma LateLookersNeverWrite(start: Race, before: seq<nat>, after: seq<nat>, p: nat, clock: Time)
    requires Starts(start, clock) && p < |start.parties|
    requires RunRace(start, before).writer.Some?
    requires p < |RunRace(start, before).stages| && RunRace(start, before).stages[p] == Waiting
    ensures RunRace(start, before + after).writer != Some(p)
  {
    RunTraces(start, before, clock);
    KeepsRowAlong(start, before, after, p, clock);
  }

  /** What a party decides when it finds the row pending and unexpired. */
  function PendingTarget(row: TransferRow, x: Party): TransferState {
    match x.settlement
    case Acks(ack) => TargetState(ack.disposition)
    case Cancels => if Seconds(x.now) >= Seconds(row.expiresAt) then Expired else Cancelled
  }

  /** Every party that looks now decides to settle. */
  ghost predicate AllMaySettle(r: Race)
    requires r.id in r.db.transfers
  {
    && RowOf(r).state == Pending
    && forall p :: 0 <= p < |r.parties| && r.parties[p].settlement.Acks? ==>
         Seconds(r.parties[p].now) < Seconds(RowOf(r).expiresAt)
  }

  ghost predicate Distinct(order: seq<nat>) { forall i, j :: 0 <= i < j < |order| ==> order[i] != order[j] }

  /** `order` lists each of `n` parties once. */
  ghost predicate IsOrder(order: seq<nat>, n: nat) { Distinct(order) && forall p :: p in order <==> 0 <= p < n }

  lemma DistinctPrefix(order: seq<nat>)
    requires order != [] && Distinct(order)
    ensures var earlier, last := order[..|order| - 1], order[|order| - 1];
      Distinct(earlier) && last !in earlier && forall p :: p in order <==> p in earlier || p == last
  {
    assert order == order[..|order| - 1] + [order[|order| - 1]];
  }

  /** Those in `looks` have decided, nobody has written. */
  ghost predicate Looked(start: Race, r: Race, looks: seq<nat>)
    requires start.id in start.db.transfers
  {
    && r == start.(stages := r.stages) && |r.stages| == |r.parties|
    && forall p :: 0 <= p < |r.stages| ==>
         r.stages[p] == if p in looks then Decided(PendingTarget(RowOf(start), r.parties[p]), true) else Waiting
  }

  lemma {:induction false} LooksDecide(start: Race, looks: seq<nat>, clock: Time)
    requires Starts(start, clock) && AllMaySettle(start)
    requires Distinct(looks) && forall p :: p in looks ==> p < |start.parties|
    ensures Looked(start, RunRace(start, looks), looks)
  {
    if looks == [] {
    } else {
      var earlier, p := looks[..|looks| - 1], looks[|looks| - 1];
      DistinctPrefix(looks);
      LooksDecide(start, earlier, clock);
      LookDecides(start, RunRace(start, earlier), earlier, p);
      assert looks == earlier + [p];
    }
  }

  lemma LookDecides(start: Race, r: Race, looks: seq<nat>, p: nat)
    requires start.id in start.db.transfers && AllMaySettle(start) && |start.stages| == |start.parties|
    requires Looked(start, r, looks) && p < |start.parties| && p !in looks
    ensures Looked(start, Step(r, p), looks + [p])
  {
    assert Step(r, p).stages[p] == Decided(PendingTarget(RowOf(start), r.parties[p]), true);
  }

  /** All have decided and those in `commits` have written, the last of them last. */
  ghost predicate Wrote(start: Race, r: Race, commits: seq<nat>)
    requires start.id in start.db.transfers
  {
    && |r.stages| == |r.parties|
    && r.writer == (if commits == [] then None else Some(commits[|commits| - 1]))
    && forall p :: 0 <= p < |r.stages| ==>
         var target := PendingTarget(RowOf(start), r.parties[p]);
         r.stages[p] == if p in commits then Done(target) else Decided(target, true)
  }

  lemma NotRefused(start: Race, r: Race, p: nat, clock: Time)
    requires Starts(start, clock) && AllMaySettle(start) && Traces(start, r, clock) && p < |r.stages|
    requires r.stages[p] == Decided(PendingTarget(RowOf(start), r.parties[p]), true)
    ensures var next := Step(r, p);
      next.stages == r.stages[p := Done(r.stages[p].target)] && next.parties == r.parties && next.writer == Some(p)
  {
    assert Unhindered(start, start.parties[p]);
    assert SqlTransfer(WrittenRow(RowOf(r), r.parties[p], r.stages[p].target));
  }

  lemma {:induction false} CommitsWrite(start: Race, looks: seq<nat>, commits: seq<nat>, clock: Time)
    requires Starts(start, clock) && AllMaySettle(start) && IsOrder(looks, |start.parties|)
    requires Distinct(commits) && forall p :: p in commits ==> p < |start.parties|
    ensures Wrote(start, RunRace(start, looks + commits), commits)
    decreases |commits|
  {
    if commits == [] {
      assert looks + commits == looks;
      LooksDecide(start, looks, clock);
    } else {
      var earlier, p := commits[..|commits| - 1], commits[|commits| - 1];
      assert (looks + commits)[..|looks + commits| - 1] == looks + earlier;
      DistinctPrefix(commits);
      CommitsWrite(start, looks, earlier, clock);
      RunTraces(start, looks + earlier, clock);
      NotRefused(start, RunRace(start, looks + earlier), p, clock);
    }
  }

  /** The target that stands when the parties commit in this order. */
  function LastTarget(start: Race, commits: seq<nat>): TransferState
    requires start.id in start.db.transfers && commits != [] && commits[|commits| - 1] < |start.parties|
  {
    PendingTarget(RowOf(start), start.parties[commits[|commits| - 1]])
  }

  /** Every acknowledgement asks for `target`. */
  ghost predicate AllAsk(start: Race, target: TransferState) {
    forall p :: 0 <= p < |start.parties| && start.parties[p].settlement.Acks? ==>
      TargetState(start.parties[p].settlement.ack.disposition) == target
  }

  /** When all look before any commits, in whatever orders, all are done, the last one's
      decision stands over every earlier terminal state, and the tables are sound if and
      only if every acknowledgement asked for what the last party decided. */
  lemma AllLookFirst(start: Race, looks: seq<nat>, commits: seq<nat>, clock: Time)
    requires Starts(start, clock) && AllMaySettle(start) && start.parties != []
    requires IsOrder(looks, |start.parties|) && IsOrder(commits, |start.parties|)
    ensures commits != [] && commits[|commits| - 1] in commits
    ensures var r := RunRace(start, looks + commits);
      && r.id in r.db.transfers && RowOf(r).state == LastTarget(start, commits)
      && |r.stages| == |start.parties| && (forall p :: 0 <= p < |r.stages| ==> r.stages[p].Done?)
      && (Sound(r.db, clock) <==> AllAsk(start, LastTarget(start, commits)))
  {
    assert 0 in commits;
    assert commits[|commits| - 1] in commits;
    CommitsWrite(start, looks, commits, clock);
    RunTraces(start, looks + commits, clock);
    AllDone(start, RunRace(start, looks + commits), commits, clock);
  }

  lemma AllDone(start: Race, r: Race, commits: seq<nat>, clock: Time)
    requires Starts(start, clock) && Traces(start, r, clock) && Wrote(start, r, commits)
    requires IsOrder(commits, |start.parties|) && commits != [] && commits[|commits| - 1] < |start.parties|
    ensures RowOf(r).state == LastTarget(start, commits)
    ensures forall p :: 0 <= p < |r.stages| ==> r.stages[p].Done?
    ensures Sound(r.db, clock) <==> AllAsk(start, LastTarget(start, commits))
  {
    TracesSoundExactly(start, r, clock);
    assert forall p :: 0 <= p < |r.parties| ==> p in commits;
    assert forall p :: 0 <= p < |r.parties| ==> (Bound(r, p) <==> start.parties[p].settlement.Acks?);
  }

  /** Two parties: read, read, write, write. The answer given to the first stays true if and
      only if it was a cancellation, which leaves no binding, or the two agree. */
  lemma InterleavedSettlements(start: Race, order: seq<nat>, clock: Time)
    requires Starts(start, clock) && AllMaySettle(start) && |start.parties| == |order| == 2 && IsOrder(order, 2)
    ensures order[0] in order && order[1] in order
    ensures var r, a, b := RunRace(start, order + order), start.parties[order[0]], start.parties[order[1]];
      && r.id in r.db.transfers && RowOf(r).state == PendingTarget(RowOf(start), b)
      && (Sound(r.db, clock) <==>
          a.settlement.Cancels? || PendingTarget(RowOf(start), a) == PendingTarget(RowOf(start), b))
  {
    AllLookFirst(start, order, order, clock);
    TwoAsk(start, order);
  }

  lemma TwoAsk(start: Race, order: seq<nat>)
    requires start.id in start.db.transfers && |start.parties| == |order| == 2 && IsOrder(order, 2)
    ensures order[0] in order && order[1] in order
    ensures var a, b := start.parties[order[0]], start.parties[order[1]];
      AllAsk(start, PendingTarget(RowOf(start), b)) <==>
        a.settlement.Cancels? || PendingTarget(RowOf(start), a) == PendingTarget(RowOf(start), b)
  {
    assert order[0] in order && order[1] in order;
  }

  /** Each party in turn does both its halves. */
  function RunSerial(r: Race, order: seq<nat>): Race {
    if order == [] then r
    else
      var earlier, p := RunSerial(r, order[..|order| - 1]), order[|order| - 1];
      Step(Step(earlier, p), p)
  }

  /** Nobody is between its halves, and every answer given is true. */
  ghost predicate Rested(start: Race, r: Race, clock: Time)
    requires start.id in start.db.transfers
  {
    Traces(start, r, clock) && Truthful(r) && forall p :: 0 <= p < |r.stages| ==> !r.stages[p].Decided?
  }

  lemma TurnKeepsRested(start: Race, r: Race, p: nat, clock: Time)
    requires Fair(r, clock) && start.id in start.db.transfers && Rested(start, r, clock)
    ensures Rested(start, Step(Step(r, p), p), clock)
    ensures RowOf(r).state != Pending ==> RowOf(Step(Step(r, p), p)) == RowOf(r)
  {
    StepKeepsTraces(start, r, p, clock);
    StepKeepsTraces(start, Step(r, p), p, clock);
    if p < |r.stages| && r.stages[p] == Waiting {
      LookTraces(start, r, p, clock);
      var decided := Step(r, p);
      if decided.stages[p].Decided? {
        CommitShape(decided, p);
        TurnIsTruthful(start, r, decided, p);
      }
    }
  }

  lemma TurnIsTruthful(start: Race, r: Race, decided: Race, p: nat)
    requires |r.stages| == |r.parties| && r.id in r.db.transfers && p < |r.stages| && r.stages[p] == Waiting
    requires decided == Look(r, p) && decided.stages[p].Decided? && Truthful(r)
    ensures Truthful(Step(decided, p))
  {
    var end := Step(decided, p);
    forall q | 0 <= q < |end.parties| && Bound(end, q)
      ensures TargetState(end.parties[q].settlement.ack.disposition) == RowOf(end).state
    {
      assert q != p ==> Bound(r, q);
    }
  }

  lemma WaitingUnhindered(start: Race, r: Race, p: nat, clock: Time)
    requires Starts(start, clock) && Traces(start, r, clock) && p < |r.stages| && r.stages[p] == Waiting
    ensures Unhindered(r, r.parties[p])
  {
    if r.parties[p].settlement.Acks? {
      var key := KeyOf(r.parties[p].settlement.ack);
      assert Unhindered(start, start.parties[p]);
      assert forall q :: 0 <= q < |r.parties| ==> !Owns(r, q, key);
      assert Lookup(r.db.bindings, key) == Lookup(start.db.bindings, key);
    }
  }

  lemma {:induction false} SerialRests(start: Race, order: seq<nat>, clock: Time)
    requires Starts(start, clock)
    ensures Rested(start, RunSerial(start, order), clock)
  {
    if order == [] {
      StartTraces(start, clock);
    } else {
      SerialRests(start, order[..|order| - 1], clock);
      TurnKeepsRested(start, RunSerial(start, order[..|order| - 1]), order[|order| - 1], clock);
    }
  }

  /** One after the other, in any order: the tables stay sound, the first state stands, and
      a party whose turn has come does what its handler does alone. */
  lemma SerialSettlements(start: Race, order: seq<nat>, p: nat, clock: Time)
    requires Starts(start, clock) && p < |start.parties|
    ensures var r, end := RunSerial(start, order), RunSerial(start, order + [p]);
      && r.id in r.db.transfers && end.id in end.db.transfers && Sound(end.db, clock)
      && (RowOf(r).state != Pending ==> RowOf(end) == RowOf(r))
      && |r.stages| == |start.parties|
      && (r.stages[p] == Waiting ==>
            match start.parties[p].settlement
            case Acks(ack) => end.db == HandleAck(r.db, ack, start.parties[p].now).0
            case Cancels => end.db == HandleCancel(r.db, RowOf(r).subject, r.id, start.parties[p].now).0)
  {
    var r := RunSerial(start, order);
    assert (order + [p])[..|order + [p]| - 1] == order;
    SerialRests(start, order, clock);
    SerialRests(start, order + [p], clock);
    TurnKeepsRested(start, r, p, clock);
    TracesSoundExactly(start, RunSerial(start, order + [p]), clock);
    if r.stages[p] == Waiting {
      WaitingUnhindered(start, r, p, clock);
      HandlerIsBothHalves(r, p);
    }
  }
}
