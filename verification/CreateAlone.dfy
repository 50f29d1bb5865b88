/** The statements of the create race against the create handler: a request that nobody
    disturbs ends as the handler would, with the same tables and the same answer. */
module CreateAlone {
  import opened Text
  import opened TransferPolicy
  import opened TransferService
  import opened CreateRace
  import opened LateClock

  /** The map of bindings and the set of bindings are the same table. */
  ghost predicate Represents(db: Database, s: System) {
    && db.transfers == s.transfers
    && (forall key :: key in db.bindings ==>
          db.bindings[key] in s.bindings && (db.bindings[key].subject, db.bindings[key].key) == key)
    && (forall b :: b in s.bindings ==> (b.subject, b.key) in db.bindings && db.bindings[(b.subject, b.key)] == b)
  }

  /** Process `p` has ended in stage `stage`; the others and the locks are as they were. */
  ghost predicate EndsIn(run: seq<System>, longer: seq<System>, p: nat, stage: Stage)
    requires run != [] && longer != []
  {
    && IsRun(longer) && run <= longer && p < |Last(run).processes|
    && Last(longer).locks == map[]
    && Last(longer).processes == Last(run).processes[p := Last(run).processes[p].(stage := stage)]
  }

  lemma RefusedAtOnce(run: seq<System>, p: nat) returns (longer: seq<System>)
    requires IsRun(run) && p < |Last(run).processes| && Last(run).processes[p].stage == Idle && Last(run).locks == map[]
    requires CreateFault(Last(run).processes[p].request, Last(run).processes[p].now).Some?
    ensures longer != [] && EndsIn(run, longer, p, Aborted)
    ensures Last(longer).transfers == Last(run).transfers && Last(longer).bindings == Last(run).bindings
  {
    var end := At(Last(run), p, Aborted);
    Extended(run, end, p, Begin);
    longer := run + [end];
  }

  /** From a locked stage by one statement that ends the transaction without writing. */
  lemma AbortsFrom(run: seq<System>, start: seq<System>, p: nat, stage: Stage, statement: Statement)
    returns (longer: seq<System>)
    requires IsRun(run) && start != [] && start <= run && p < |Last(start).processes| && Last(start).locks == map[]
    requires Last(run) == At(Last(start).(locks := map[Last(start).processes[p].lock := p]), p, stage)
    requires Executes(Last(run), Ended(Last(run), p, Aborted), p, statement)
    ensures longer != [] && EndsIn(start, longer, p, Aborted)
    ensures Last(longer).transfers == Last(start).transfers && Last(longer).bindings == Last(start).bindings
  {
    var end := Ended(Last(run), p, Aborted);
    Extended(run, end, p, statement);
    longer := run + [end];
  }

  lemma ConflictAborts(run: seq<System>, p: nat, b: BindingRow) returns (longer: seq<System>)
    requires IsRun(run) && Ready(Last(run), p)
    requires b in Last(run).bindings && Concerns(b, Last(run).processes[p].request)
    requires Outlives(b, Last(run).processes[p]) && AnswerStage(Last(run), Last(run).processes[p], b) == Aborted
    ensures longer != [] && EndsIn(run, longer, p, Aborted)
    ensures Last(longer).transfers == Last(run).transfers && Last(longer).bindings == Last(run).bindings
  {
    var locked := Locks(run, p);
    var found := At(Last(locked), p, Found(b));
    assert Executes(Last(locked), found, p, SelectBinding(Some(b)));
    Extended(locked, found, p, SelectBinding(Some(b)));
    assert AnswerStage(found, found.processes[p], b) == Aborted;
    longer := AbortsFrom(locked + [found], run, p, Found(b), Answer);
  }

  /** The lookup of a key that is free: nothing is there, or something expired is deleted. */
  lemma Misses(run: seq<System>, p: nat, stale: Option<BindingRow>) returns (longer: seq<System>)
    requires IsRun(run) && Ready(Last(run), p)
    requires if stale.Some? then
        && stale.value in Last(run).bindings && Concerns(stale.value, Last(run).processes[p].request)
        && !Outlives(stale.value, Last(run).processes[p])
      else forall b :: b in Last(run).bindings ==> !Concerns(b, Last(run).processes[p].request)
    ensures IsRun(longer) && run <= longer
    ensures Last(longer) == At(Last(run).(locks := map[Last(run).processes[p].lock := p]), p, Missed(stale))
  {
    var locked := Locks(run, p);
    var missed := At(Last(locked), p, Missed(stale));
    if stale.Some? {
      var old_ := At(Last(locked), p, Stale(stale.value));
      assert Executes(Last(locked), old_, p, SelectBinding(stale));
      Extended(locked, old_, p, SelectBinding(stale));
      assert Executes(old_, missed, p, DeleteStale);
      Extended(locked + [old_], missed, p, DeleteStale);
      longer := locked + [old_] + [missed];
    } else {
      assert Executes(Last(locked), missed, p, SelectBinding(None));
      Extended(locked, missed, p, SelectBinding(None));
      longer := locked + [missed];
    }
  }

  lemma RefusedByTable(run: seq<System>, start: seq<System>, p: nat, stale: Option<BindingRow>)
    returns (longer: seq<System>)
    requires IsRun(run) && start != [] && start <= run && p < |Last(start).processes| && Last(start).locks == map[]
    requires Last(run) == At(Last(start).(locks := map[Last(start).processes[p].lock := p]), p, Missed(stale))
    requires forall q :: 0 <= q < |Last(start).processes| ==> !HasInserted(Last(start).processes[q].stage)
    requires var me := Last(start).processes[p];
      || me.request.newId in Last(start).transfers || !SqlTransfer(NewRow(me.request, me.now))
      || !SqlBinding(BindingOf(me))
    ensures longer != [] && EndsIn(start, longer, p, Aborted)
    ensures Last(longer).transfers == Last(start).transfers && Last(longer).bindings == Last(start).bindings
  {
    var me := Last(start).processes[p];
    if me.request.newId in Last(start).transfers || !SqlTransfer(NewRow(me.request, me.now)) {
      longer := AbortsFrom(run, start, p, Missed(stale), InsertTransfer);
    } else {
      var inserted := At(Last(run), p, TransferInserted(stale));
      assert Executes(Last(run), inserted, p, InsertTransfer);
      Extended(run, inserted, p, InsertTransfer);
      longer := AbortsFrom(run + [inserted], start, p, TransferInserted(stale), InsertBinding);
    }
  }

  /** Only `p` is about to move, over a sound table of transfers. */
  ghost predicate Quiescent(s: System, p: nat) {
    && p < |s.processes| && s.processes[p].stage == Idle && s.locks == map[]
    && (forall q :: 0 <= q < |s.processes| ==> !HasInserted(s.processes[q].stage))
    && forall id :: id in s.transfers ==> s.transfers[id].id == id
  }

  /** The stage that matches a reply. */
  ghost predicate Matches(stage: Stage, reply: Result<TransferResponse, ApiError>) {
    match reply
    case Success(response) => stage.Committed? && stage.transferId == response.transferId
    case Failure(_) => stage == Aborted
  }

  lemma BoundAlone(run: seq<System>, p: nat, db: Database, b: BindingRow) returns (longer: seq<System>, stage: Stage)
    requires IsRun(run) && Quiescent(Last(run), p) && Represents(db, Last(run)) && Ready(Last(run), p)
    requires var r := Last(run).processes[p].request;
      LiveBinding(db.bindings, r.subject, r.key, Seconds(Last(run).processes[p].now)) == Some(b)
    ensures longer != [] && EndsIn(run, longer, p, stage)
    ensures Last(longer).transfers == Last(run).transfers && Last(longer).bindings == Last(run).bindings
    ensures var me := Last(run).processes[p];
      Matches(stage, HandleCreate(db, me.request, me.now).1) && HandleCreate(db, me.request, me.now).0 == db
  {
    var me := Last(run).processes[p];
    stage := AnswerStage(Last(run), me, b);
    if stage == Aborted {
      longer := ConflictAborts(run, p, b);
    } else {
      var id := b.transferId.value;
      longer := AnswersAgain(run, p, b, id);
      stage := Committed(id, false);
    }
  }

  lemma FreeAlone(run: seq<System>, p: nat, db: Database) returns (longer: seq<System>, stage: Stage)
    requires IsRun(run) && Quiescent(Last(run), p) && Represents(db, Last(run)) && Ready(Last(run), p)
    requires var r := Last(run).processes[p].request;
      LiveBinding(db.bindings, r.subject, r.key, Seconds(Last(run).processes[p].now)) == None
    ensures longer != [] && EndsIn(run, longer, p, stage)
    ensures var me := Last(run).processes[p];
      && Matches(stage, HandleCreate(db, me.request, me.now).1)
      && Represents(HandleCreate(db, me.request, me.now).0, Last(longer))
  {
    var s, me := Last(run), Last(run).processes[p];
    var key := (me.request.subject, me.request.key);
    var stale := if key in db.bindings then Some(db.bindings[key]) else None;
    assert stale == None ==> forall b :: b in s.bindings ==> !Concerns(b, me.request);
    if me.request.newId in s.transfers || !SqlTransfer(NewRow(me.request, me.now)) || !SqlBinding(BindingOf(me)) {
      var missed := Misses(run, p, stale);
      longer := RefusedByTable(missed, run, p, stale);
      stage := Aborted;
    } else {
      assert Storable(s, p);
      if stale.Some? {
        longer := CreatesAnew(run, p, stale.value);
        ReplacedIsRepresented(db, s, p, {stale.value});
      } else {
        longer := CreatesFresh(run, p);
        ReplacedIsRepresented(db, s, p, {});
      }
      stage := Committed(me.request.newId, true);
    }
  }

  lemma ReplacedIsRepresented(db: Database, s: System, p: nat, replaced: set<BindingRow>)
    requires Represents(db, s) && p < |s.processes|
    requires forall b :: b in s.bindings && Concerns(b, s.processes[p].request) <==> b in replaced
    ensures var me := s.processes[p];
      Represents(Database(db.transfers[me.request.newId := NewRow(me.request, me.now)],
                          db.bindings[(me.request.subject, me.request.key) := BindingOf(me)]),
                 AfterCreate(s, p, replaced))
  {
  }

  /** Alone, a request runs to the very end its handler has: the tables the handler leaves,
      committed with the transfer it answers with, or aborted where it fails. */
  lemma AloneIsHandler(run: seq<System>, p: nat, db: Database) returns (longer: seq<System>, stage: Stage)
    requires IsRun(run) && Quiescent(Last(run), p) && Represents(db, Last(run))
    ensures longer != [] && EndsIn(run, longer, p, stage)
    ensures var me := Last(run).processes[p];
      && Matches(stage, HandleCreate(db, me.request, me.now).1)
      && Represents(HandleCreate(db, me.request, me.now).0, Last(longer))
  {
    var me := Last(run).processes[p];
    if CreateFault(me.request, me.now).Some? {
      longer := RefusedAtOnce(run, p);
      stage := Aborted;
    } else {
      var live := LiveBinding(db.bindings, me.request.subject, me.request.key, Seconds(me.now));
      if live.Some? {
        longer, stage := BoundAlone(run, p, db, live.value);
      } else {
        longer, stage := FreeAlone(run, p, db);
      }
    }
  }
}
