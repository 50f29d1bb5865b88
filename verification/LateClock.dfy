/** A run in which identical create requests end with different transfers, because a
    request that read its clock late takes the lock before one that read it early. */
module LateClock {
  import opened Text
  import opened Forms
  import opened TransferPolicy
  import opened TransferService
  import opened TransferStorage
  import opened CreateRace

  function Last(run: seq<System>): System
    requires run != []
  {
    run[|run| - 1]
  }

  /** `longer` is a run that continues `run` to `end` and commits `p` in its last step. */
  ghost predicate ContinuesTo(run: seq<System>, longer: seq<System>, p: nat, end: System) {
    && IsRun(longer) && run <= longer && 0 < |run| < |longer|
    && Last(longer) == end && CommitsAt(longer, |longer| - 2, p)
  }

  /** The unlocked system in which `p` is about to begin. */
  ghost predicate Ready(s: System, p: nat) {
    p < |s.processes| && s.processes[p].stage == Idle && s.locks == map[]
    && CreateFault(s.processes[p].request, s.processes[p].now) == None
  }

  lemma Extended(run: seq<System>, t: System, p: nat, statement: Statement)
    requires IsRun(run) && Executes(Last(run), t, p, statement)
    ensures IsRun(run + [t])
  {
    assert Next(Last(run), t);
    forall i | 0 <= i < |run|
      ensures StepsAt(run + [t], i)
    {
      assert i < |run| - 1 ==> StepsAt(run, i);
    }
  }

  lemma Locks(run: seq<System>, p: nat) returns (longer: seq<System>)
    requires IsRun(run) && Ready(Last(run), p)
    ensures IsRun(longer) && run <= longer && |run| < |longer|
    ensures var s := Last(run);
      Last(longer) == At(s.(locks := map[s.processes[p].lock := p]), p, Locked)
  {
    var s := Last(run);
    var begun := At(s, p, Begun);
    var locked := At(s.(locks := map[s.processes[p].lock := p]), p, Locked);
    Extended(run, begun, p, Begin);
    assert Executes(begun, locked, p, TakeLock);
    Extended(run + [begun], locked, p, TakeLock);
    longer := run + [begun] + [locked];
  }

  /** The tables and the stage that a create leaves. */
  function AfterCreate(s: System, p: nat, replaced: set<BindingRow>): System
    requires p < |s.processes|
  {
    var me := s.processes[p];
    At(s.(transfers := s.transfers[me.request.newId := NewRow(me.request, me.now)],
          bindings := s.bindings - replaced + {BindingOf(me)}),
       p, Committed(me.request.newId, true))
  }

  /** Nothing refuses the rows of `p`. */
  ghost predicate Storable(s: System, p: nat)
    requires p < |s.processes|
  {
    var me := s.processes[p];
    && me.request.newId !in s.transfers && SqlTransfer(NewRow(me.request, me.now)) && SqlBinding(BindingOf(me))
    && forall q :: 0 <= q < |s.processes| ==> !HasInserted(s.processes[q].stage)
  }

  /** From a missed lookup to the commit. */
  lemma Inserts(run: seq<System>, s: System, p: nat, deleted: Option<BindingRow>) returns (longer: seq<System>)
    requires p < |s.processes| && s.locks == map[] && Storable(s, p)
    requires IsRun(run)
    requires Last(run) == At(s.(locks := map[s.processes[p].lock := p]), p, Missed(deleted))
    ensures ContinuesTo(run, longer, p, AfterCreate(s, p, if deleted.Some? then {deleted.value} else {}))
  {
    var inserted := At(Last(run), p, TransferInserted(deleted));
    var bound := At(Last(run), p, BindingInserted(deleted));
    var end := AfterCreate(s, p, if deleted.Some? then {deleted.value} else {});
    InsertsExecute(s, p, deleted);
    Extended(run, inserted, p, InsertTransfer);
    Extended(run + [inserted], bound, p, InsertBinding);
    Extended(run + [inserted] + [bound], end, p, Commit);
    longer := run + [inserted] + [bound] + [end];
  }

  lemma InsertsExecute(s: System, p: nat, deleted: Option<BindingRow>)
    requires p < |s.processes| && s.locks == map[] && Storable(s, p)
    ensures var missed := At(s.(locks := map[s.processes[p].lock := p]), p, Missed(deleted));
      var inserted := At(missed, p, TransferInserted(deleted));
      var bound := At(missed, p, BindingInserted(deleted));
      var end := AfterCreate(s, p, if deleted.Some? then {deleted.value} else {});
      && Executes(missed, inserted, p, InsertTransfer)
      && Executes(inserted, bound, p, InsertBinding)
      && Executes(bound, end, p, Commit)
  {
    assert map[s.processes[p].lock := p] - {s.processes[p].lock} == s.locks;
    assert deleted == None ==> s.bindings - {} == s.bindings;
  }

  lemma CreatesFresh(run: seq<System>, p: nat) returns (longer: seq<System>)
    requires IsRun(run) && Ready(Last(run), p) && Storable(Last(run), p)
    requires forall b :: b in Last(run).bindings ==> !Concerns(b, Last(run).processes[p].request)
    ensures ContinuesTo(run, longer, p, AfterCreate(Last(run), p, {}))
  {
    var locked := Locks(run, p);
    var missed := At(Last(locked), p, Missed(None));
    assert Executes(Last(locked), missed, p, SelectBinding(None));
    Extended(locked, missed, p, SelectBinding(None));
    longer := Inserts(locked + [missed], Last(run), p, None);
  }

  lemma CreatesAnew(run: seq<System>, p: nat, b: BindingRow) returns (longer: seq<System>)
    requires IsRun(run) && Ready(Last(run), p) && Storable(Last(run), p)
    requires b in Last(run).bindings
    requires Concerns(b, Last(run).processes[p].request) && !Outlives(b, Last(run).processes[p])
    ensures ContinuesTo(run, longer, p, AfterCreate(Last(run), p, {b}))
  {
    var locked := Locks(run, p);
    var stale := At(Last(locked), p, Stale(b));
    var missed := At(Last(locked), p, Missed(Some(b)));
    assert Executes(Last(locked), stale, p, SelectBinding(Some(b)));
    Extended(locked, stale, p, SelectBinding(Some(b)));
    assert Executes(stale, missed, p, DeleteStale);
    Extended(locked + [stale], missed, p, DeleteStale);
    longer := Inserts(locked + [stale] + [missed], Last(run), p, Some(b));
  }

  lemma AnswersAgain(run: seq<System>, p: nat, b: BindingRow, id: Uuid) returns (longer: seq<System>)
    requires IsRun(run) && Ready(Last(run), p)
    requires b in Last(run).bindings && Outlives(b, Last(run).processes[p])
    requires Answers(b, Last(run).processes[p], id) && b.route == TransfersRoute
    requires FindOwned(Last(run).transfers, Last(run).processes[p].request.subject, id).Some?
    ensures ContinuesTo(run, longer, p, At(Last(run), p, Committed(id, false)))
  {
    var s := Last(run);
    var locked := Locks(run, p);
    var found, answering := At(Last(locked), p, Found(b)), At(Last(locked), p, Answering(id));
    var end := At(s, p, Committed(id, false));
    assert Executes(Last(locked), found, p, SelectBinding(Some(b)));
    Extended(locked, found, p, SelectBinding(Some(b)));
    assert AnswerStage(found, found.processes[p], b) == Answering(id);
    assert Executes(found, answering, p, Answer);
    Extended(locked + [found], answering, p, Answer);
    assert Executes(answering, end, p, Commit);
    Extended(locked + [found] + [answering], end, p, Commit);
    longer := locked + [found] + [answering] + [end];
  }

  /** One request sent three times, with a clock reading each and, after the first, another
      identifier to use. */
  datatype Contest = Contest(
    request: CreateRequest, first: Time, late: Time, last: Time, lateId: Uuid, lastId: Uuid)
  {
    function Late(): CreateRequest { request.(newId := lateId) }

    function Start(): System {
      System(map[], {}, map[], [
        Process(request, first, 0, Idle), Process(Late(), late, 0, Idle),
        Process(request.(newId := lastId), last, 0, Idle)])
    }

    function FirstBinding(): BindingRow { CreateBinding(request, first) }

    function LateBinding(): BindingRow { CreateBinding(Late(), late) }

    function AfterFirst(): System { AfterCreate(Start(), 0, {}) }

    function AfterLate(): System { AfterCreate(AfterFirst(), 1, {FirstBinding()}) }
  }

  /** The request can be stored at each reading. The late one is at or past the expiry second
      of the first binding, the last one before it. */
  ghost predicate Straddles(c: Contest) {
    && StorableAt(c.request, c.first) && StorableAt(c.request, c.late) && StorableAt(c.request, c.last)
    && c.request.newId != c.lateId
    && Seconds(c.last) < Seconds(c.FirstBinding().expiresAt) <= Seconds(c.late)
  }

  ghost predicate StorableAt(r: CreateRequest, now: Time) { CreateFault(r, now) == None && SqlTransfer(NewRow(r, now)) }

  /** Requests 0 and 2 commit, in this order, and are answered with different transfers. */
  ghost predicate EndApart(run: seq<System>, i: nat, j: nat) {
    && IsRun(run) && i < j && CommitsAt(run, i, 0) && CommitsAt(run, j, 2)
    && run[i + 1].processes[0].stage.transferId != run[j + 1].processes[2].stage.transferId
  }

  lemma StorableUnderAnyId(r: CreateRequest, now: Time, id: Uuid)
    requires StorableAt(r, now)
    ensures StorableAt(r.(newId := id), now) && SqlBinding(CreateBinding(r.(newId := id), now))
    ensures Seconds(now) < Seconds(CreateBinding(r.(newId := id), now).expiresAt)
  {
  }

  lemma FirstCreates(c: Contest) returns (run: seq<System>)
    requires Straddles(c)
    ensures ContinuesTo([c.Start()], run, 0, c.AfterFirst())
  {
    assert CreateRace.Starts(c.Start());
    StorableUnderAnyId(c.request, c.first, c.request.newId);
    run := CreatesFresh([c.Start()], 0);
  }

  lemma LateCreates(c: Contest, run: seq<System>) returns (longer: seq<System>)
    requires Straddles(c) && IsRun(run) && Last(run) == c.AfterFirst()
    ensures ContinuesTo(run, longer, 1, c.AfterLate())
  {
    StorableUnderAnyId(c.request, c.late, c.lateId);
    assert Last(run).processes[1] == Process(c.Late(), c.late, 0, Idle);
    assert Last(run).transfers.Keys == {c.request.newId};
    longer := CreatesAnew(run, 1, c.FirstBinding());
  }

  lemma LastAnswers(c: Contest, run: seq<System>) returns (longer: seq<System>)
    requires Straddles(c) && IsRun(run) && Last(run) == c.AfterLate()
    ensures ContinuesTo(run, longer, 2, At(Last(run), 2, Committed(c.lateId, false)))
  {
    StorableUnderAnyId(c.request, c.last, c.lastId);
    StorableUnderAnyId(c.request, c.late, c.lateId);
    assert Last(run).processes[2] == Process(c.request.(newId := c.lastId), c.last, 0, Idle);
    longer := AnswersAgain(run, 2, c.LateBinding(), c.lateId);
  }

  lemma Apart(start: System, first: seq<System>, second: seq<System>, third: seq<System>,
              s1: System, s2: System, s3: System)
    requires ContinuesTo([start], first, 0, s1) && ContinuesTo(first, second, 1, s2)
    requires ContinuesTo(second, third, 2, s3)
    requires |s1.processes| == |s3.processes| == 3
    requires s1.processes[0].stage.Committed? && s3.processes[2].stage.Committed?
    requires s1.processes[0].stage.transferId != s3.processes[2].stage.transferId
    ensures exists run, i, j :: EndApart(run, i, j) && run[0] == start
  {
    CommitStays([start], first, third, 0, s1);
    CommitStays(second, third, third, 2, s3);
    assert EndApart(third, |first| - 2, |third| - 2);
  }

  /** Whenever the readings straddle the expiry of the first binding, a run exists in which
      the first and the last of the identical requests end apart. */
  lemma RequestSplits(c: Contest)
    requires Straddles(c)
    ensures exists run, i, j :: EndApart(run, i, j) && run[0] == c.Start()
  {
    var first := FirstCreates(c);
    var second := LateCreates(c, first);
    var third := LastAnswers(c, second);
    Apart(c.Start(), first, second, third, c.AfterFirst(), c.AfterLate(),
          At(c.AfterLate(), 2, Committed(c.lateId, false)));
  }

  lemma CommitStays(run: seq<System>, longer: seq<System>, longest: seq<System>, p: nat, end: System)
    requires ContinuesTo(run, longer, p, end) && longer <= longest
    ensures CommitsAt(longest, |longer| - 2, p) && longest[|longer| - 1] == end && longest[0] == run[0]
  {
    assert longest[|longer| - 2] == longer[|longer| - 2] && longest[|longer| - 1] == longer[|longer| - 1];
    assert longest[0] == longer[0] == run[0];
  }

  const SUBJECT: Uuid := 1
  const ENVELOPE := CipherEnvelope(Xchacha20poly1305V1, seq(16, _ => 65), [65], None, [107])
  const CONTENT :=
    TransferContent(1, MemebankToCliptown, [105], [97, SLASH, 98], seq(43, _ => 65), 0, ENVELOPE, None)
  const REQUEST := CreateRequest(SUBJECT, seq(16, _ => 65), CONTENT, 30 * DAY, seq(43, _ => 65), 1)

  lemma RequestValid(now: Time)
    requires 0 <= now <= DAY
    ensures CreateFault(REQUEST, now) == None
    ensures SqlTransfer(NewRow(REQUEST, now))
  {
    var media: Text := [97, SLASH, 98];
    assert media[1..] == [SLASH, 98] && media[1..][1..] == [98] && media[1..][1..][1..] == [];
    assert Split(media[1..][1..][1..], SLASH) == [[]];
    assert [media[1..][1..][0]] + [] == [98] && [media[0]] + [] == [97];
    assert Split(media[1..][1..], SLASH) == [[98]];
    assert Split(media[1..], SLASH) == [[], [98]];
    assert Split(media, SLASH) == [[97], [98]];
    assert IsMediaType(CONTENT.mediaType);
    assert ValidateEnvelope(ENVELOPE) == None;
    assert IsIdempotencyKey(REQUEST.key) && IsSha256Base64Url(REQUEST.digest);
    ValidatedStorableExactly(REQUEST, now);
  }

  /** The last request reads its clock a second before the late one, and loses the lock to it. */
  const CONTEST := Contest(REQUEST, 0, DAY, DAY - SECOND, 2, 3)

  /** The condition of `SameKeySameTransfer` is needed: identical requests whose readings all
      precede the expiry of the first one's binding, but for one a second later, end with two
      transfers. */
  lemma IdenticalRequestsSplit()
    ensures exists run, i, j :: EndApart(run, i, j) && run[0] == CONTEST.Start()
  {
    RequestValid(0);
    RequestValid(DAY);
    RequestValid(DAY - SECOND);
    RequestSplits(CONTEST);
  }
}
