/** Listing: the keyset query, a client that walks it while the table changes, and the
    state filter against the state a response shows. */
module TransferListing {
  import opened Text
  import opened TransferPolicy
  import opened TransferService
  import opened TransferHistory

  /** The sort key of a row, which is also what a page cursor decodes to. */
  datatype Key = Key(createdAt: Time, id: Uuid)

  type Table = map<Uuid, TransferRow>

  function KeyOf(row: TransferRow): Key { Key(row.createdAt, row.id) }

  /** `a` is listed before `b`: newest first, then by descending identifier. */
  predicate Above(a: Key, b: Key) {
    a.createdAt > b.createdAt || (a.createdAt == b.createdAt && a.id > b.id)
  }

  predicate InDirection(row: TransferRow, direction: Option<TransferDirection>) {
    direction.Some? ==> row.content.direction == direction.value
  }

  /** The SQL condition of a state filter, at full precision. */
  predicate StateCondition(row: TransferRow, state: TransferState, now: Time) {
    match state
    case Pending => row.state == Pending && row.expiresAt > now
    case Expired => row.state == Expired || (row.state == Pending && row.expiresAt <= now)
    case other => row.state == other
  }

  predicate InState(row: TransferRow, state: Option<TransferState>, now: Time) {
    state.Some? ==> StateCondition(row, state.value, now)
  }

  predicate Past(key: Key, cursor: Option<Key>) { cursor.Some? ==> Above(cursor.value, key) }

  lemma AboveTotal(a: Key, b: Key)
    ensures Above(a, b) || a == b || Above(b, a)
  {
  }

  lemma {:induction false} TopmostExists(s: set<Key>)
    requires s != {}
    ensures exists top :: top in s && forall k :: k in s ==> k == top || Above(top, k)
  {
    var one :| one in s;
    var rest := s - {one};
    if rest == {} {
      assert s == {one};
    } else {
      TopmostExists(rest);
      var best :| best in rest && forall k :: k in rest ==> k == best || Above(best, k);
      var top := if Above(best, one) then best else one;
      forall k | k in s
        ensures k == top || Above(top, k)
      {
        assert k == one || k in rest;
        assert one != best;
        AboveTotal(one, best);
      }
    }
  }

  function Topmost(s: set<Key>): (top: Key)
    requires s != {}
    ensures top in s && forall k :: k in s ==> k == top || Above(top, k)
  {
    TopmostExists(s);
    var top :| top in s && forall k :: k in s ==> k == top || Above(top, k);
    top
  }

  /** `ORDER BY created_at DESC, id DESC LIMIT n`. */
  function Ordered(s: set<Key>, n: nat): seq<Key> {
    if s == {} || n == 0 then [] else [Topmost(s)] + Ordered(s - {Topmost(s)}, n - 1)
  }

  ghost predicate Descending(keys: seq<Key>) {
    forall i, j :: 0 <= i < j < |keys| ==> Above(keys[i], keys[j])
  }

  /** The query returns the `n` topmost keys, in order. */
  lemma {:induction false} OrderedIsTop(s: set<Key>, n: nat)
    ensures |Ordered(s, n)| == Min(n, |s|)
    ensures Descending(Ordered(s, n))
    ensures forall k :: k in Ordered(s, n) ==> k in s
    ensures forall k, i :: k in s && k !in Ordered(s, n) && 0 <= i < |Ordered(s, n)| ==> Above(Ordered(s, n)[i], k)
  {
    if s == {} || n == 0 {
    } else {
      OrderedIsTop(s - {Topmost(s)}, n - 1);
    }
  }

  /** What the cursor text of a request decodes to. */
  datatype Cursor = NoCursor | Decoded(key: Key) | Undecodable

  function CursorKey(cursor: Cursor): Option<Key> { if cursor.Decoded? then Some(cursor.key) else None }

  datatype ListQuery = ListQuery(
    subject: Uuid, cursor: Cursor, limit: Option<nat>,
    direction: Option<TransferDirection>, state: Option<TransferState>)

  datatype TransferPage = TransferPage(items: seq<TransferResponse>, nextCursor: Option<Key>)

  /** The keys a query selects from. */
  function Selected(table: Table, q: ListQuery, now: Time): set<Key> {
    set id | id in table && table[id].subject == q.subject && InDirection(table[id], q.direction)
             && InState(table[id], q.state, now) && Past(KeyOf(table[id]), CursorKey(q.cursor)) :: KeyOf(table[id])
  }

  /** Rows are stored under their own identifier. */
  ghost predicate WellKeyed(table: Table) { forall id :: id in table ==> table[id].id == id }

  function PageKeys(selected: set<Key>, limit: nat): seq<Key> { Ordered(selected, limit) }

  function NextCursor(selected: set<Key>, limit: nat): Option<Key>
    requires limit > 0
  {
    OrderedIsTop(selected, limit);
    if |selected| > limit then Some(Ordered(selected, limit)[limit - 1]) else None
  }

  lemma {:induction false} OrderedPrefix(s: set<Key>, n: nat)
    ensures Ordered(s, n + 1)[..Min(n, |Ordered(s, n + 1)|)] == Ordered(s, n)
  {
    if s == {} || n == 0 {
    } else {
      OrderedPrefix(s - {Topmost(s)}, n - 1);
    }
  }

  ghost predicate Renders(items: seq<TransferResponse>, table: Table, keys: seq<Key>, now: Time) {
    && |items| == |keys|
    && forall i :: 0 <= i < |keys| ==>
         keys[i].id in table && KeyOf(table[keys[i].id]) == keys[i]
         && items[i] == Respond(table[keys[i].id], Seconds(now))
  }

  method Render(table: Table, keys: seq<Key>, now: Time) returns (items: seq<TransferResponse>)
    requires forall k :: k in keys ==> k.id in table && KeyOf(table[k.id]) == k
    ensures Renders(items, table, keys, now)
  {
    items := [];
    for i := 0 to |keys|
      invariant Renders(items, table, keys[..i], now)
    {
      items := items + [Respond(table[keys[i].id], Seconds(now))];
    }
    assert keys[..|keys|] == keys;
  }

  /** Narrows the selection filter by filter. */
  method Select(table: Table, q: ListQuery, now: Time) returns (select: set<Key>)
    ensures select == Selected(table, q, now)
    ensures WellKeyed(table) ==> forall id :: id in table ==>
      (Key(table[id].createdAt, id) in select <==> Qualifies(table[id], q, now))
  {
    var ids := set id | id in table && table[id].subject == q.subject;
    if q.direction.Some? {
      ids := set id | id in ids && table[id].content.direction == q.direction.value;
    }
    if q.state.Some? {
      ids := set id | id in ids && StateCondition(table[id], q.state.value, now);
    }
    if q.cursor.Decoded? {
      ids := set id | id in ids && Above(q.cursor.key, KeyOf(table[id]));
    }
    select := set id | id in ids :: KeyOf(table[id]);
  }

  /** Newer, or as old and of larger identifier. */
  predicate Newer(createdAt: Time, id: Uuid, than: Key) {
    createdAt > than.createdAt || (createdAt == than.createdAt && id > than.id)
  }

  /** The row is the subject's and meets direction, state and cursor of the query. */
  ghost predicate Qualifies(row: TransferRow, q: ListQuery, now: Time) {
    && row.subject == q.subject
    && (q.direction.Some? ==> row.content.direction == q.direction.value)
    && (q.state.Some? ==> StateCondition(row, q.state.value, now))
    && (q.cursor.Decoded? ==> Newer(q.cursor.key.createdAt, q.cursor.key.id, Key(row.createdAt, row.id)))
  }

  /** A row to come is below the cursor. */
  ghost predicate BelowCursor(row: TransferRow, cursor: Option<Key>) {
    cursor.Some? && Newer(cursor.value.createdAt, cursor.value.id, Key(row.createdAt, row.id))
  }

  /** The page shows qualifying rows only, newest first, and every qualifying row is on it or
      below its cursor; a cursor is given, that of the last row of a full page, exactly
      when a qualifying row is left. */
  ghost predicate PageMeets(table: Table, q: ListQuery, now: Time, limit: nat, page: TransferPage) {
    var items, cursor := page.items, page.nextCursor;
    && |items| <= limit
    && (forall i :: 0 <= i < |items| ==>
          var id := items[i].transferId;
          id in table && Qualifies(table[id], q, now) && items[i] == Respond(table[id], Seconds(now)))
    && (forall i, j :: 0 <= i < j < |items| ==>
          Newer(items[i].createdAt, items[i].transferId, Key(items[j].createdAt, items[j].transferId)))
    && (cursor.Some? ==>
          && |items| == limit && limit > 0
          && cursor.value == Key(items[limit - 1].createdAt, items[limit - 1].transferId)
          && exists id :: id in table && Qualifies(table[id], q, now) && BelowCursor(table[id], cursor))
    && (forall id :: id in table && Qualifies(table[id], q, now) ==>
          || (exists i :: 0 <= i < |items| && items[i].transferId == id)
          || BelowCursor(table[id], cursor))
  }

  lemma SelectedQualify(table: Table, q: ListQuery, now: Time)
    requires WellKeyed(table)
    ensures forall k :: k in Selected(table, q, now) <==>
      k.id in table && k == KeyOf(table[k.id]) && Qualifies(table[k.id], q, now)
  {
  }

  lemma LeftBelowCursor(selected: set<Key>, limit: nat)
    requires 0 < limit
    ensures var page, cursor := PageKeys(selected, limit), NextCursor(selected, limit);
      && (cursor.Some? ==>
            && |page| == limit && cursor.value == page[limit - 1]
            && exists k :: k in selected && Above(cursor.value, k))
      && forall k :: k in selected ==> k in page || (cursor.Some? && Above(cursor.value, k))
  {
    OrderedIsTop(selected, limit);
    if |selected| > limit {
      BelowLastListed(selected, limit);
      var page := PageKeys(selected, limit);
      var below := set k | k in selected && Above(page[limit - 1], k);
      assert |below| > 0;
      var k :| k in below;
    } else {
      AllListed(selected, limit);
    }
  }

  lemma ItemsShowRows(
    table: Table, q: ListQuery, now: Time, limit: nat, items: seq<TransferResponse>, keys: seq<Key>)
    requires WellKeyed(table) && keys == PageKeys(Selected(table, q, now), limit) && Renders(items, table, keys, now)
    ensures |items| <= limit
    ensures forall i :: 0 <= i < |items| ==> Key(items[i].createdAt, items[i].transferId) == keys[i]
    ensures forall i :: 0 <= i < |items| ==>
      var id := items[i].transferId;
      id in table && Qualifies(table[id], q, now) && items[i] == Respond(table[id], Seconds(now))
    ensures forall i, j :: 0 <= i < j < |items| ==>
      Newer(items[i].createdAt, items[i].transferId, Key(items[j].createdAt, items[j].transferId))
  {
    OrderedIsTop(Selected(table, q, now), limit);
    SelectedQualify(table, q, now);
    forall i | 0 <= i < |items|
      ensures Key(items[i].createdAt, items[i].transferId) == keys[i]
      ensures items[i].transferId in table && Qualifies(table[items[i].transferId], q, now)
    {
      assert keys[i] in Selected(table, q, now);
    }
    forall i, j | 0 <= i < j < |items|
      ensures Newer(items[i].createdAt, items[i].transferId, Key(items[j].createdAt, items[j].transferId))
    {
      assert Above(keys[i], keys[j]);
    }
  }

  lemma LeftRowsBelowCursor(table: Table, q: ListQuery, now: Time, limit: nat, cursor: Option<Key>)
    requires WellKeyed(table) && 0 < limit && cursor == NextCursor(Selected(table, q, now), limit)
    ensures cursor.Some? ==>
      && |PageKeys(Selected(table, q, now), limit)| == limit
      && cursor.value == PageKeys(Selected(table, q, now), limit)[limit - 1]
      && exists id :: id in table && Qualifies(table[id], q, now) && BelowCursor(table[id], cursor)
    ensures forall id :: id in table && Qualifies(table[id], q, now) ==>
      KeyOf(table[id]) in PageKeys(Selected(table, q, now), limit) || BelowCursor(table[id], cursor)
  {
    var selected := Selected(table, q, now);
    SelectedQualify(table, q, now);
    LeftBelowCursor(selected, limit);
    if cursor.Some? {
      var k :| k in selected && Above(cursor.value, k);
      assert k.id in table && Qualifies(table[k.id], q, now) && BelowCursor(table[k.id], cursor);
    }
    forall id | id in table && Qualifies(table[id], q, now)
      ensures KeyOf(table[id]) in PageKeys(selected, limit) || BelowCursor(table[id], cursor)
    {
      assert KeyOf(table[id]) in selected;
    }
  }

  lemma ListedPageMeets(table: Table, q: ListQuery, now: Time, limit: nat, page: TransferPage)
    requires WellKeyed(table) && 0 < limit && page.nextCursor == NextCursor(Selected(table, q, now), limit)
    requires Renders(page.items, table, PageKeys(Selected(table, q, now), limit), now)
    ensures PageMeets(table, q, now, limit, page)
  {
    var keys := PageKeys(Selected(table, q, now), limit);
    ItemsShowRows(table, q, now, limit, page.items, keys);
    LeftRowsBelowCursor(table, q, now, limit, page.nextCursor);
    forall id | id in table && Qualifies(table[id], q, now)
      ensures (exists i :: 0 <= i < |page.items| && page.items[i].transferId == id)
        || BelowCursor(table[id], page.nextCursor)
    {
      if KeyOf(table[id]) in keys {
        var i :| 0 <= i < |keys| && keys[i] == KeyOf(table[id]);
        assert page.items[i].transferId == id;
      }
    }
  }

  /** Reads one row more than the limit to learn whether a next page exists. */
  method ListTransfers(table: Table, q: ListQuery, now: Time) returns (r: Result<TransferPage, ApiError>)
    requires WellKeyed(table)
    ensures var limit := if q.limit.Some? then q.limit.value else 50;
      if 1 <= limit <= 100 && q.cursor != Undecodable then
        && r.Success?
        && r.value.nextCursor == NextCursor(Selected(table, q, now), limit)
        && Renders(r.value.items, table, PageKeys(Selected(table, q, now), limit), now)
        && PageMeets(table, q, now, limit, r.value)
      else r == Failure(BadRequest)
  {
    var limit := if q.limit.Some? then q.limit.value else 50;
    if !(1 <= limit <= 100) {
      return Failure(BadRequest);
    }
    if q.cursor == Undecodable {
      return Failure(BadRequest);
    }
    var select := Select(table, q, now);
    OrderedIsTop(select, limit + 1);
    OrderedPrefix(select, limit);
    var models := Ordered(select, limit + 1);
    var hasMore := |models| > limit;
    if hasMore {
      models := models[..limit];
    }
    OrderedIsTop(select, limit);
    assert models == PageKeys(select, limit);
    var nextCursor := if hasMore then Some(models[|models| - 1]) else None;
    var items := Render(table, models, now);
    ListedPageMeets(table, q, now, limit, TransferPage(items, nextCursor));
    r := Success(TransferPage(items, nextCursor));
  }

  /** What may happen while a client walks the pages of one filter. */
  datatype Happening = Inserted(row: TransferRow) | Updated(row: TransferRow) | Fetched(limit: nat, now: Time)

  /** `met` and `missed` are the rows that met, and did not meet, the state filter at some fetch. */
  datatype Walk = Walk(
    table: Table, cursor: Option<Key>, done: bool, received: seq<Key>, met: set<Uuid>, missed: set<Uuid>)

  function NewWalk(table: Table): Walk { Walk(table, None, false, [], {}, {}) }

  /** The handlers never touch owner, creation time or direction of a row. */
  predicate SameIdentity(a: TransferRow, b: TransferRow) {
    a.id == b.id && a.subject == b.subject && a.createdAt == b.createdAt && a.content.direction == b.content.direction
  }

  /** One table differs from another by at most one inserted or updated row. */
  ghost predicate OneRowApart(before: Table, after: Table, id: Uuid) {
    || after == before
    || (id in after && after == before[id := after[id]] && after[id].id == id
        && (id in before ==> SameIdentity(after[id], before[id])))
  }

  lemma CreateTouchesOneRow(db: Database, r: CreateRequest, now: Time)
    ensures OneRowApart(db.transfers, HandleCreate(db, r, now).0.transfers, r.newId)
  {
  }

  lemma AckTouchesOneRow(db: Database, r: AckRequest, now: Time)
    requires WellKeyed(db.transfers)
    ensures OneRowApart(db.transfers, HandleAck(db, r, now).0.transfers, r.transferId)
  {
  }

  lemma CancelTouchesOneRow(db: Database, subject: Uuid, id: Uuid, now: Time)
    requires WellKeyed(db.transfers)
    ensures OneRowApart(db.transfers, HandleCancel(db, subject, id, now).0.transfers, id)
  {
  }

  /** The one row an event may insert or update. */
  function RowOf(e: Event): Uuid {
    match e.request
    case Creating(r) => r.newId
    case Acknowledging(r) => r.transferId
    case Cancelling(_, id) => id
  }

  /** What a walk assumes of the table is what the handlers do to it. */
  lemma HandlersTouchOneRow(db: Database, e: Event)
    requires WellKeyed(db.transfers)
    ensures OneRowApart(db.transfers, Handle(db, e).0.transfers, RowOf(e))
  {
    match e.request
    case Creating(r) => CreateTouchesOneRow(db, r, e.now);
    case Acknowledging(r) => AckTouchesOneRow(db, r, e.now);
    case Cancelling(subject, id) => CancelTouchesOneRow(db, subject, id, e.now);
  }

  /** What the pages of one walk are filtered by. */
  datatype Filter = Filter(subject: Uuid, direction: Option<TransferDirection>, state: Option<TransferState>)

  function WalkQuery(f: Filter, cursor: Option<Key>): ListQuery {
    ListQuery(f.subject, if cursor.Some? then Decoded(cursor.value) else NoCursor, None, f.direction, f.state)
  }

  function Remaining(w: Walk, f: Filter, now: Time): set<Key> { Selected(w.table, WalkQuery(f, w.cursor), now) }

  /** The rows that meet the state filter at `now`. */
  function Meeting(table: Table, f: Filter, now: Time): set<Uuid> {
    set id | id in table && InState(table[id], f.state, now)
  }

  function WalkStep(w: Walk, f: Filter, h: Happening): Walk {
    match h
    case Inserted(row) => if row.id in w.table then w else w.(table := w.table[row.id := row])
    case Updated(row) =>
      if row.id in w.table && SameIdentity(row, w.table[row.id]) then w.(table := w.table[row.id := row]) else w
    case Fetched(limit, now) =>
      if w.done || !(1 <= limit <= 100) then w
      else
        var remaining, meeting := Remaining(w, f, now), Meeting(w.table, f, now);
        var next := NextCursor(remaining, limit);
        Walk(w.table, next, next == None, w.received + PageKeys(remaining, limit),
             w.met + meeting, w.missed + (w.table.Keys - meeting))
  }

  function WalkRun(w: Walk, f: Filter, hs: seq<Happening>): Walk {
    if hs == [] then w
    else WalkStep(WalkRun(w, f, hs[..|hs| - 1]), f, hs[|hs| - 1])
  }

  predicate Matches(row: TransferRow, f: Filter) { row.subject == f.subject && InDirection(row, f.direction) }

  /** Listed so far: everything, once the walk is done; otherwise everything at or above the cursor. */
  predicate Behind(w: Walk, k: Key) { w.done || (w.cursor.Some? && !Above(w.cursor.value, k)) }

  /** Key `k` is that of a row of the filter's subject and direction. */
  ghost predicate ListsRow(table: Table, k: Key, f: Filter) {
    k.id in table && KeyOf(table[k.id]) == k && Matches(table[k.id], f)
  }

  ghost predicate OnTrack(start: Table, w: Walk, f: Filter) {
    && WellKeyed(w.table)
    && (forall id :: id in start ==> id in w.table && SameIdentity(w.table[id], start[id]))
    && Descending(w.received)
    && (forall k :: k in w.received ==> ListsRow(w.table, k, f) && k.id in w.met)
    && (!w.done ==>
          if w.cursor == None then w.received == []
          else w.received != [] && w.received[|w.received| - 1] == w.cursor.value)
    && (forall id :: id in start && Matches(start[id], f) && id !in w.missed && Behind(w, KeyOf(start[id])) ==>
          KeyOf(start[id]) in w.received)
  }

  lemma DescendingAppends(received: seq<Key>, page: seq<Key>)
    requires Descending(received) && Descending(page)
    requires forall k :: k in page && received != [] ==> Above(received[|received| - 1], k)
    ensures Descending(received + page)
  {
    forall i, j | 0 <= i < |received| && 0 <= j < |page|
      ensures Above(received[i], page[j])
    {
      assert page[j] in page && Above(received[|received| - 1], page[j]);
    }
  }

  lemma FetchExtends(start: Table, w: Walk, f: Filter, limit: nat, now: Time)
    requires OnTrack(start, w, f) && !w.done && 1 <= limit <= 100
    ensures OnTrack(start, WalkStep(w, f, Fetched(limit, now)), f)
  {
    var remaining := Remaining(w, f, now);
    var page := PageKeys(remaining, limit);
    var next := WalkStep(w, f, Fetched(limit, now));
    PageBelowCursor(w, f, limit, now);
    assert !next.done ==> next.cursor == Some(page[limit - 1]);
    DescendingAppends(w.received, page);
    forall id | id in start && Matches(start[id], f) && id !in next.missed && Behind(next, KeyOf(start[id]))
      ensures KeyOf(start[id]) in next.received
    {
      FetchLists(start, w, f, limit, now, id);
    }
  }

  /** A page lists rows of the filter's subject and direction below the cursor, in order. */
  lemma PageBelowCursor(w: Walk, f: Filter, limit: nat, now: Time)
    requires WellKeyed(w.table)
    ensures var remaining := Remaining(w, f, now);
      var page := PageKeys(remaining, limit);
      && |page| == Min(limit, |remaining|) && Descending(page)
      && forall k :: k in page ==>
           ListsRow(w.table, k, f) && Past(k, w.cursor) && k.id in Meeting(w.table, f, now)
  {
    OrderedIsTop(Remaining(w, f, now), limit);
  }

  lemma FetchLists(start: Table, w: Walk, f: Filter, limit: nat, now: Time, id: Uuid)
    requires OnTrack(start, w, f) && !w.done && 1 <= limit <= 100
    requires id in start && Matches(start[id], f) && id in Meeting(w.table, f, now) && id !in w.missed
    requires Behind(WalkStep(w, f, Fetched(limit, now)), KeyOf(start[id]))
    ensures KeyOf(start[id]) in WalkStep(w, f, Fetched(limit, now)).received
  {
    var remaining, k := Remaining(w, f, now), KeyOf(start[id]);
    if !Behind(w, k) {
      assert k == KeyOf(w.table[id]) && k in remaining;
      OrderedIsTop(remaining, limit);
      if |remaining| <= limit {
        AllListed(remaining, limit);
      }
    }
  }

  lemma TableChangeKeepsTrack(start: Table, w: Walk, f: Filter, h: Happening)
    requires OnTrack(start, w, f) && !h.Fetched?
    ensures OnTrack(start, WalkStep(w, f, h), f)
  {
  }

  lemma AllListed(s: set<Key>, n: nat)
    requires |s| <= n
    ensures forall k :: k in s ==> k in Ordered(s, n)
  {
    OrderedIsTop(s, n);
    var listed := set k | k in Ordered(s, n);
    DistinctCount(Ordered(s, n));
    assert listed <= s;
    if k :| k in s && k !in listed {
      assert listed <= s - {k};
      SubsetSize(listed, s - {k});
    }
  }

  lemma {:induction false} WalkStaysOnTrack(start: Table, f: Filter, hs: seq<Happening>)
    requires WellKeyed(start)
    ensures OnTrack(start, WalkRun(NewWalk(start), f, hs), f)
  {
    if hs == [] {
    } else {
      var earlier, h := hs[..|hs| - 1], hs[|hs| - 1];
      WalkStaysOnTrack(start, f, earlier);
      var w := WalkRun(NewWalk(start), f, earlier);
      if !h.Fetched? {
        TableChangeKeepsTrack(start, w, f, h);
      } else if !w.done && 1 <= h.limit <= 100 {
        FetchExtends(start, w, f, h.limit, h.now);
      }
    }
  }

  /** Keyset pagination under writes: a finished walk has received every matching row that
      was there at the start and met the state filter at every fetch exactly once, and
      nothing but rows of its subject and direction that met it at some fetch, in strictly
      descending order, whatever was inserted or updated meanwhile and whatever limits and
      clock readings it used. Without a state filter no row is missed. */
  lemma FinishedWalkIsComplete(start: Table, f: Filter, hs: seq<Happening>)
    requires WellKeyed(start)
    requires WalkRun(NewWalk(start), f, hs).done
    ensures var w := WalkRun(NewWalk(start), f, hs);
      var received := w.received;
      && Descending(received)
      && (forall k :: k in received ==> ListsRow(w.table, k, f) && k.id in w.met)
      && (forall i, j :: 0 <= i < j < |received| ==> received[i] != received[j])
      && (forall id :: id in start && Matches(start[id], f) && id !in w.missed ==> KeyOf(start[id]) in received)
      && (f.state == None ==> w.missed == {})
  {
    WalkStaysOnTrack(start, f, hs);
    if f.state == None {
      NothingMissed(start, f, hs);
    }
  }

  lemma {:induction false} NothingMissed(start: Table, f: Filter, hs: seq<Happening>)
    requires f.state == None
    ensures WalkRun(NewWalk(start), f, hs).missed == {}
  {
    if hs == [] {
    } else {
      NothingMissed(start, f, hs[..|hs| - 1]);
      var w, h := WalkRun(NewWalk(start), f, hs[..|hs| - 1]), hs[|hs| - 1];
      assert h.Fetched? ==> Meeting(w.table, f, h.now) == w.table.Keys;
    }
  }

  /** Fetches only, all at one clock reading. */
  ghost predicate FetchesAt(hs: seq<Happening>, now: Time) {
    forall i :: 0 <= i < |hs| ==> hs[i].Fetched? && hs[i].now == now
  }

  lemma {:induction false} FixedTableMeets(table: Table, f: Filter, hs: seq<Happening>, now: Time)
    requires FetchesAt(hs, now)
    ensures var w := WalkRun(NewWalk(table), f, hs);
      w.table == table && w.met <= Meeting(table, f, now) && w.missed !! Meeting(table, f, now)
  {
    if hs == [] {
    } else {
      FixedTableMeets(table, f, hs[..|hs| - 1], now);
    }
  }

  /** A filtered walk over a fixed table at one clock reading receives exactly the rows of
      its subject and direction in the state it asks for. */
  lemma FilteredWalkIsExact(table: Table, f: Filter, hs: seq<Happening>, now: Time, id: Uuid)
    requires WellKeyed(table) && FetchesAt(hs, now) && WalkRun(NewWalk(table), f, hs).done && id in table
    ensures var row := table[id];
      Key(row.createdAt, id) in WalkRun(NewWalk(table), f, hs).received <==>
        && row.subject == f.subject
        && (f.direction.Some? ==> row.content.direction == f.direction.value)
        && (f.state.Some? ==> StateCondition(row, f.state.value, now))
  {
    FinishedWalkIsComplete(table, f, hs);
    FixedTableMeets(table, f, hs, now);
    assert KeyOf(table[id]) == Key(table[id].createdAt, id);
  }

  lemma BelowLastListed(s: set<Key>, n: nat)
    requires 0 < n < |s|
    ensures |Ordered(s, n)| == n
    ensures forall k :: k in s ==> (Above(Ordered(s, n)[n - 1], k) <==> k !in Ordered(s, n))
    ensures |set k | k in s && Above(Ordered(s, n)[n - 1], k)| == |s| - n
  {
    var page := Ordered(s, n);
    OrderedIsTop(s, n);
    DistinctCount(page);
    var listed := set k | k in page;
    forall k | k in s
      ensures Above(page[n - 1], k) <==> k !in page
    {
      if k in page {
        var i :| 0 <= i < |page| && page[i] == k;
        assert i < n - 1 ==> Above(page[i], page[n - 1]);
      }
    }
    assert (set k | k in s && Above(page[n - 1], k)) == s - listed;
    assert listed <= s;
  }

  lemma RemainingBelow(w: Walk, f: Filter, last: Key, now: Time)
    requires last in Remaining(w, f, now)
    ensures Remaining(w.(cursor := Some(last)), f, now) ==
      set k | k in Remaining(w, f, now) && Above(last, k)
  {
    var before, after := Remaining(w, f, now), Remaining(w.(cursor := Some(last)), f, now);
    assert Past(last, w.cursor);
    forall k
      ensures k in after <==> k in before && Above(last, k)
    {
      if k in after {
        var id :| id in w.table && KeyOf(w.table[id]) == k && Matches(w.table[id], f)
                  && Past(k, Some(last));
        assert Past(k, w.cursor);
      }
    }
  }

  lemma RemainingAfterPage(w: Walk, f: Filter, limit: nat, now: Time)
    requires WellKeyed(w.table) && !w.done && 1 <= limit <= 100
    requires |Remaining(w, f, now)| > limit
    ensures var next := WalkStep(w, f, Fetched(limit, now));
      !next.done && next.table == w.table
      && |Remaining(next, f, now)| == |Remaining(w, f, now)| - limit
  {
    var before := Remaining(w, f, now);
    OrderedIsTop(before, limit);
    BelowLastListed(before, limit);
    RemainingBelow(w, f, Ordered(before, limit)[limit - 1], now);
  }

  /** How many fetches of one limit finish a walk over a fixed table. */
  function FetchesToFinish(w: Walk, f: Filter, limit: nat, now: Time): nat
    requires WellKeyed(w.table) && !w.done && 1 <= limit <= 100
    decreases |Remaining(w, f, now)|
  {
    if |Remaining(w, f, now)| <= limit then 1
    else
      RemainingAfterPage(w, f, limit, now);
      1 + FetchesToFinish(WalkStep(w, f, Fetched(limit, now)), f, limit, now)
  }

  /** On a fixed table a walk ends after `max(1, ceil(rows / limit))` fetches: only the last
      page comes without a cursor. */
  lemma {:induction false} WalkTakesCeiling(w: Walk, f: Filter, limit: nat, now: Time)
    requires WellKeyed(w.table) && !w.done && 1 <= limit <= 100
    ensures var fetches, rows := FetchesToFinish(w, f, limit, now), |Remaining(w, f, now)|;
      && rows <= fetches * limit && (fetches > 1 ==> (fetches - 1) * limit < rows)
      && fetches >= 1
    ensures WalkStep(w, f, Fetched(limit, now)).done <==> |Remaining(w, f, now)| <= limit
    decreases |Remaining(w, f, now)|
  {
    if |Remaining(w, f, now)| <= limit {
    } else {
      RemainingAfterPage(w, f, limit, now);
      var next := WalkStep(w, f, Fetched(limit, now));
      WalkTakesCeiling(next, f, limit, now);
      var rest := FetchesToFinish(next, f, limit, now);
      assert (1 + rest) * limit == limit + rest * limit;
      assert rest * limit == limit + (rest - 1) * limit;
    }
  }

  /** Filter and response agree: every row meets exactly one state filter, and the state its
      response shows is that filter's, except exactly when a pending row expires after
      `now` but within the same second; it is then filtered as pending and shown expired. */
  lemma FilterMeetsResponse(row: TransferRow, now: Time)
    ensures exists state :: StateCondition(row, state, now)
    ensures forall a, b :: StateCondition(row, a, now) && StateCondition(row, b, now) ==> a == b
    ensures forall state :: StateCondition(row, state, now) ==>
      var shown := Respond(row, Seconds(now)).state;
      if row.state == Pending && now < row.expiresAt && Seconds(row.expiresAt) == Seconds(now)
      then state == Pending && shown == Expired
      else shown == state
  {
    var state := if row.state == Pending && row.expiresAt <= now then Expired else row.state;
    assert StateCondition(row, state, now);
  }
}
