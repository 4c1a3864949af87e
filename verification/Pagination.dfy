/** Cursor pagination of the approval queue (`list_approvals` in app/approvals.py). */
module Pagination {
  import opened Common
  import opened Rows
  import opened Text

  datatype Row = Row(id: Id, createdAt: int, state: State)

  /** The order of the queue: by creation time, then by identifier, newest first. */
  predicate Newer(a: Row, b: Row) {
    a.createdAt > b.createdAt || (a.createdAt == b.createdAt && Less(b.id, a.id))
  }

  ghost predicate NewestFirst(rows: seq<Row>) {
    forall i, j :: 0 <= i < j < |rows| ==> Newer(rows[i], rows[j])
  }

  ghost predicate DistinctIds(rows: seq<Row>) {
    forall i, j :: 0 <= i < j < |rows| ==> rows[i].id != rows[j].id
  }

  function InsertRow(rows: seq<Row>, r: Row): (s: seq<Row>)
    ensures multiset(s) == multiset(rows) + multiset{r}
  {
    if rows == [] || Newer(r, rows[0]) then [r] + rows
    else
      assert rows == [rows[0]] + rows[1..];
      [rows[0]] + InsertRow(rows[1..], r)
  }

  /** `sorted(rows, key=(created_at, id), reverse=True)` */
  function Sorted(rows: seq<Row>): (s: seq<Row>)
    ensures multiset(s) == multiset(rows)
  {
    if rows == [] then []
    else
      assert rows == [rows[0]] + rows[1..];
      InsertRow(Sorted(rows[1..]), rows[0])
  }

  function Filtered(table: seq<Row>, statuses: set<State>): seq<Row> {
    if table == [] then []
    else (if statuses == {} || table[0].state in statuses then [table[0]] else []) + Filtered(table[1..], statuses)
  }

  /** The first row with this id. */
  function Position(rows: seq<Row>, id: Id): (p: Option<nat>)
    ensures p.Some? ==> p.value < |rows| && rows[p.value].id == id && forall i :: 0 <= i < p.value ==> rows[i].id != id
    ensures p.None? ==> forall i :: 0 <= i < |rows| ==> rows[i].id != id
  {
    if rows == [] then None
    else if rows[0].id == id then Some(0)
    else var p := Position(rows[1..], id); if p.Some? then Some(p.value + 1) else None
  }

  /** The position after the row that the cursor names, or the beginning when no row has that id. */
  function Start(rows: seq<Row>, cursor: Option<Id>): (n: nat)
    ensures n <= |rows|
  {
    if cursor.None? || cursor.value == "" || Position(rows, cursor.value).None? then 0
    else Position(rows, cursor.value).value + 1
  }

  datatype Page = Page(rows: seq<Row>, next: Option<Id>)

  function PageAt(rows: seq<Row>, start: nat, limit: nat): Page
    requires start <= |rows| && 1 <= limit
  {
    if start + limit < |rows| then Page(rows[start..start + limit], Some(rows[start + limit - 1].id))
    else Page(rows[start..], None)
  }

  function Listed(table: seq<Row>, statuses: set<State>, limit: nat, cursor: Option<Id>): Page
    requires 1 <= limit
  {
    var rows := Sorted(Filtered(table, statuses));
    PageAt(rows, Start(rows, cursor), limit)
  }

  /** The handler passes a limit of at least one. */
  method ListApprovals(table: seq<Row>, statuses: set<State>, limit: nat, cursor: Option<Id>) returns (page: Page)
    requires 1 <= limit
    ensures page == Listed(table, statuses, limit, cursor)
  {
    hide Sorted, Filtered, Newer, Position;
    var rows := Sorted(Filtered(table, statuses));
    var start := 0;
    if cursor.Some? && cursor.value != "" {
      var i := 0;
      while i < |rows|
        invariant 0 <= i <= |rows|
        invariant forall k :: 0 <= k < i ==> rows[k].id != cursor.value
      {
        if rows[i].id == cursor.value {
          start := i + 1;
          break;
        }
        i := i + 1;
      }
    }
    assert start == Start(rows, cursor);
    var end := if start + limit < |rows| then start + limit else |rows|;
    var next := if start + limit < |rows| then Some(rows[end - 1].id) else None;
    page := Page(rows[start..end], next);
  }

  // ----- the order is total, so the listing is determined by the rows -----

  lemma NewerIsStrictOrder(a: Row, b: Row, c: Row)
    ensures !Newer(a, a)
    ensures Newer(a, b) && Newer(b, c) ==> Newer(a, c)
    ensures a.id != b.id ==> Newer(a, b) || Newer(b, a)
    ensures Newer(a, b) ==> !Newer(b, a)
  {
    LessIsStrictOrder(c.id, b.id, a.id);
    LessIsStrictOrder(a.id, b.id, a.id);
    LessIsStrictOrder(b.id, a.id, b.id);
    LessIsStrictOrder(a.id, a.id, a.id);
  }

  lemma {:induction false} InsertKeepsOrder(rows: seq<Row>, r: Row)
    requires NewestFirst(rows) && forall i :: 0 <= i < |rows| ==> rows[i].id != r.id
    ensures NewestFirst(InsertRow(rows, r))
  {
    hide Newer;
    if rows != [] {
      if Newer(r, rows[0]) {
        forall j | 0 <= j < |rows| ensures Newer(r, rows[j]) { NewerIsStrictOrder(r, rows[0], rows[j]); }
      } else {
        NewerIsStrictOrder(r, rows[0], r);
        InsertKeepsOrder(rows[1..], r);
        var s := InsertRow(rows[1..], r);
        forall i | 0 <= i < |s| ensures Newer(rows[0], s[i]) {
          assert s[i] in multiset(s);
          assert s[i] in multiset(rows[1..]) + multiset{r};
          assert s[i] == r || s[i] in rows[1..];
        }
      }
    }
  }

  lemma {:induction false} SortedIsOrdered(rows: seq<Row>)
    requires DistinctIds(rows)
    ensures NewestFirst(Sorted(rows))
  {
    hide Newer;
    if rows != [] {
      SortedIsOrdered(rows[1..]);
      var s := Sorted(rows[1..]);
      forall i | 0 <= i < |s| ensures s[i].id != rows[0].id {
        assert s[i] in multiset(s);
        assert s[i] in multiset(rows[1..]);
        assert s[i] in rows[1..];
      }
      InsertKeepsOrder(s, rows[0]);
    }
  }

  /** Two newest-first listings with the same members are the same listing. */
  lemma {:induction false} OrderIsUnique(a: seq<Row>, b: seq<Row>)
    requires NewestFirst(a) && NewestFirst(b) && forall r :: r in a <==> r in b
    ensures a == b
  {
    hide Newer;
    if a == [] {
      HasMember(b);
    } else {
      SameFirst(a, b);
      NewerIsStrictOrder(a[0], a[0], a[0]);
      assert a == [a[0]] + a[1..] && b == [b[0]] + b[1..];
      forall r ensures r in a[1..] <==> r in b[1..] {
        assert r in a[1..] ==> Newer(a[0], r);
        assert r in b[1..] ==> Newer(a[0], r);
        assert r in a <==> r == a[0] || r in a[1..];
        assert r in b <==> r == b[0] || r in b[1..];
      }
      OrderIsUnique(a[1..], b[1..]);
    }
  }

  lemma SameFirst(a: seq<Row>, b: seq<Row>)
    requires NewestFirst(a) && NewestFirst(b) && a != [] && forall r :: r in a <==> r in b
    ensures b != [] && a[0] == b[0]
  {
    hide Newer;
    assert a[0] in b;
    assert b[0] in a;
    var i :| 0 <= i < |b| && b[i] == a[0];
    var j :| 0 <= j < |a| && a[j] == b[0];
    NewerIsStrictOrder(a[0], b[0], a[0]);
  }

  // ----- one page of a queue that changes -----

  predicate Shown(r: Row, statuses: set<State>) {
    statuses == {} || r.state in statuses
  }

  /** The queue lists a row with this identifier. */
  ghost predicate Lists(table: seq<Row>, statuses: set<State>, id: Id) {
    exists r :: r in table && r.id == id && Shown(r, statuses)
  }

  /** The order on identifiers; the creation time of an approval never changes, its state may. */
  predicate NewerId(created: Id -> int, a: Id, b: Id) {
    created(a) > created(b) || (created(a) == created(b) && Less(b, a))
  }

  ghost predicate TableOk(table: seq<Row>, created: Id -> int) {
    DistinctIds(table) && forall r :: r in table ==> r.createdAt == created(r.id) && r.id != ""
  }

  lemma NewerIdIsStrictOrder(created: Id -> int, a: Id, b: Id, c: Id)
    ensures !NewerId(created, a, a)
    ensures NewerId(created, a, b) && NewerId(created, b, c) ==> NewerId(created, a, c)
    ensures NewerId(created, a, b) || a == b || NewerId(created, b, a)
    ensures NewerId(created, a, b) ==> !NewerId(created, b, a)
  {
    hide Less;
    LessIsStrictOrder(c, b, a);
    LessIsStrictOrder(a, b, a);
    LessIsStrictOrder(b, a, b);
    LessIsStrictOrder(a, a, a);
  }

  lemma {:induction false} FilteredMember(table: seq<Row>, statuses: set<State>, r: Row)
    ensures r in Filtered(table, statuses) <==> r in table && Shown(r, statuses)
  {
    if table != [] {
      FilteredMember(table[1..], statuses, r);
    }
  }

  lemma {:induction false} FilteredIsDistinct(table: seq<Row>, statuses: set<State>)
    requires DistinctIds(table)
    ensures DistinctIds(Filtered(table, statuses))
  {
    if table != [] {
      FilteredIsDistinct(table[1..], statuses);
      var rest := Filtered(table[1..], statuses);
      forall i | 0 <= i < |rest| ensures rest[i].id != table[0].id {
        FilteredMember(table[1..], statuses, rest[i]);
      }
    }
  }

  function Queue(table: seq<Row>, statuses: set<State>): seq<Row> {
    Sorted(Filtered(table, statuses))
  }

  /** The queue is newest first and holds exactly the shown rows. */
  lemma QueueIsOrdered(table: seq<Row>, created: Id -> int, statuses: set<State>)
    requires TableOk(table, created)
    ensures NewestFirst(Queue(table, statuses))
    ensures forall r :: r in Queue(table, statuses) <==> r in table && Shown(r, statuses)
  {
    hide Newer, Sorted, Filtered, Shown;
    FilteredIsDistinct(table, statuses);
    SortedIsOrdered(Filtered(table, statuses));
    forall r ensures r in Queue(table, statuses) <==> r in table && Shown(r, statuses) {
      FilteredMember(table, statuses, r);
      assert r in multiset(Queue(table, statuses)) <==> r in multiset(Filtered(table, statuses));
    }
  }

  /** Every row belongs to `table` or one like it: its creation time is the agreed one. */
  ghost predicate Timed(rows: seq<Row>, created: Id -> int) {
    forall r :: r in rows ==> r.createdAt == created(r.id)
  }

  lemma OrderedRowsByIndex(rows: seq<Row>, created: Id -> int, i: nat, j: nat)
    requires NewestFirst(rows) && Timed(rows, created) && i < j < |rows|
    ensures NewerId(created, rows[i].id, rows[j].id) && rows[i].id != rows[j].id
  {
    hide Less;
    assert Newer(rows[i], rows[j]);
    NewerIdIsStrictOrder(created, rows[i].id, rows[j].id, rows[i].id);
  }

  lemma OrderedIsDistinct(rows: seq<Row>, created: Id -> int)
    requires NewestFirst(rows) && Timed(rows, created)
    ensures DistinctIds(rows)
  {
    hide Newer, NewerId, NewestFirst, Timed;
    forall i, j | 0 <= i < j < |rows| ensures rows[i].id != rows[j].id {
      OrderedRowsByIndex(rows, created, i, j);
    }
  }

  lemma QueueFacts(table: seq<Row>, created: Id -> int, statuses: set<State>)
    requires TableOk(table, created)
    ensures var rows := Queue(table, statuses);
            NewestFirst(rows) && Timed(rows, created) && DistinctIds(rows)
    ensures forall r :: r in Queue(table, statuses) ==> r in table && Shown(r, statuses) && r.id != ""
  {
    hide Newer, NewestFirst, Queue, Shown;
    QueueIsOrdered(table, created, statuses);
    OrderedIsDistinct(Queue(table, statuses), created);
  }

  lemma ListedAt(table: seq<Row>, created: Id -> int, statuses: set<State>, id: Id) returns (p: nat)
    requires TableOk(table, created) && Lists(table, statuses, id)
    ensures p < |Queue(table, statuses)| && Queue(table, statuses)[p].id == id && id != ""
    ensures Start(Queue(table, statuses), Some(id)) == p + 1
  {
    hide Newer, NewestFirst, Queue, Shown;
    var rows := Queue(table, statuses);
    QueueIsOrdered(table, created, statuses);
    QueueFacts(table, created, statuses);
    var r :| r in table && r.id == id && Shown(r, statuses);
    assert r in rows;
    p :| 0 <= p < |rows| && rows[p] == r;
    OnlyPosition(rows, p);
  }

  lemma OnlyPosition(rows: seq<Row>, at: nat)
    requires DistinctIds(rows) && at < |rows|
    ensures Position(rows, rows[at].id) == Some(at)
  {
    hide Position;
    var p := Position(rows, rows[at].id);
    assert p.Some?;
  }

  lemma UnlistedStart(table: seq<Row>, created: Id -> int, statuses: set<State>, id: Id)
    requires TableOk(table, created) && !Lists(table, statuses, id)
    ensures Start(Queue(table, statuses), Some(id)) == 0
  {
    hide Newer, NewestFirst, Queue, Shown, Position;
    QueueIsOrdered(table, created, statuses);
    var rows := Queue(table, statuses);
    forall i | 0 <= i < |rows| ensures rows[i].id != id {
      assert rows[i] in rows;
    }
  }

  /** The cursor of a page is none, or names a row the queue still lists. */
  ghost predicate Held(table: seq<Row>, statuses: set<State>, cursor: Option<Id>) {
    cursor.Some? ==> Lists(table, statuses, cursor.value)
  }

  predicate Behind(created: Id -> int, cursor: Option<Id>, id: Id) {
    cursor.Some? ==> NewerId(created, cursor.value, id)
  }

  /** What a page with a held cursor is: shown rows behind the cursor, newest first, and the next cursor is the
      last of a full page. */
  ghost predicate IsPage(page: Page, table: seq<Row>, created: Id -> int, statuses: set<State>, limit: nat, cursor: Option<Id>) {
    && NewestFirst(page.rows) && Timed(page.rows, created)
    && (forall r :: r in page.rows ==> r in table && Shown(r, statuses) && Behind(created, cursor, r.id))
    && (page.next.Some? ==> |page.rows| == limit && page.rows != [] && page.next.value == page.rows[|page.rows| - 1].id)
  }

  lemma PageIsOrdered(table: seq<Row>, created: Id -> int, statuses: set<State>, limit: nat, cursor: Option<Id>)
    requires TableOk(table, created) && 1 <= limit && Held(table, statuses, cursor)
    ensures IsPage(Listed(table, statuses, limit, cursor), table, created, statuses, limit, cursor)
  {
    hide Newer, Queue, Shown, Start, NewerId, Position;
    var rows := Queue(table, statuses);
    QueueFacts(table, created, statuses);
    var start := Start(rows, cursor);
    if cursor.Some? {
      var p := ListedAt(table, created, statuses, cursor.value);
      forall j | p < j < |rows| ensures NewerId(created, cursor.value, rows[j].id) {
        OrderedRowsByIndex(rows, created, p, j);
      }
    }
    ListedIsPageAt(table, statuses, limit, cursor);
    SliceIsPage(rows, table, created, statuses, start, limit, cursor);
  }

  lemma ListedIsPageAt(table: seq<Row>, statuses: set<State>, limit: nat, cursor: Option<Id>)
    requires 1 <= limit
    ensures var rows := Queue(table, statuses);
            Listed(table, statuses, limit, cursor) == PageAt(rows, Start(rows, cursor), limit)
  {
  }

  lemma SliceIsPage(rows: seq<Row>, table: seq<Row>, created: Id -> int, statuses: set<State>, start: nat, limit: nat,
                    cursor: Option<Id>)
    requires 1 <= limit && start <= |rows| && NewestFirst(rows) && Timed(rows, created)
    requires forall r :: r in rows ==> r in table && Shown(r, statuses)
    requires forall j :: start <= j < |rows| ==> Behind(created, cursor, rows[j].id)
    ensures IsPage(PageAt(rows, start, limit), table, created, statuses, limit, cursor)
  {
    hide Newer, Shown, Behind;
    var page := PageAt(rows, start, limit);
    assert forall i :: 0 <= i < |page.rows| ==> page.rows[i] == rows[start + i];
  }

  /** A listed row behind the cursor is on the page, or behind the next cursor. */
  lemma PageIsComplete(table: seq<Row>, created: Id -> int, statuses: set<State>, limit: nat, cursor: Option<Id>, id: Id)
    requires TableOk(table, created) && 1 <= limit && Held(table, statuses, cursor)
    requires Lists(table, statuses, id) && Behind(created, cursor, id)
    ensures var page := Listed(table, statuses, limit, cursor);
            HasId(page.rows, id) || (page.next.Some? && NewerId(created, page.next.value, id))
  {
    hide Newer, Queue, Shown, NewerId, Position, NewestFirst, Timed;
    var rows := Queue(table, statuses);
    QueueFacts(table, created, statuses);
    var q := ListedAt(table, created, statuses, id);
    var start := Start(rows, cursor);
    if cursor.Some? {
      var p := ListedAt(table, created, statuses, cursor.value);
      NewerIdIsStrictOrder(created, cursor.value, id, cursor.value);
      if q < p { OrderedRowsByIndex(rows, created, q, p); }
    }
    ListedIsPageAt(table, statuses, limit, cursor);
    SliceReaches(rows, created, start, limit, q);
  }

  lemma SliceReaches(rows: seq<Row>, created: Id -> int, start: nat, limit: nat, q: nat)
    requires 1 <= limit && start <= q < |rows| && NewestFirst(rows) && Timed(rows, created)
    ensures var page := PageAt(rows, start, limit);
            HasId(page.rows, rows[q].id) || (page.next.Some? && NewerId(created, page.next.value, rows[q].id))
  {
    hide Newer, NewerId, NewestFirst, Timed;
    var page := PageAt(rows, start, limit);
    if q < start + limit {
      assert page.rows[q - start] == rows[q];
      assert rows[q] in page.rows;
    } else {
      OrderedRowsByIndex(rows, created, start + limit - 1, q);
    }
  }

  ghost predicate HasId(rows: seq<Row>, id: Id) {
    exists r :: r in rows && r.id == id
  }

  // ----- a client that follows the cursor -----

  /** Page k is read from table k; nothing is said of how one table becomes the next. */
  function Walk(tables: nat -> seq<Row>, statuses: set<State>, limit: nat, k: nat, cursor: Option<Id>, pages: nat): seq<Page>
    requires 1 <= limit
    decreases pages
  {
    if pages == 0 then []
    else
      var page := Listed(tables(k), statuses, limit, cursor);
      [page] + if page.next.None? then [] else Walk(tables, statuses, limit, k + 1, page.next, pages - 1)
  }

  function Delivered(pages: seq<Page>): seq<Row> {
    if pages == [] then [] else pages[0].rows + Delivered(pages[1..])
  }

  ghost predicate TablesOk(tables: nat -> seq<Row>, created: Id -> int) {
    forall k: nat :: TableOk(tables(k), created)
  }

  /** The cursor with which page `i` of the walk is read, when the walk began with `cursor`. */
  function CursorOf(pages: seq<Page>, cursor: Option<Id>, i: nat): Option<Id>
    requires i < |pages|
  {
    if i == 0 then cursor else pages[i - 1].next
  }

  /** Each page's cursor is still listed when the page is read. */
  ghost predicate AllHeld(tables: nat -> seq<Row>, statuses: set<State>, k: nat, cursor: Option<Id>, pages: seq<Page>) {
    forall i :: 0 <= i < |pages| ==> Held(tables(k + i), statuses, CursorOf(pages, cursor, i))
  }

  predicate Complete(pages: seq<Page>) {
    pages != [] && pages[|pages| - 1].next.None?
  }

  lemma RestIsHeld(tables: nat -> seq<Row>, statuses: set<State>, k: nat, cursor: Option<Id>, pages: seq<Page>)
    requires pages != [] && AllHeld(tables, statuses, k, cursor, pages)
    ensures Held(tables(k), statuses, cursor)
    ensures AllHeld(tables, statuses, k + 1, pages[0].next, pages[1..])
  {
    hide Held;
    assert Held(tables(k + 0), statuses, CursorOf(pages, cursor, 0));
    var rest := pages[1..];
    forall i | 0 <= i < |rest| ensures Held(tables(k + 1 + i), statuses, CursorOf(rest, pages[0].next, i)) {
      assert Held(tables(k + (i + 1)), statuses, CursorOf(pages, cursor, i + 1));
    }
  }

  lemma WalkUnfolds(tables: nat -> seq<Row>, statuses: set<State>, limit: nat, k: nat, cursor: Option<Id>, pages: nat)
    requires 1 <= limit && 1 <= pages
    ensures var ps := Walk(tables, statuses, limit, k, cursor, pages);
            && ps != [] && ps[0] == Listed(tables(k), statuses, limit, cursor)
            && Delivered(ps) == ps[0].rows + Delivered(ps[1..])
            && (if ps[0].next.None? then ps == [ps[0]] && ps[1..] == []
                else ps[1..] == Walk(tables, statuses, limit, k + 1, ps[0].next, pages - 1))
  {
    hide Listed;
  }

  lemma AppendOlder(a: seq<Row>, b: seq<Row>, created: Id -> int)
    requires NewestFirst(a) && NewestFirst(b) && Timed(a, created) && Timed(b, created)
    requires a == [] ==> b == []
    requires a != [] ==> forall r :: r in b ==> NewerId(created, a[|a| - 1].id, r.id)
    ensures NewestFirst(a + b) && Timed(a + b, created)
  {
    hide Less;
    var all := a + b;
    forall i, j | 0 <= i < j < |all| ensures Newer(all[i], all[j]) {
      if i < |a| <= j {
        assert all[j] in b && a[|a| - 1] in a;
        if i < |a| - 1 { OrderedRowsByIndex(a, created, i, |a| - 1); }
        NewerIdIsStrictOrder(created, a[i].id, a[|a| - 1].id, all[j].id);
      }
    }
  }

  /** With held cursors a walk delivers newest first, and only rows behind the cursor it began with. */
  lemma {:induction false} WalkIsOrdered(tables: nat -> seq<Row>, created: Id -> int, statuses: set<State>, limit: nat,
                                         k: nat, cursor: Option<Id>, pages: nat)
    requires 1 <= limit && TablesOk(tables, created)
    requires AllHeld(tables, statuses, k, cursor, Walk(tables, statuses, limit, k, cursor, pages))
    ensures var rows := Delivered(Walk(tables, statuses, limit, k, cursor, pages));
            NewestFirst(rows) && Timed(rows, created) && forall r :: r in rows ==> Behind(created, cursor, r.id)
    decreases pages
  {
    hide NewestFirst, Timed, Listed, Held, AllHeld, Walk, NewerId, TableOk, Delivered;
    if pages == 0 {
      NothingDelivered(tables, created, statuses, limit, k, cursor);
    } else {
      var ps := Walk(tables, statuses, limit, k, cursor, pages);
      WalkUnfolds(tables, statuses, limit, k, cursor, pages);
      RestIsHeld(tables, statuses, k, cursor, ps);
      PageIsOrdered(tables(k), created, statuses, limit, cursor);
      var page := ps[0];
      var rest := Delivered(ps[1..]);
      if page.next.Some? {
        WalkIsOrdered(tables, created, statuses, limit, k + 1, page.next, pages - 1);
        AppendOlder(page.rows, rest, created);
        var last := page.rows[|page.rows| - 1];
        assert last in page.rows;
        forall r | r in rest ensures Behind(created, cursor, r.id) {
          if cursor.Some? { NewerIdIsStrictOrder(created, cursor.value, last.id, r.id); }
        }
      } else {
        NothingMore();
        assert page.rows + rest == page.rows;
      }
    }
  }

  lemma NothingMore()
    ensures Delivered([]) == []
  {
  }

  lemma NothingDelivered(tables: nat -> seq<Row>, created: Id -> int, statuses: set<State>, limit: nat, k: nat, cursor: Option<Id>)
    requires 1 <= limit
    ensures Delivered(Walk(tables, statuses, limit, k, cursor, 0)) == [] && NewestFirst([]) && Timed([], created)
  {
  }

  /** The identifier is listed in each of `n` tables from the k-th on. */
  ghost predicate ListsFrom(tables: nat -> seq<Row>, statuses: set<State>, k: nat, n: nat, id: Id) {
    forall j: nat :: k <= j < k + n ==> Lists(tables(j), statuses, id)
  }

  /** With held cursors a walk that ends has delivered every row that was listed throughout. */
  lemma {:induction false} WalkIsComplete(tables: nat -> seq<Row>, created: Id -> int, statuses: set<State>, limit: nat,
                                          k: nat, cursor: Option<Id>, pages: nat, id: Id)
    requires 1 <= limit && TablesOk(tables, created)
    requires AllHeld(tables, statuses, k, cursor, Walk(tables, statuses, limit, k, cursor, pages))
    requires Complete(Walk(tables, statuses, limit, k, cursor, pages)) && Behind(created, cursor, id)
    requires ListsFrom(tables, statuses, k, |Walk(tables, statuses, limit, k, cursor, pages)|, id)
    ensures HasId(Delivered(Walk(tables, statuses, limit, k, cursor, pages)), id)
    decreases pages
  {
    hide Listed, Held, AllHeld, Walk, NewerId, TableOk, Delivered, HasId, Lists;
    var ps := Walk(tables, statuses, limit, k, cursor, pages);
    if pages == 0 {
      NoPages(tables, statuses, limit, k, cursor);
    } else {
      WalkUnfolds(tables, statuses, limit, k, cursor, pages);
      RestIsHeld(tables, statuses, k, cursor, ps);
      assert Lists(tables(k), statuses, id);
      PageIsComplete(tables(k), created, statuses, limit, cursor, id);
      if !HasId(ps[0].rows, id) {
        RestIsComplete(ps);
        WalkIsComplete(tables, created, statuses, limit, k + 1, ps[0].next, pages - 1, id);
      }
      HasIdConcat(ps[0].rows, Delivered(ps[1..]), id);
    }
  }

  lemma NoPages(tables: nat -> seq<Row>, statuses: set<State>, limit: nat, k: nat, cursor: Option<Id>)
    requires 1 <= limit
    ensures Walk(tables, statuses, limit, k, cursor, 0) == []
  {
  }

  lemma RestIsComplete(ps: seq<Page>)
    requires Complete(ps) && ps[0].next.Some?
    ensures Complete(ps[1..])
  {
  }

  lemma HasIdConcat(a: seq<Row>, b: seq<Row>, id: Id)
    ensures HasId(a + b, id) <==> HasId(a, id) || HasId(b, id)
  {
    assert forall r :: r in a + b <==> r in a || r in b;
  }

  /** A page is at most `limit` rows of its table, all in a state asked for; with a next cursor it is full. */
  ghost predicate IsCut(page: Page, table: seq<Row>, statuses: set<State>, limit: nat) {
    && |page.rows| <= limit && (page.next.Some? ==> |page.rows| == limit)
    && forall r :: r in page.rows ==> r in table && (statuses == {} || r.state in statuses)
  }

  lemma ListedIsCut(table: seq<Row>, statuses: set<State>, limit: nat, cursor: Option<Id>)
    requires 1 <= limit
    ensures IsCut(Listed(table, statuses, limit, cursor), table, statuses, limit)
  {
    hide Start;
    ListedIsPageAt(table, statuses, limit, cursor);
    var rows, page := Queue(table, statuses), Listed(table, statuses, limit, cursor);
    forall r | r in page.rows ensures r in table && (statuses == {} || r.state in statuses) {
      assert r in rows;
      assert r in multiset(rows);
      assert r in multiset(Filtered(table, statuses));
      FilteredMember(table, statuses, r);
    }
  }

  /** Each page of a walk is such a part of the table it was read from, and all but the last are full. */
  lemma {:induction false} WalkPages(tables: nat -> seq<Row>, statuses: set<State>, limit: nat, k: nat, cursor: Option<Id>,
                                     pages: nat, i: nat)
    requires 1 <= limit && i < |Walk(tables, statuses, limit, k, cursor, pages)|
    ensures var ps := Walk(tables, statuses, limit, k, cursor, pages);
            IsCut(ps[i], tables(k + i), statuses, limit) && (i < |ps| - 1 ==> |ps[i].rows| == limit)
    decreases pages
  {
    hide Listed, Walk, IsCut;
    if pages == 0 {
      NoPages(tables, statuses, limit, k, cursor);
    } else {
      var ps := Walk(tables, statuses, limit, k, cursor, pages);
      WalkUnfolds(tables, statuses, limit, k, cursor, pages);
      ListedIsCut(tables(k), statuses, limit, cursor);
      if i == 0 {
        FullPage(ps[0], tables(k), statuses, limit);
      } else {
        WalkPages(tables, statuses, limit, k + 1, ps[0].next, pages - 1, i - 1);
        assert ps[1..][i - 1] == ps[i] && k + 1 + (i - 1) == k + i;
      }
    }
  }

  lemma FullPage(page: Page, table: seq<Row>, statuses: set<State>, limit: nat)
    requires IsCut(page, table, statuses, limit)
    ensures page.next.Some? ==> |page.rows| == limit
  {
  }

  /** For any filter, and whatever happens to the queue between the pages: as long as every cursor's row is still
      listed when its page is read, the walk delivers newest first and no row twice, and once it ends it has
      delivered every row that was listed throughout. */
  lemma HeldWalkDeliversOnce(tables: nat -> seq<Row>, created: Id -> int, statuses: set<State>, limit: nat, pages: nat)
    requires 1 <= limit && TablesOk(tables, created)
    requires AllHeld(tables, statuses, 0, None, Walk(tables, statuses, limit, 0, None, pages))
    ensures var ps := Walk(tables, statuses, limit, 0, None, pages);
            && NewestFirst(Delivered(ps)) && DistinctIds(Delivered(ps))
            && (Complete(ps) ==>
                  forall id :: ListsFrom(tables, statuses, 0, |ps|, id) ==> HasId(Delivered(ps), id))
  {
    hide NewestFirst, Timed, AllHeld, Walk, TableOk, Delivered, HasId, Lists, DistinctIds, TablesOk, Complete;
    var ps := Walk(tables, statuses, limit, 0, None, pages);
    WalkIsOrdered(tables, created, statuses, limit, 0, None, pages);
    OrderedIsDistinct(Delivered(ps), created);
    if Complete(ps) {
      forall id | ListsFrom(tables, statuses, 0, |ps|, id) ensures HasId(Delivered(ps), id) {
        WalkIsComplete(tables, created, statuses, limit, 0, None, pages, id);
      }
    }
  }

  // ----- the unfiltered queue -----

  /** Rows are never deleted; their states may change, and rows may be added anywhere. */
  ghost predicate NeverDeletes(tables: nat -> seq<Row>) {
    forall k: nat, id :: HasId(tables(k), id) ==> HasId(tables(k + 1), id)
  }

  lemma UnfilteredLists(table: seq<Row>, id: Id)
    ensures Lists(table, {}, id) <==> HasId(table, id)
  {
  }

  lemma {:induction false} UnfilteredIsHeld(tables: nat -> seq<Row>, created: Id -> int, limit: nat, k: nat,
                                            cursor: Option<Id>, pages: nat)
    requires 1 <= limit && TablesOk(tables, created) && NeverDeletes(tables)
    requires Held(tables(k), {}, cursor)
    ensures AllHeld(tables, {}, k, cursor, Walk(tables, {}, limit, k, cursor, pages))
    decreases pages
  {
    hide Listed, Walk, NewerId, TableOk, Delivered, Lists, Held, NewestFirst, Timed, HasId;
    var ps := Walk(tables, {}, limit, k, cursor, pages);
    if pages == 0 {
      NoPages(tables, {}, limit, k, cursor);
    } else {
      WalkUnfolds(tables, {}, limit, k, cursor, pages);
      PageIsOrdered(tables(k), created, {}, limit, cursor);
      if ps[0].next.Some? {
        NextIsHeld(tables, created, limit, k, cursor, ps[0]);
        UnfilteredIsHeld(tables, created, limit, k + 1, ps[0].next, pages - 1);
      }
      forall i | 0 <= i < |ps| ensures Held(tables(k + i), {}, CursorOf(ps, cursor, i)) {
        if i > 0 {
          assert Held(tables(k + 1 + (i - 1)), {}, CursorOf(ps[1..], ps[0].next, i - 1));
          assert k + 1 + (i - 1) == k + i;
        }
      }
    }
  }

  lemma NextIsHeld(tables: nat -> seq<Row>, created: Id -> int, limit: nat, k: nat, cursor: Option<Id>, page: Page)
    requires NeverDeletes(tables) && IsPage(page, tables(k), created, {}, limit, cursor) && page.next.Some?
    ensures Held(tables(k + 1), {}, page.next)
  {
    hide NewerId, NewestFirst, Timed;
    var last := page.rows[|page.rows| - 1];
    assert last in page.rows;
    assert HasId(tables(k), last.id);
    UnfilteredLists(tables(k + 1), last.id);
  }

  lemma {:induction false} StaysPresent(tables: nat -> seq<Row>, i: nat, id: Id)
    requires NeverDeletes(tables) && HasId(tables(0), id)
    ensures HasId(tables(i), id)
  {
    hide HasId;
    if i > 0 {
      StaysPresent(tables, i - 1, id);
      assert HasId(tables(i - 1 + 1), id);
    }
  }

  /** The identifiers of `ids` that are behind the cursor. */
  ghost function Left(ids: set<Id>, created: Id -> int, cursor: Option<Id>): set<Id> {
    set id | id in ids && Behind(created, cursor, id)
  }

  /** Every row that a walk from `cursor` can meet behind the cursor is one of `ids`. */
  ghost predicate Bounded(tables: nat -> seq<Row>, created: Id -> int, k: nat, cursor: Option<Id>, ids: set<Id>) {
    if cursor.None? then forall r :: r in tables(k) ==> r.id in ids && OnlyNewerBesides(tables, created, r.id, ids)
    else OnlyNewerBesides(tables, created, cursor.value, ids)
  }

  /** Every row ever present is one of `ids`, or not behind `id`. */
  ghost predicate OnlyNewerBesides(tables: nat -> seq<Row>, created: Id -> int, id: Id, ids: set<Id>) {
    forall k: nat, r :: r in tables(k) ==> r.id in ids || !NewerId(created, id, r.id)
  }

  lemma {:induction false} WalkEnds(tables: nat -> seq<Row>, created: Id -> int, statuses: set<State>, limit: nat, k: nat,
                                    cursor: Option<Id>, pages: nat, ids: set<Id>)
    requires 1 <= limit && TablesOk(tables, created)
    requires AllHeld(tables, statuses, k, cursor, Walk(tables, statuses, limit, k, cursor, pages))
    requires Bounded(tables, created, k, cursor, ids) && |Left(ids, created, cursor)| < pages
    ensures Complete(Walk(tables, statuses, limit, k, cursor, pages))
    ensures forall r :: r in Delivered(Walk(tables, statuses, limit, k, cursor, pages)) ==> r.id in ids
    decreases pages
  {
    hide Listed, Held, AllHeld, Walk, NewerId, TableOk, Delivered, NewestFirst, Timed, OnlyNewerBesides, Left;
    var ps := Walk(tables, statuses, limit, k, cursor, pages);
    WalkUnfolds(tables, statuses, limit, k, cursor, pages);
    RestIsHeld(tables, statuses, k, cursor, ps);
    PageIsOrdered(tables(k), created, statuses, limit, cursor);
    var page := ps[0];
    PageIsBounded(tables, created, statuses, limit, k, cursor, page, ids);
    if page.next.Some? {
      WalkEnds(tables, created, statuses, limit, k + 1, page.next, pages - 1, ids);
      assert ps[|ps| - 1] == ps[1..][|ps| - 2];
    } else {
      NothingMore();
    }
  }

  lemma PageIsBounded(tables: nat -> seq<Row>, created: Id -> int, statuses: set<State>, limit: nat, k: nat,
                      cursor: Option<Id>, page: Page, ids: set<Id>)
    requires IsPage(page, tables(k), created, statuses, limit, cursor) && Bounded(tables, created, k, cursor, ids)
    ensures forall r :: r in page.rows ==> r.id in ids
    ensures page.next.Some? ==>
              Bounded(tables, created, k + 1, page.next, ids)
              && |Left(ids, created, page.next)| < |Left(ids, created, cursor)|
  {
    hide NewerId, NewestFirst, Timed;
    if page.next.Some? {
      var last := page.rows[|page.rows| - 1];
      assert last in page.rows;
      forall j: nat, r | r in tables(j) ensures r.id in ids || !NewerId(created, last.id, r.id) {
        if cursor.Some? { NewerIdIsStrictOrder(created, cursor.value, last.id, r.id); }
      }
      LeftShrinks(ids, created, cursor, last.id);
    }
  }

  lemma LeftShrinks(ids: set<Id>, created: Id -> int, cursor: Option<Id>, id: Id)
    requires id in ids && Behind(created, cursor, id)
    ensures |Left(ids, created, Some(id))| < |Left(ids, created, cursor)|
  {
    hide NewerId;
    var a, b := Left(ids, created, Some(id)), Left(ids, created, cursor);
    NewerIdIsStrictOrder(created, id, id, id);
    forall x | x in a ensures x in b {
      if cursor.Some? { NewerIdIsStrictOrder(created, cursor.value, id, x); }
    }
    assert id in b && id !in a;
    Smaller(a, b, id);
  }

  lemma Smaller(a: set<Id>, b: set<Id>, x: Id)
    requires a <= b && x in b && x !in a
    ensures |a| < |b|
  {
    assert |a + {x}| <= |b| by { Subset(a + {x}, b); }
  }

  lemma Subset(a: set<Id>, b: set<Id>)
    requires a <= b
    ensures |a| <= |b|
  {
    assert b == a + (b - a) && a !! (b - a);
  }

  /** Without a filter every cursor stays listed. Whatever happens to the states, and wherever rows are added, the
      walk delivers newest first, no row twice, and every row present at the start once it ends; and it ends,
      within the rows of `ids`, when the only other rows that ever appear are not behind those of the start. */
  lemma UnfilteredWalk(tables: nat -> seq<Row>, created: Id -> int, limit: nat, pages: nat, ids: set<Id>)
    requires 1 <= limit && TablesOk(tables, created) && NeverDeletes(tables)
    ensures var ps := Walk(tables, {}, limit, 0, None, pages);
            && NewestFirst(Delivered(ps)) && DistinctIds(Delivered(ps))
            && (Complete(ps) ==> forall r :: r in tables(0) ==> HasId(Delivered(ps), r.id))
            && (Bounded(tables, created, 0, None, ids) && |ids| < pages ==>
                  Complete(ps) && forall r :: r in Delivered(ps) ==> r.id in ids)
  {
    hide NewestFirst, AllHeld, Walk, Delivered, HasId, Lists, DistinctIds, TablesOk, Complete, Bounded, Left, NeverDeletes;
    var ps := Walk(tables, {}, limit, 0, None, pages);
    UnfilteredIsHeld(tables, created, limit, 0, None, pages);
    HeldWalkDeliversOnce(tables, created, {}, limit, pages);
    if Complete(ps) {
      forall r | r in tables(0) ensures HasId(Delivered(ps), r.id) {
        assert HasId(tables(0), r.id) by { Present(tables(0), r); }
        forall j: nat | 0 <= j < |ps| ensures Lists(tables(j), {}, r.id) {
          StaysPresent(tables, j, r.id);
          UnfilteredLists(tables(j), r.id);
        }
      }
    }
    if Bounded(tables, created, 0, None, ids) && |ids| < pages {
      AllLeft(ids, created);
      WalkEnds(tables, created, {}, limit, 0, None, pages, ids);
    }
  }

  lemma Present(table: seq<Row>, r: Row)
    requires r in table
    ensures HasId(table, r.id)
  {
  }

  lemma AllLeft(ids: set<Id>, created: Id -> int)
    ensures Left(ids, created, None) == ids
  {
  }

  function IdsOf(rows: seq<Row>): set<Id> {
    set r | r in rows :: r.id
  }

  /** While only newer rows arrive, and states change in any way, following the cursor ends within as many pages as
      there are rows, plus one, and delivers exactly the rows present at the start, each once, newest first. */
  lemma WalkDeliversEachOnce(tables: nat -> seq<Row>, created: Id -> int, limit: nat)
    requires 1 <= limit && TablesOk(tables, created) && NeverDeletes(tables)
    requires forall k: nat, r, first :: r in tables(k) && first in tables(0) ==>
               r.id in IdsOf(tables(0)) || NewerId(created, r.id, first.id)
    ensures var ps := Walk(tables, {}, limit, 0, None, |IdsOf(tables(0))| + 1);
            && Complete(ps) && NewestFirst(Delivered(ps)) && DistinctIds(Delivered(ps))
            && IdsOf(Delivered(ps)) == IdsOf(tables(0))
  {
    hide NewestFirst, Walk, Delivered, DistinctIds, TablesOk, Complete, NewerId, NeverDeletes;
    var ids := IdsOf(tables(0));
    var ps := Walk(tables, {}, limit, 0, None, |ids| + 1);
    forall first | first in tables(0) ensures first.id in ids && OnlyNewerBesides(tables, created, first.id, ids) {
      forall k: nat, r | r in tables(k) ensures r.id in ids || !NewerId(created, first.id, r.id) {
        NewerIdIsStrictOrder(created, r.id, first.id, r.id);
      }
    }
    UnfilteredWalk(tables, created, limit, |ids| + 1, ids);
    forall id | id in ids ensures id in IdsOf(Delivered(ps)) {
      var r :| r in tables(0) && r.id == id;
      assert HasId(Delivered(ps), r.id);
    }
  }

  // ----- a lost cursor -----

  /** After any walk with held cursors, the next page delivers an identifier again exactly when its cursor has left
      the queue, and the identifier, delivered before, is on the first page of the queue as it is now. */
  lemma RepeatsExactlyWhen(tables: nat -> seq<Row>, created: Id -> int, statuses: set<State>, limit: nat, pages: nat, id: Id)
    requires 1 <= limit && TablesOk(tables, created)
    requires var ps := Walk(tables, statuses, limit, 0, None, pages);
             ps != [] && ps[|ps| - 1].next.Some? && AllHeld(tables, statuses, 0, None, ps)
    ensures var ps := Walk(tables, statuses, limit, 0, None, pages);
            var cursor, now := ps[|ps| - 1].next, tables(|ps|);
            && (HasId(Delivered(ps), id) && HasId(Listed(now, statuses, limit, cursor).rows, id) <==>
                  HasId(Delivered(ps), id) && HasId(Listed(now, statuses, limit, None).rows, id)
                  && !Lists(now, statuses, cursor.value))
            && (!Lists(now, statuses, cursor.value) ==>
                  Listed(now, statuses, limit, cursor) == Listed(now, statuses, limit, None))
  {
    hide NewestFirst, Timed, AllHeld, Walk, TableOk, Delivered, HasId, Lists, NewerId, Queue, Start;
    var ps := Walk(tables, statuses, limit, 0, None, pages);
    var cursor, now := ps[|ps| - 1].next, tables(|ps|);
    if Lists(now, statuses, cursor.value) {
      if HasId(Delivered(ps), id) {
        DeliveredIsAhead(tables, created, statuses, limit, 0, None, pages, id);
        PageIsOrdered(now, created, statuses, limit, cursor);
        PageIsBehind(Listed(now, statuses, limit, cursor), now, created, statuses, limit, cursor, id);
      }
    } else {
      UnlistedStart(now, created, statuses, cursor.value);
      ListedIsPageAt(now, statuses, limit, cursor);
      ListedIsPageAt(now, statuses, limit, None);
      NoCursor(Queue(now, statuses));
    }
  }

  lemma NoCursor(rows: seq<Row>)
    ensures Start(rows, None) == 0
  {
  }

  lemma PageIsBehind(page: Page, table: seq<Row>, created: Id -> int, statuses: set<State>, limit: nat, cursor: Option<Id>, id: Id)
    requires IsPage(page, table, created, statuses, limit, cursor)
    ensures HasId(page.rows, id) ==> Behind(created, cursor, id)
  {
    hide NewerId, NewestFirst, Timed;
  }

  /** No row delivered so far is behind the next cursor. */
  lemma {:induction false} DeliveredIsAhead(tables: nat -> seq<Row>, created: Id -> int, statuses: set<State>, limit: nat,
                                            k: nat, cursor: Option<Id>, pages: nat, id: Id)
    requires 1 <= limit && TablesOk(tables, created)
    requires var ps := Walk(tables, statuses, limit, k, cursor, pages);
             ps != [] && ps[|ps| - 1].next.Some? && AllHeld(tables, statuses, k, cursor, ps) && HasId(Delivered(ps), id)
    ensures var ps := Walk(tables, statuses, limit, k, cursor, pages);
            !NewerId(created, ps[|ps| - 1].next.value, id)
    decreases pages
  {
    hide NewestFirst, Timed, AllHeld, Walk, TableOk, Delivered, HasId, NewerId, Listed, Held;
    var ps := Walk(tables, statuses, limit, k, cursor, pages);
    if pages == 0 {
      NoPages(tables, statuses, limit, k, cursor);
    } else {
      WalkUnfolds(tables, statuses, limit, k, cursor, pages);
      RestIsHeld(tables, statuses, k, cursor, ps);
      PageIsOrdered(tables(k), created, statuses, limit, cursor);
      HasIdConcat(ps[0].rows, Delivered(ps[1..]), id);
      var next := ps[|ps| - 1].next.value;
      if HasId(ps[0].rows, id) {
        AheadOnPage(ps[0], tables(k), created, statuses, limit, cursor, id);
      }
      if |ps| > 1 {
        assert ps[1..][|ps| - 2] == ps[|ps| - 1];
        if HasId(ps[0].rows, id) {
          LastIsBehind(tables, created, statuses, limit, k + 1, ps[0].next, pages - 1);
          NewerIdIsStrictOrder(created, ps[0].next.value, next, id);
        } else {
          DeliveredIsAhead(tables, created, statuses, limit, k + 1, ps[0].next, pages - 1, id);
        }
      } else {
        NothingMore();
        assert !HasId([], id) by { NoIds(id); }
      }
    }
  }

  lemma NoIds(id: Id)
    ensures !HasId([], id)
  {
  }

  lemma AheadOnPage(page: Page, table: seq<Row>, created: Id -> int, statuses: set<State>, limit: nat, cursor: Option<Id>, id: Id)
    requires IsPage(page, table, created, statuses, limit, cursor) && HasId(page.rows, id) && page.next.Some?
    ensures !NewerId(created, page.next.value, id)
  {
    hide NewerId, NewestFirst, Timed;
    var r :| r in page.rows && r.id == id;
    var i :| 0 <= i < |page.rows| && page.rows[i] == r;
    var last := |page.rows| - 1;
    if i < last { OrderedRowsByIndex(page.rows, created, i, last); }
    NewerIdIsStrictOrder(created, id, page.next.value, id);
  }

  /** The last cursor of a walk is behind the first. */
  lemma LastIsBehind(tables: nat -> seq<Row>, created: Id -> int, statuses: set<State>, limit: nat, k: nat, cursor: Option<Id>,
                     pages: nat)
    requires 1 <= limit && TablesOk(tables, created) && cursor.Some?
    requires var ps := Walk(tables, statuses, limit, k, cursor, pages);
             ps != [] && ps[|ps| - 1].next.Some? && AllHeld(tables, statuses, k, cursor, ps)
    ensures var ps := Walk(tables, statuses, limit, k, cursor, pages);
            NewerId(created, cursor.value, ps[|ps| - 1].next.value)
    decreases pages
  {
    hide NewestFirst, Timed, AllHeld, Walk, TableOk, Delivered, NewerId, Listed, Held;
    var ps := Walk(tables, statuses, limit, k, cursor, pages);
    if pages == 0 {
      NoPages(tables, statuses, limit, k, cursor);
    } else {
      WalkUnfolds(tables, statuses, limit, k, cursor, pages);
      RestIsHeld(tables, statuses, k, cursor, ps);
      PageIsOrdered(tables(k), created, statuses, limit, cursor);
      if ps[0].next.Some? {
        assert ps[0].rows[|ps[0].rows| - 1] in ps[0].rows;
        if |ps| > 1 {
          assert ps[1..][|ps| - 2] == ps[|ps| - 1];
          LastIsBehind(tables, created, statuses, limit, k + 1, ps[0].next, pages - 1);
          NewerIdIsStrictOrder(created, cursor.value, ps[0].next.value, ps[|ps| - 1].next.value);
        }
      }
    }
  }

  /** Deciding the row at the end of the first page, so that it leaves the filter, makes the second page repeat all
      the rest of the first, in front of the one row that moved up. */
  lemma DecidedCursorRepeats(table: seq<Row>, later: seq<Row>, created: Id -> int, statuses: set<State>, limit: nat)
    requires 1 <= limit && TableOk(table, created) && TableOk(later, created)
    requires Listed(table, statuses, limit, None).next.Some?
    requires var cursor := Listed(table, statuses, limit, None).next.value;
             && !Lists(later, statuses, cursor)
             && forall r :: r in later && Shown(r, statuses) <==> r in table && Shown(r, statuses) && r.id != cursor
    ensures var first := Listed(table, statuses, limit, None);
            Listed(later, statuses, limit, first.next).rows
              == first.rows[..limit - 1] + [Queue(table, statuses)[limit]]
  {
    hide Newer, NewestFirst, Queue, Shown, Position, NewerId, Lists, Timed, Start, DistinctIds, Listed, TableOk;
    var rows := Queue(table, statuses);
    ListedIsPageAt(table, statuses, limit, None);
    NoCursor(rows);
    assert limit < |rows|;
    var cursor := rows[limit - 1].id;
    var rest := rows[..limit - 1] + rows[limit..];
    QueueFacts(table, created, statuses);
    QueueFacts(later, created, statuses);
    QueueIsOrdered(table, created, statuses);
    QueueIsOrdered(later, created, statuses);
    WithoutOne(rows, created, limit - 1);
    OrderIsUnique(Queue(later, statuses), rest);
    ListedIsPageAt(later, statuses, limit, Some(cursor));
    UnlistedStart(later, created, statuses, cursor);
    FirstPageOf(rows, limit);
  }

  lemma FirstPageOf(rows: seq<Row>, limit: nat)
    requires 1 <= limit < |rows|
    ensures PageAt(rows, 0, limit).rows == rows[..limit]
    ensures PageAt(rows[..limit - 1] + rows[limit..], 0, limit).rows == rows[..limit - 1] + [rows[limit]]
  {
    var rest := rows[..limit - 1] + rows[limit..];
    assert rest[..limit] == rows[..limit - 1] + [rows[limit]];
  }

  lemma WithoutOne(rows: seq<Row>, created: Id -> int, k: nat)
    requires k < |rows| && NewestFirst(rows) && Timed(rows, created) && DistinctIds(rows)
    ensures var rest := rows[..k] + rows[k + 1..];
            && NewestFirst(rest) && Timed(rest, created) && DistinctIds(rest)
            && forall r :: r in rest <==> r in rows && r.id != rows[k].id
  {
    hide Newer;
    var rest := rows[..k] + rows[k + 1..];
    assert forall i :: 0 <= i < |rest| ==> rest[i] == rows[if i < k then i else i + 1];
    forall r ensures r in rest <==> r in rows && r.id != rows[k].id {
      if r in rows && r.id != rows[k].id {
        var i :| 0 <= i < |rows| && rows[i] == r;
        assert rest[if i < k then i else i - 1] == r;
      }
    }
  }
}
