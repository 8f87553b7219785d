/** The append-only audit log, its keyset paging and its export
    (backend/internal/store/audit.go, backend/internal/httpapi/audit.go). */
module Audit {
  import opened Text
  import opened Wrappers
  import opened Timestamps

  /** A row of `audit_events`, as far as paging and filtering read it. */
  datatype Row = Row(id: string, occurredAt: string, username: string, action: string, target: string,
                     sourceIp: string, outcome: string, details: string, serverId: Option<string>, attempt: nat)

  /** What a caller records. */
  datatype Event = Event(id: string, occurredAt: Option<Civil>, username: string, action: string, target: string,
                         sourceIp: string, outcome: string, details: string, serverId: string, attempt: int)

  datatype Cursor = Cursor(occurredAt: Civil, id: string)

  datatype Filter = Filter(serverId: string, outcome: string, search: string)

  datatype Page = Page(events: seq<Row>, next: Option<Cursor>)

  const MAX_PAGE_SIZE: nat := 500

  // ---- order ----

  /** `a` is listed before `b`: later time first, then larger identifier. */
  predicate Before(a: Row, b: Row) {
    Less(b.occurredAt, a.occurredAt) || (a.occurredAt == b.occurredAt && Less(b.id, a.id))
  }

  lemma BeforeTransitive(a: Row, b: Row, c: Row)
    requires Before(a, b) && Before(b, c)
    ensures Before(a, c)
  {
    if Less(b.occurredAt, a.occurredAt) && Less(c.occurredAt, b.occurredAt) {
      LessTransitive(c.occurredAt, b.occurredAt, a.occurredAt);
    }
    if Less(b.id, a.id) && Less(c.id, b.id) {
      LessTransitive(c.id, b.id, a.id);
    }
  }

  lemma BeforeAsymmetric(a: Row, b: Row)
    requires Before(a, b)
    ensures !Before(b, a) && a != b
  {
    if Less(b.occurredAt, a.occurredAt) {
      LessAsymmetric(b.occurredAt, a.occurredAt);
    } else {
      LessAsymmetric(b.id, a.id);
      LessIrreflexive(a.occurredAt);
    }
  }

  lemma BeforeTotal(a: Row, b: Row)
    requires a.id != b.id
    ensures Before(a, b) || Before(b, a)
  {
    LessTotal(a.occurredAt, b.occurredAt);
    LessTotal(a.id, b.id);
  }

  /** Strictly in listing order, hence without repetition. */
  ghost predicate Descending(rows: seq<Row>) {
    forall i, j | 0 <= i < j < |rows| :: Before(rows[i], rows[j])
  }

  lemma {:induction false} DescendingIsUnique(a: seq<Row>, b: seq<Row>)
    requires Descending(a) && Descending(b) && forall r :: r in a <==> r in b
    ensures a == b
    decreases |a|
  {
    assert a != [] ==> a[0] in a;
    assert b != [] ==> b[0] in b;
    if a != [] {
      HeadsAgree(a, b);
      TailOfDescending(a);
      TailOfDescending(b);
      DescendingIsUnique(a[1..], b[1..]);
      assert a == [a[0]] + a[1..] && b == [b[0]] + b[1..];
    }
  }

  lemma HeadsAgree(a: seq<Row>, b: seq<Row>)
    requires Descending(a) && Descending(b) && a != [] && b != [] && a[0] in b && b[0] in a
    ensures a[0] == b[0]
  {
    var i :| 0 <= i < |a| && a[i] == b[0];
    var j :| 0 <= j < |b| && b[j] == a[0];
    if i > 0 && j > 0 {
      BeforeAsymmetric(a[0], a[i]);
    }
  }

  lemma TailOfDescending(rows: seq<Row>)
    requires Descending(rows) && rows != []
    ensures Descending(rows[1..])
    ensures forall r :: r in rows[1..] <==> r in rows && r != rows[0]
  {
    forall r | r in rows[1..]
      ensures r != rows[0]
    {
      var j :| 0 <= j < |rows[1..]| && rows[1..][j] == r;
      BeforeAsymmetric(rows[0], rows[j + 1]);
    }
    assert rows == [rows[0]] + rows[1..];
  }

  // ---- the query ----

  /** SQLite's `lower`: ASCII letters only. */
  function Lower(s: string): string {
    seq(|s|, i requires 0 <= i < |s| => LowerChar(s[i]))
  }

  predicate Mentions(row: Row, search: string) {
    var wanted := Lower(search);
    || Contains(Lower(row.username), wanted) || Contains(Lower(row.action), wanted)
    || Contains(Lower(row.target), wanted) || Contains(Lower(row.sourceIp), wanted)
    || Contains(Lower(if row.details == "null" then "{}" else row.details), wanted)
  }

  predicate Matches(f: Filter, row: Row) {
    && (f.serverId != "" ==> row.serverId == Some(f.serverId))
    && (f.outcome != "" ==> row.outcome == f.outcome)
    && (f.search != "" ==> Mentions(row, f.search))
  }

  /** The keyset condition: strictly past the cursor in listing order. */
  predicate Past(before: Option<Cursor>, row: Row) {
    before.None? ||
    var occurred := FormatAuditTime(before.value.occurredAt);
    Less(row.occurredAt, occurred) || (row.occurredAt == occurred && Less(row.id, before.value.id))
  }

  function Insert(row: Row, sorted: seq<Row>): (r: seq<Row>)
    ensures forall x :: x in r <==> x == row || x in sorted
  {
    if sorted == [] || Before(row, sorted[0]) then [row] + sorted
    else [sorted[0]] + Insert(row, sorted[1..])
  }

  /** The rows a query selects, in `ORDER BY occurred_at DESC, id DESC`. */
  function Selected(rows: seq<Row>, f: Filter, before: Option<Cursor>): (selected: seq<Row>)
    ensures forall r :: r in selected <==> r in rows && Matches(f, r) && Past(before, r)
  {
    if rows == [] then []
    else
      var rest := Selected(rows[1..], f, before);
      if Matches(f, rows[0]) && Past(before, rows[0]) then Insert(rows[0], rest) else rest
  }

  lemma {:induction false} InsertDescending(row: Row, sorted: seq<Row>)
    requires Descending(sorted) && forall x | x in sorted :: x.id != row.id
    ensures Descending(Insert(row, sorted))
    decreases |sorted|
  {
    if sorted == [] {
    } else if Before(row, sorted[0]) {
      forall j | 0 <= j < |sorted|
        ensures Before(row, sorted[j])
      {
        if j > 0 { BeforeTransitive(row, sorted[0], sorted[j]); }
      }
    } else {
      assert sorted[0] in sorted;
      BeforeTotal(row, sorted[0]);
      InsertDescending(row, sorted[1..]);
      var rest := Insert(row, sorted[1..]);
      forall j | 0 <= j < |rest|
        ensures Before(sorted[0], rest[j])
      {
        assert rest[j] in rest;
        if rest[j] != row {
          var k :| 0 <= k < |sorted[1..]| && sorted[1..][k] == rest[j];
          assert rest[j] == sorted[k + 1];
        }
      }
    }
  }

  /** The table's invariant: identifiers are unique and times are written in full width. */
  ghost predicate ValidRows(rows: seq<Row>) {
    && (forall i, j | 0 <= i < j < |rows| :: rows[i].id != rows[j].id)
    && (forall i | 0 <= i < |rows| :: Canonical(rows[i].occurredAt))
  }

  /** A time string that `formatAuditTime` writes. */
  predicate Canonical(s: string) {
    ParseTime(s).Some? && FormatAuditTime(ParseTime(s).value) == s
  }

  lemma {:induction false} SelectedDescending(rows: seq<Row>, f: Filter, before: Option<Cursor>)
    requires ValidRows(rows)
    ensures Descending(Selected(rows, f, before))
    decreases |rows|
  {
    hide Canonical, Before, Descending;
    assert Descending([]) by { EmptyDescends(); }
    if rows != [] {
      assert ValidRows(rows[1..]);
      SelectedDescending(rows[1..], f, before);
      var rest := Selected(rows[1..], f, before);
      forall x | x in rest
        ensures x.id != rows[0].id
      {
        var k :| 0 <= k < |rows[1..]| && rows[1..][k] == x;
        assert x == rows[k + 1];
      }
      if Matches(f, rows[0]) && Past(before, rows[0]) {
        InsertDescending(rows[0], rest);
      }
    }
  }

  /** `parseTime` of a stored time; unreadable text reads as the zero time. */
  function ReadTime(s: string): Civil {
    match ParseTime(s)
    case Some(c) => c
    case None => Civil(1, 1, 1, 0, 0, 0, 0)
  }

  function CursorOf(row: Row): Cursor {
    Cursor(ReadTime(row.occurredAt), row.id)
  }

  /** What `ListAudit` returns: one row more than the page is fetched to learn whether there
      is a next page. */
  function List(rows: seq<Row>, f: Filter, before: Option<Cursor>, limit: nat): Page
    requires limit >= 1
  {
    CutPage(Selected(rows, f, before), limit)
  }

  function CutPage(fetched: seq<Row>, limit: nat): Page
    requires limit >= 1
  {
    if |fetched| > limit then Page(fetched[..limit], Some(CursorOf(fetched[limit - 1])))
    else Page(fetched, None)
  }

  // ---- the store ----

  /** The row written for an event: blanks are filled in, nothing else changes. */
  function RowOf(event: Event, freshId: string, now: Civil): (row: Row)
    requires now.Valid() && (event.occurredAt.Some? ==> event.occurredAt.value.Valid())
    ensures Canonical(row.occurredAt)
    ensures ParseTime(row.occurredAt) == Some(if event.occurredAt.Some? then event.occurredAt.value else now)
    ensures row.id == if event.id == "" then freshId else event.id
    ensures row.attempt == if event.attempt < 1 then 1 else event.attempt
    ensures row.serverId == if event.serverId == "" then None else Some(event.serverId)
    ensures row.username == event.username && row.action == event.action && row.target == event.target
    ensures row.sourceIp == event.sourceIp && row.outcome == event.outcome && row.details == event.details
  {
    var occurred := if event.occurredAt.None? then now else event.occurredAt.value;
    ParseUndoesFormat(occurred);
    Row(if event.id == "" then freshId else event.id,
        FormatAuditTime(occurred), event.username, event.action, event.target, event.sourceIp,
        event.outcome, event.details, if event.serverId == "" then None else Some(event.serverId),
        if event.attempt < 1 then 1 else event.attempt)
  }

  class AuditStore {
    var rows: seq<Row>

    ghost predicate Valid()
      reads this
    {
      ValidRows(rows)
    }

    constructor ()
      ensures Valid() && rows == []
    {
      rows := [];
    }

    /** The primary-key check of the insert. */
    method Taken(id: string) returns (taken: bool)
      ensures taken <==> exists r :: r in rows && r.id == id
    {
      for i := 0 to |rows|
        invariant forall k | 0 <= k < i :: rows[k].id != id
      {
        if rows[i].id == id {
          assert rows[i] in rows;
          return true;
        }
      }
      return false;
    }

    /** `WriteAudit` only ever appends, in full-width time; a taken identifier is refused. */
    method WriteAudit(event: Event, freshId: string, now: Civil) returns (ok: bool)
      requires Valid() && now.Valid() && (event.occurredAt.Some? ==> event.occurredAt.value.Valid())
      modifies this
      ensures Valid()
      ensures ok <==> forall r | r in old(rows) :: r.id != RowOf(event, freshId, now).id
      ensures rows == if ok then old(rows) + [RowOf(event, freshId, now)] else old(rows)
    {
      hide RowOf, ValidRows, Canonical;
      var row := RowOf(event, freshId, now);
      var taken := Taken(row.id);
      if taken {
        return false;
      }
      AppendKeepsValid(rows, row);
      rows := rows + [row];
      return true;
    }

    /** `ListAudit`: scan at most `limit + 1` selected rows and cut the page. */
    method ListAudit(f: Filter, before: Option<Cursor>, limit: nat) returns (page: Page)
      requires limit >= 1
      ensures page == List(rows, f, before, limit)
      ensures Valid() ==> ShowsExactly(page, rows, f, before, limit)
    {
      hide ShowsExactly, ValidRows, Selected, CursorOf;
      var selected := Selected(rows, f, before);
      var events := [];
      while |events| < |selected| && |events| < limit + 1
        invariant |events| <= |selected| && |events| <= limit + 1 && events == selected[..|events|]
        decreases |selected| - |events|
      {
        events := events + [selected[|events|]];
      }
      page := Page(events, None);
      if |events| > limit {
        page := Page(events[..limit], Some(CursorOf(events[limit - 1])));
        assert events[..limit] == selected[..limit];
      } else {
        assert selected[..|events|] == selected;
      }
      assert page == List(rows, f, before, limit);
      hide List;
      if Valid() {
        ListShowsExactly(rows, f, before, limit);
      }
    }

    /** `auditExport`: page after page until the log or the row cap is exhausted. A page that
        cannot be read ends the export early. `growth` is what others append before each page. */
    method Export(f: Filter, maxRows: nat, growth: nat -> seq<Row>, fails: nat -> bool)
      returns (written: seq<Row>, complete: bool)
      requires Valid() && Grows(rows, growth) && maxRows >= 1
      modifies this
      ensures Valid()
      ensures (written, complete) == Exported(old(rows), growth, fails, 0, f, None, maxRows)
    {
      hide List, ExportLimit, ValidRows, ShowsExactly;
      PrependNothing(Exported(rows, growth, fails, 0, f, None, maxRows));
      written, complete := [], false;
      if fails(0) {
        return;
      }
      ghost var start := rows;
      var limit := ExportLimit(maxRows);
      rows := rows + growth(0);
      var page := ListAudit(f, None, limit);
      ghost var before: Option<Cursor> := None;
      var calls := 0;
      while true
        invariant |written| < maxRows && limit == ExportLimit(maxRows - |written|) && !fails(calls)
        invariant rows == LogAt(start, growth, calls) && page == List(rows, f, before, limit)
        invariant Exported(start, growth, fails, 0, f, None, maxRows) ==
                  Prepend(written, Exported(start, growth, fails, calls, f, before, maxRows - |written|))
        decreases maxRows - |written|
      {
        PageSize(rows, f, before, limit);
        ghost var already, events := written, page.events;
        written := written + page.events;
        complete := page.next.None? || |written| >= maxRows;
        calls := calls + 1;
        if complete {
          assert Exported(start, growth, fails, 0, f, None, maxRows) == Prepend(already, (events, true));
          break;
        }
        if fails(calls) {
          assert Exported(start, growth, fails, calls, f, page.next, maxRows - |written|) == ([], false);
          PrependTwice(already, events, ([], false));
          assert written + [] == written;
          break;
        }
        limit := ExportLimit(maxRows - |written|);
        before := page.next;
        rows := rows + growth(calls);
        page := ListAudit(f, page.next, limit);
        PrependTwice(already, events, Exported(start, growth, fails, calls, f, before, maxRows - |written|));
      }
    }
  }

  /** The log when page `k` of an export is read. */
  function LogAt(rows: seq<Row>, growth: nat -> seq<Row>, k: nat): seq<Row> {
    (if k == 0 then rows else LogAt(rows, growth, k - 1)) + growth(k)
  }

  /** Whatever is appended keeps the table's invariant. */
  ghost predicate Grows(rows: seq<Row>, growth: nat -> seq<Row>) {
    forall k :: ValidRows(LogAt(rows, growth, k))
  }

  function Prepend(rows: seq<Row>, more: (seq<Row>, bool)): (seq<Row>, bool) {
    (rows + more.0, more.1)
  }

  lemma PrependNothing(more: (seq<Row>, bool))
    ensures Prepend([], more) == more
  {
    assert [] + more.0 == more.0;
  }

  lemma PrependTwice(a: seq<Row>, b: seq<Row>, more: (seq<Row>, bool))
    ensures Prepend(a, Prepend(b, more)) == Prepend(a + b, more)
  {
    assert a + (b + more.0) == a + b + more.0;
  }

  lemma PageSize(rows: seq<Row>, f: Filter, before: Option<Cursor>, limit: nat)
    requires limit >= 1
    ensures |List(rows, f, before, limit).events| <= limit
    ensures List(rows, f, before, limit).next.Some? ==> |List(rows, f, before, limit).events| == limit
  {
    hide Selected, CursorOf;
  }

  /** What an export writes from page `k` on when it may still write `remaining` rows, and
      whether it reaches the end of the log or the cap. */
  function Exported(rows: seq<Row>, growth: nat -> seq<Row>, fails: nat -> bool, k: nat, f: Filter,
                    before: Option<Cursor>, remaining: nat): (seq<Row>, bool)
    requires remaining >= 1
    decreases remaining
  {
    if fails(k) then ([], false)
    else
      var limit := ExportLimit(remaining);
      var page := List(LogAt(rows, growth, k), f, before, limit);
      PageSize(LogAt(rows, growth, k), f, before, limit);
      if page.next.None? || |page.events| >= remaining then (page.events, true)
      else Prepend(page.events, Exported(rows, growth, fails, k + 1, f, page.next, remaining - |page.events|))
  }

  /** The page size of the next export request: at least one, and never past the cap. */
  function ExportLimit(remaining: nat): (limit: nat)
    requires remaining >= 1
    ensures 1 <= limit <= remaining && limit <= 500
  {
    if MAX_PAGE_SIZE <= remaining then MAX_PAGE_SIZE else remaining
  }

  lemma AppendKeepsValid(rows: seq<Row>, row: Row)
    requires ValidRows(rows) && Canonical(row.occurredAt)
    requires forall r | r in rows :: r.id != row.id
    ensures ValidRows(rows + [row])
  {
    hide Canonical;
  }

  function First(n: nat, rows: seq<Row>): seq<Row> {
    if |rows| <= n then rows else rows[..n]
  }

  // ---- what a page shows, field by field ----

  /** Somewhere in the text stands what is searched for, ignoring ASCII case. */
  ghost predicate Says(text: string, search: string) {
    exists at :: 0 <= at <= |text| - |search| && SaysAt(text, search, at)
  }

  predicate SaysAt(text: string, search: string, at: nat)
    requires at + |search| <= |text|
  {
    forall k | 0 <= k < |search| :: SameLetter(text[at + k], search[k])
  }

  /** The row is of the server, has the outcome and says in one of five columns what is searched
      for, as far as each is asked for. */
  ghost predicate Wanted(f: Filter, r: Row) {
    && (f.serverId == "" || r.serverId == Some(f.serverId))
    && (f.outcome == "" || r.outcome == f.outcome)
    && (f.search == "" || Says(r.username, f.search) || Says(r.action, f.search) || Says(r.target, f.search) ||
        Says(r.sourceIp, f.search) || Says(if r.details == "null" then "{}" else r.details, f.search))
  }

  /** At an earlier time, or at that time with a smaller identifier. */
  predicate OlderThan(r: Row, occurredAt: string, id: string) {
    Less(r.occurredAt, occurredAt) || (r.occurredAt == occurredAt && Less(r.id, id))
  }

  /** A row that the request asks for. */
  ghost predicate Asked(r: Row, rows: seq<Row>, f: Filter, before: Option<Cursor>) {
    && r in rows && Wanted(f, r)
    && (before.None? || OlderThan(r, FormatAuditTime(before.value.occurredAt), before.value.id))
  }

  /** The page shows the newest rows that are asked for, newest first and as many as fit; its cursor
      is the last one's time and identifier, if there are more. */
  ghost predicate ShowsExactly(page: Page, rows: seq<Row>, f: Filter, before: Option<Cursor>, limit: nat) {
    && |page.events| <= limit
    && (forall r | r in page.events :: Asked(r, rows, f, before))
    && (forall i, j | 0 <= i < j < |page.events| ::
          OlderThan(page.events[j], page.events[i].occurredAt, page.events[i].id))
    && (page.next.None? ==> forall r | Asked(r, rows, f, before) :: r in page.events)
    && (page.next.Some? ==>
          && |page.events| == limit > 0
          && var last := page.events[limit - 1];
             && page.next.value.id == last.id && ParseTime(last.occurredAt) == Some(page.next.value.occurredAt)
             && forall r | Asked(r, rows, f, before) :: r in page.events || OlderThan(r, last.occurredAt, last.id))
  }

  lemma {:induction false} ContainsSomewhere(text: string, part: string)
    ensures Contains(text, part) <==> exists at :: 0 <= at <= |text| - |part| && part <= text[at..]
    decreases |text|
  {
    if part <= text {
      assert text[0..] == text;
    } else if text == [] {
    } else {
      ContainsSomewhere(text[1..], part);
      if at :| 0 <= at <= |text| - |part| && part <= text[at..] {
        assert at > 0 by { assert text[0..] == text; }
        assert text[at..] == text[1..][at - 1..];
      }
      if at :| 0 <= at <= |text[1..]| - |part| && part <= text[1..][at..] {
        assert text[1..][at..] == text[at + 1..];
      }
    }
  }

  /** The five `instr(lower(..), lower(?)) > 0` are searches that ignore case. */
  lemma LowerContains(text: string, search: string)
    ensures Contains(Lower(text), Lower(search)) <==> Says(text, search)
  {
    ContainsSomewhere(Lower(text), Lower(search));
    forall at | 0 <= at <= |text| - |search|
      ensures Lower(search) <= Lower(text)[at..] <==> SaysAt(text, search, at)
    {
      LowerPrefix(text, search, at);
    }
    hide Contains, SaysAt;
  }

  lemma LowerPrefix(text: string, search: string, at: nat)
    requires at + |search| <= |text|
    ensures Lower(search) <= Lower(text)[at..] <==> SaysAt(text, search, at)
  {
    var a, b := Lower(search), Lower(text)[at..];
    forall k | 0 <= k < |search|
      ensures a[k] == b[k] <==> SameLetter(text[at + k], search[k])
    {
      LowerAgrees(text[at + k], search[k]);
    }
    hide SameLetter, LowerChar;
    assert a <= b <==> forall k | 0 <= k < |search| :: a[k] == b[k];
  }

  lemma MatchesMeansWanted(f: Filter, r: Row)
    ensures Matches(f, r) <==> Wanted(f, r)
  {
    hide Contains, Says, Lower;
    LowerContains(r.username, f.search);
    LowerContains(r.action, f.search);
    LowerContains(r.target, f.search);
    LowerContains(r.sourceIp, f.search);
    LowerContains(if r.details == "null" then "{}" else r.details, f.search);
  }

  lemma SelectedIsAsked(rows: seq<Row>, f: Filter, before: Option<Cursor>, r: Row)
    ensures r in Selected(rows, f, before) <==> Asked(r, rows, f, before)
  {
    MatchesMeansWanted(f, r);
    hide Selected, Matches, Wanted, FormatAuditTime, Less;
  }

  lemma ListShowsExactly(rows: seq<Row>, f: Filter, before: Option<Cursor>, limit: nat)
    requires ValidRows(rows) && limit >= 1
    ensures ShowsExactly(List(rows, f, before, limit), rows, f, before, limit)
  {
    hide Asked, Selected, ValidRows, Less, FormatAuditTime, ParseTime, ShowsExactly, Descending, IsCut, CutPage;
    var all := Selected(rows, f, before);
    SelectedDescending(rows, f, before);
    forall r
      ensures r in all <==> Asked(r, rows, f, before)
    {
      SelectedIsAsked(rows, f, before, r);
    }
    forall r | r in all
      ensures Canonical(r.occurredAt)
    {
      assert r in rows by { SelectedIsStored(rows, f, before, r); }
      StoredIsCanonical(rows, r);
    }
    CutIsCut(all, limit);
    CutShowsExactly(CutPage(all, limit), all, rows, f, before, limit);
  }

  lemma SelectedIsStored(rows: seq<Row>, f: Filter, before: Option<Cursor>, r: Row)
    requires r in Selected(rows, f, before)
    ensures r in rows
  {
    hide Selected, Matches, Past;
  }

  lemma CutShowsExactly(page: Page, all: seq<Row>, rows: seq<Row>, f: Filter, before: Option<Cursor>, limit: nat)
    requires IsCut(page, all, limit) && limit >= 1 && forall r :: r in all <==> Asked(r, rows, f, before)
    ensures ShowsExactly(page, rows, f, before, limit)
  {
    hide Asked, OlderThan, ParseTime;
  }

  /** The first rows of a listing, as many as fit. */
  ghost predicate IsCut(page: Page, all: seq<Row>, limit: nat) {
    && |page.events| <= limit
    && (forall r | r in page.events :: r in all)
    && (forall i, j | 0 <= i < j < |page.events| ::
          OlderThan(page.events[j], page.events[i].occurredAt, page.events[i].id))
    && (page.next.None? ==> page.events == all)
    && (page.next.Some? ==>
          && |page.events| == limit > 0
          && var last := page.events[limit - 1];
             && page.next.value.id == last.id && ParseTime(last.occurredAt) == Some(page.next.value.occurredAt)
             && forall r | r in all :: r in page.events || OlderThan(r, last.occurredAt, last.id))
  }

  lemma CutIsCut(all: seq<Row>, limit: nat)
    requires Descending(all) && limit >= 1 && forall r | r in all :: Canonical(r.occurredAt)
    ensures IsCut(CutPage(all, limit), all, limit)
  {
    hide Less, FormatAuditTime, ParseTime;
    if |all| > limit {
      CutAt(all, limit);
      assert all[limit - 1] in all;
    }
  }

  // ---- pages continue one another ----

  /** The page of a listing that starts at position `from`. */
  ghost predicate IsPage(page: Page, all: seq<Row>, from: nat, limit: nat) {
    && limit >= 1 && from <= |all|
    && page.events == First(limit, all[from..])
    && page.next == if |all| - from > limit then Some(CursorOf(all[from + limit - 1])) else None
  }

  lemma CutIsPage(all: seq<Row>, from: nat, limit: nat)
    requires limit >= 1 && from <= |all|
    ensures IsPage(CutPage(all[from..], limit), all, from, limit)
  {
    hide CursorOf;
  }

  lemma FirstPage(rows: seq<Row>, f: Filter, limit: nat)
    requires limit >= 1
    ensures IsPage(List(rows, f, None, limit), Selected(rows, f, None), 0, limit)
  {
    hide Selected;
    assert Selected(rows, f, None)[0..] == Selected(rows, f, None);
    CutIsPage(Selected(rows, f, None), 0, limit);
  }

  lemma NextPage(rows: seq<Row>, f: Filter, from: nat, limit: nat)
    requires ValidRows(rows) && limit >= 1 && 1 <= from <= |Selected(rows, f, None)|
    ensures var all := Selected(rows, f, None);
            IsPage(List(rows, f, Some(CursorOf(all[from - 1])), limit), all, from, limit)
  {
    hide Selected, CursorOf, ValidRows, CutPage;
    SelectedPosition(rows, f, None, from - 1);
    CutIsPage(Selected(rows, f, None), from, limit);
  }

  /** The cursor of a row selects exactly the rows listed after it if and only if the row's
      time is stored in full width. */
  lemma CursorContinues(row: Row)
    requires ParseTime(row.occurredAt).Some? && row.id != ""
    ensures (forall r :: Past(Some(CursorOf(row)), r) <==> Before(row, r)) <==> Canonical(row.occurredAt)
  {
    if Canonical(row.occurredAt) {
      CanonicalContinues(row);
    } else {
      hide FormatAuditTime, ParseTime, Less;
      assert Less("", row.id) by { EmptyIsLess(row.id); }
      var full := FormatAuditTime(ReadTime(row.occurredAt));
      LessTotal(full, row.occurredAt);
      LessIrreflexive(row.occurredAt);
      LessIrreflexive(row.id);
      var tie := row.(id := "");
      assert Before(row, tie) && !Before(row, row);
      if Less(full, row.occurredAt) {
        LessAsymmetric(full, row.occurredAt);
        assert !Past(Some(CursorOf(row)), tie);
      } else {
        assert Past(Some(CursorOf(row)), row);
      }
    }
  }

  lemma EmptyIsLess(s: string)
    requires s != ""
    ensures Less("", s)
  {
  }

  lemma CanonicalContinues(row: Row)
    requires Canonical(row.occurredAt)
    ensures forall r :: Past(Some(CursorOf(row)), r) <==> Before(row, r)
  {
    hide FormatAuditTime, ParseTime, Less;
  }

  /** After the row at `i` of a listing come exactly the rows from `i + 1` on. */
  lemma SelectedPosition(rows: seq<Row>, f: Filter, before: Option<Cursor>, i: nat)
    requires ValidRows(rows) && i < |Selected(rows, f, before)|
    ensures Selected(rows, f, Some(CursorOf(Selected(rows, f, before)[i]))) == Selected(rows, f, before)[i + 1..]
  {
    hide Past, Matches, FormatAuditTime, ParseTime, Less, Insert, CursorOf;
    var all := Selected(rows, f, before);
    var row := all[i];
    assert row in all;
    var cursor := Some(CursorOf(row));
    StoredIsCanonical(rows, row);
    SelectedDescending(rows, f, before);
    SelectedDescending(rows, f, cursor);
    CanonicalContinues(row);
    forall r | Before(row, r)
      ensures Past(before, r)
    {
      PastLater(before, row, r);
    }
    hide Selected, ValidRows;
    AfterPosition(all, i);
    DescendingIsUnique(Selected(rows, f, cursor), all[i + 1..]);
  }

  lemma StoredIsCanonical(rows: seq<Row>, row: Row)
    requires ValidRows(rows) && row in rows
    ensures Canonical(row.occurredAt)
  {
  }

  lemma AfterPosition(all: seq<Row>, i: nat)
    requires Descending(all) && i < |all|
    ensures Descending(all[i + 1..])
    ensures forall r :: r in all[i + 1..] <==> r in all && Before(all[i], r)
  {
    forall r | r in all && Before(all[i], r)
      ensures r in all[i + 1..]
    {
      var j :| 0 <= j < |all| && all[j] == r;
      if j < i {
        BeforeAsymmetric(all[j], all[i]);
      } else if j == i {
        BeforeAsymmetric(all[i], r);
      } else {
        assert all[i + 1..][j - (i + 1)] == r;
      }
    }
    forall r | r in all[i + 1..]
      ensures r in all && Before(all[i], r)
    {
      var j :| 0 <= j < |all[i + 1..]| && all[i + 1..][j] == r;
      assert r == all[i + 1 + j];
    }
  }

  // ---- following the cursors ----

  /** One request of a reader: the log as it is then, and the page size asked for. */
  datatype Visit = Visit(log: seq<Row>, limit: nat)

  /** What the reader collects by following `next`, and whether it reached the end. */
  function Follow(visits: seq<Visit>, f: Filter, before: Option<Cursor>): (seq<Row>, bool)
    requires forall v | v in visits :: v.limit >= 1
    decreases |visits|
  {
    if visits == [] then ([], false)
    else
      var page := List(visits[0].log, f, before, visits[0].limit);
      if page.next.None? then (page.events, true)
      else
        var rest := Follow(visits[1..], f, page.next);
        (page.events + rest.0, rest.1)
  }

  /** The log only grows between visits. */
  ghost predicate Growing(visits: seq<Visit>) {
    && (forall v | v in visits :: v.limit >= 1 && ValidRows(v.log))
    && (forall i, j | 0 <= i <= j < |visits| :: visits[i].log <= visits[j].log)
  }

  /** A starting point: the beginning, or the cursor of a matching row of the first log. */
  ghost predicate Reached(visits: seq<Visit>, f: Filter, before: Option<Cursor>) {
    visits != [] && before.Some? ==>
      exists r :: r in visits[0].log && Matches(f, r) && before == Some(CursorOf(r))
  }

  lemma PageRows(log: seq<Row>, f: Filter, before: Option<Cursor>, limit: nat)
    requires ValidRows(log) && limit >= 1
    ensures var page := List(log, f, before, limit);
            && Descending(page.events)
            && forall r | r in page.events :: r in log && Matches(f, r) && Past(before, r)
  {
    SelectedDescending(log, f, before);
    hide Past, Matches, CursorOf, ValidRows;
    var all := Selected(log, f, before);
    var page := List(log, f, before, limit);
    hide Selected;
    assert page.events <= all;
  }

  /** A cursor names a matching row of the log; what is past it comes after the whole page,
      and no selected row is lost between the page and the cursor. */
  lemma PageCursor(log: seq<Row>, f: Filter, before: Option<Cursor>, limit: nat)
    requires ValidRows(log) && limit >= 1
    ensures var page := List(log, f, before, limit);
            page.next.Some? ==> exists last :: last in log && Matches(f, last) && page.next == Some(CursorOf(last))
    ensures var page := List(log, f, before, limit);
            page.next.Some? ==> forall e, r :: e in page.events && Past(page.next, r) ==> Before(e, r)
    ensures var page := List(log, f, before, limit);
            page.next.Some? ==> forall r :: Past(page.next, r) ==> Past(before, r)
    ensures var page := List(log, f, before, limit);
            forall r | r in log && Matches(f, r) && Past(before, r) ::
              r in page.events || (page.next.Some? && Past(page.next, r))
  {
    SelectedDescending(log, f, before);
    var all := Selected(log, f, before);
    if |all| > limit {
      var last := all[limit - 1];
      assert last in log;
      assert Canonical(last.occurredAt);
      CanonicalContinues(last);
      assert last in all && Past(before, last);
      hide Past, Matches, CursorOf, ValidRows, Canonical, Selected;
      CutAt(all, limit);
      forall r | Before(last, r)
        ensures Past(before, r)
      {
        PastLater(before, last, r);
      }
    }
  }

  lemma PastLater(before: Option<Cursor>, row: Row, later: Row)
    requires Past(before, row) && Before(row, later)
    ensures Past(before, later)
  {
    hide FormatAuditTime, Less;
    if before.Some? {
      var occurred := FormatAuditTime(before.value.occurredAt);
      if Less(row.occurredAt, occurred) && Less(later.occurredAt, row.occurredAt) {
        LessTransitive(later.occurredAt, row.occurredAt, occurred);
      }
      if Less(row.id, before.value.id) && Less(later.id, row.id) {
        LessTransitive(later.id, row.id, before.value.id);
      }
    }
  }

  lemma CutAt(all: seq<Row>, limit: nat)
    requires Descending(all) && 1 <= limit < |all|
    ensures forall e, r :: e in all[..limit] && Before(all[limit - 1], r) ==> Before(e, r)
    ensures forall r | r in all :: r in all[..limit] || Before(all[limit - 1], r)
  {
    forall e, r | e in all[..limit] && Before(all[limit - 1], r)
      ensures Before(e, r)
    {
      var i :| 0 <= i < limit && all[i] == e;
      if i < limit - 1 {
        BeforeTransitive(e, all[limit - 1], r);
      }
    }
    forall r | r in all
      ensures r in all[..limit] || Before(all[limit - 1], r)
    {
      var i :| 0 <= i < |all| && all[i] == r;
      if i < limit {
        assert all[..limit][i] == r;
      }
    }
  }

  lemma ConcatDescending(a: seq<Row>, b: seq<Row>)
    requires Descending(a) && Descending(b) && forall x, y | x in a && y in b :: Before(x, y)
    ensures Descending(a + b)
  {
  }

  /** Following the cursors to the end, while anything is appended in between, yields every
      matching row present at the start, each once, in strictly descending order, and nothing
      that was never in the log or does not match. */
  lemma {:induction false} TraversalIsComplete(visits: seq<Visit>, f: Filter, before: Option<Cursor>)
    requires Growing(visits) && Reached(visits, f, before)
    ensures Descending(Follow(visits, f, before).0)
    ensures forall r | r in Follow(visits, f, before).0 ::
              Past(before, r) && Matches(f, r) && r in visits[|visits| - 1].log
    ensures Follow(visits, f, before).1 ==>
              forall r | r in visits[0].log && Matches(f, r) && Past(before, r) :: r in Follow(visits, f, before).0
    decreases |visits|
  {
    if visits != [] {
      var log, page := visits[0].log, List(visits[0].log, f, before, visits[0].limit);
      assert visits[0] in visits && visits[0].log <= visits[|visits| - 1].log;
      hide Past, Matches, CursorOf, ValidRows, List, Descending, Before;
      PageRows(log, f, before, visits[0].limit);
      PageCursor(log, f, before, visits[0].limit);
      if page.next.Some? {
        var rest := visits[1..];
        GrowingRest(visits);
        TraversalIsComplete(rest, f, page.next);
        var more := Follow(rest, f, page.next);
        hide Follow;
        TraversalStep(log, visits[|visits| - 1].log, f, before, visits[0].limit, more.0, more.1);
      }
    }
  }

  // One page in front of a traversal from its cursor.
  lemma TraversalStep(log: seq<Row>, last: seq<Row>, f: Filter, before: Option<Cursor>, limit: nat,
                      rest: seq<Row>, done: bool)
    requires ValidRows(log) && limit >= 1 && log <= last && List(log, f, before, limit).next.Some?
    requires Descending(rest)
    requires forall r | r in rest :: Past(List(log, f, before, limit).next, r) && Matches(f, r) && r in last
    requires done ==> forall r | r in log && Matches(f, r) && Past(List(log, f, before, limit).next, r) :: r in rest
    ensures Descending(List(log, f, before, limit).events + rest)
    ensures forall r | r in List(log, f, before, limit).events + rest :: Past(before, r) && Matches(f, r) && r in last
    ensures done ==> forall r | r in log && Matches(f, r) && Past(before, r) ::
              r in List(log, f, before, limit).events + rest
  {
    hide Past, Matches, CursorOf, ValidRows, List, Descending, Before;
    PageRows(log, f, before, limit);
    PageCursor(log, f, before, limit);
    ConcatDescending(List(log, f, before, limit).events, rest);
  }

  lemma GrowingRest(visits: seq<Visit>)
    requires Growing(visits) && visits != []
    ensures Growing(visits[1..])
    ensures |visits| > 1 ==> visits[1..][0].log == visits[1].log && visits[0].log <= visits[1].log
    ensures |visits| > 1 ==> visits[1..][|visits[1..]| - 1] == visits[|visits| - 1]
  {
    hide ValidRows;
  }

  /** With nothing appended, the pages put together are the filtered, sorted log. */
  lemma StaticTraversalIsTheListing(visits: seq<Visit>, f: Filter, log: seq<Row>)
    requires Growing(visits) && visits != [] && (forall v | v in visits :: v.log == log)
    requires Follow(visits, f, None).1
    ensures Follow(visits, f, None).0 == Selected(log, f, None)
  {
    assert visits[0] in visits && visits[|visits| - 1] in visits;
    hide Matches, Past, ValidRows, Follow, Before;
    TraversalIsComplete(visits, f, None);
    SelectedDescending(log, f, None);
    hide Selected;
    DescendingIsUnique(Follow(visits, f, None).0, Selected(log, f, None));
  }

  /** With nothing appended, a reader who asks more often than there are rows reaches the end. */
  lemma {:induction false} StaticTraversalEnds(visits: seq<Visit>, f: Filter, before: Option<Cursor>, log: seq<Row>)
    requires ValidRows(log) && forall v | v in visits :: v.log == log && v.limit >= 1
    requires |visits| > |Selected(log, f, before)|
    ensures Follow(visits, f, before).1
    decreases |visits|
  {
    hide ValidRows, Matches, Past, Selected, CursorOf;
    assert visits[0] in visits;
    var limit := visits[0].limit;
    var all := Selected(log, f, before);
    if |all| > limit {
      SelectedPosition(log, f, before, limit - 1);
      StaticTraversalEnds(visits[1..], f, Some(CursorOf(all[limit - 1])), log);
    }
  }

  // ---- exporting ----

  lemma {:induction false} LogGrows(rows: seq<Row>, growth: nat -> seq<Row>, k: nat, l: nat)
    requires k <= l
    ensures LogAt(rows, growth, k) <= LogAt(rows, growth, l)
  {
    if k < l {
      LogGrows(rows, growth, k, l - 1);
    }
  }

  /** While others append, an export stays within its cap, in strictly descending order, with
      matching rows of the log only; and unless it met the cap or a failure it has every matching
      row that was there when it started. */
  lemma {:induction false} ExportWhileGrowing(rows: seq<Row>, growth: nat -> seq<Row>, fails: nat -> bool, k: nat,
                                              f: Filter, before: Option<Cursor>, remaining: nat) returns (last: nat)
    requires Grows(rows, growth) && remaining >= 1
    ensures k <= last
    ensures var e := Exported(rows, growth, fails, k, f, before, remaining);
      && |e.0| <= remaining && Descending(e.0)
      && (forall r | r in e.0 :: Past(before, r) && Matches(f, r) && r in LogAt(rows, growth, last))
      && (!e.1 ==> exists call :: fails(call))
      && (e.1 && |e.0| < remaining ==>
            forall r | r in LogAt(rows, growth, k) && Matches(f, r) && Past(before, r) :: r in e.0)
    decreases remaining
  {
    last := k;
    hide Past, Matches, CursorOf, ValidRows, List, Descending, Before, LogAt;
    if fails(k) {
      assert Descending([]) by { EmptyDescends(); }
    } else {
      var limit, log := ExportLimit(remaining), LogAt(rows, growth, k);
      var page := List(log, f, before, limit);
      PageSize(log, f, before, limit);
      PageRows(log, f, before, limit);
      PageCursor(log, f, before, limit);
      if page.next.Some? && |page.events| < remaining {
        last := ExportWhileGrowing(rows, growth, fails, k + 1, f, page.next, remaining - |page.events|);
        var more := Exported(rows, growth, fails, k + 1, f, page.next, remaining - |page.events|);
        LogGrows(rows, growth, k, last);
        LogGrows(rows, growth, k, k + 1);
        hide Exported, Grows;
        var done := more.1 && |more.0| < remaining - |page.events|;
        TraversalStep(log, LogAt(rows, growth, last), f, before, limit, more.0, done);
      }
    }
  }

  lemma EmptyDescends()
    ensures Descending([])
  {
  }

  /** With nothing appended, an export writes exactly the first rows of the listing, up to the
      cap; one that cannot read a page stops short. */
  lemma StaticExportIsTheListing(rows: seq<Row>, growth: nat -> seq<Row>, fails: nat -> bool, f: Filter, maxRows: nat)
    requires ValidRows(rows) && maxRows >= 1 && forall k :: growth(k) == []
    ensures var e := Exported(rows, growth, fails, 0, f, None, maxRows);
      && e.0 <= First(maxRows, Selected(rows, f, None))
      && (e.1 ==> e.0 == First(maxRows, Selected(rows, f, None)))
      && (e.1 || exists call :: fails(call))
  {
    hide ValidRows, Selected, Exported;
    StaticExport(rows, growth, fails, 0, f, 0, maxRows);
    assert Selected(rows, f, None)[0..] == Selected(rows, f, None);
  }

  lemma {:induction false} StaticLog(rows: seq<Row>, growth: nat -> seq<Row>, k: nat)
    requires forall k :: growth(k) == []
    ensures LogAt(rows, growth, k) == rows
  {
    if k > 0 {
      StaticLog(rows, growth, k - 1);
    }
  }

  lemma FirstSplits(all: seq<Row>, from: nat, limit: nat, remaining: nat)
    requires from + limit <= |all| && limit <= remaining
    ensures First(remaining, all[from..]) == First(limit, all[from..]) + First(remaining - limit, all[from + limit..])
  {
  }

  /** An export that should write `wanted` has written all of it, or a part if it was stopped. */
  ghost predicate Written(e: (seq<Row>, bool), wanted: seq<Row>, stopped: bool) {
    e.0 <= wanted && (if e.1 then e.0 == wanted else stopped)
  }

  lemma WrittenPrepend(rows: seq<Row>, e: (seq<Row>, bool), wanted: seq<Row>, stopped: bool)
    requires Written(e, wanted, stopped)
    ensures Written(Prepend(rows, e), rows + wanted, stopped)
  {
  }

  lemma {:induction false} StaticExport(rows: seq<Row>, growth: nat -> seq<Row>, fails: nat -> bool, k: nat, f: Filter,
                                        from: nat, remaining: nat)
    requires ValidRows(rows) && remaining >= 1 && forall k :: growth(k) == []
    requires from <= |Selected(rows, f, None)|
    ensures var all := Selected(rows, f, None);
            Written(Exported(rows, growth, fails, k, f, CursorAt(all, from), remaining), First(remaining, all[from..]),
                    exists call :: fails(call))
    decreases remaining
  {
    hide ValidRows, Selected, CursorAt, List, LogAt, IsPage, Prepend, First;
    var all, limit := Selected(rows, f, None), ExportLimit(remaining);
    var page := List(rows, f, CursorAt(all, from), limit);
    StaticLog(rows, growth, k);
    StaticPage(rows, f, from, limit);
    PageParts(page, all, from, limit);
    if !fails(k) && page.next.Some? && |page.events| < remaining {
      hide Written;
      StaticExport(rows, growth, fails, k + 1, f, from + limit, remaining - limit);
      FirstSplits(all, from, limit, remaining);
      WrittenPrepend(page.events,
                     Exported(rows, growth, fails, k + 1, f, page.next, remaining - limit),
                     First(remaining - limit, all[from + limit..]), exists call :: fails(call));
    } else if !fails(k) {
      PageIsLast(page, all, from, limit, remaining);
    }
  }

  function CursorAt(all: seq<Row>, from: nat): Option<Cursor>
    requires from <= |all|
  {
    if from == 0 then None else Some(CursorOf(all[from - 1]))
  }

  lemma StaticPage(rows: seq<Row>, f: Filter, from: nat, limit: nat)
    requires ValidRows(rows) && limit >= 1 && from <= |Selected(rows, f, None)|
    ensures var all := Selected(rows, f, None); IsPage(List(rows, f, CursorAt(all, from), limit), all, from, limit)
  {
    if from == 0 {
      FirstPage(rows, f, limit);
    } else {
      NextPage(rows, f, from, limit);
    }
    hide Selected, List, IsPage, CursorOf, ValidRows;
  }

  lemma PageParts(page: Page, all: seq<Row>, from: nat, limit: nat)
    requires IsPage(page, all, from, limit)
    ensures page.events == First(limit, all[from..]) && |page.events| <= limit
    ensures page.next.Some? ==>
      |page.events| == limit && from + limit <= |all| && page.next == CursorAt(all, from + limit)
  {
  }

  lemma PageIsLast(page: Page, all: seq<Row>, from: nat, limit: nat, remaining: nat)
    requires IsPage(page, all, from, limit) && limit <= remaining
    requires page.next.None? || |page.events| >= remaining
    ensures page.events == First(remaining, all[from..])
  {
  }

  // ---- times in the trimmed form ----

  /** A row listed after `row` that its cursor passes over. */
  predicate Skipped(row: Row, r: Row) {
    Before(row, r) && !Past(Some(CursorOf(row)), r)
  }

  /** Full-width times are what makes this work. The cursor of a row whose time is stored in the
      trimmed form names the full-width form instead, which sorts earlier unless the two agree;
      it passes over exactly what lies between the two: ties that were still to come, everything
      stored between the forms, and at the full-width form what does not sort below the row's
      identifier. It never goes back. */
  lemma TrimmedCursorSkips(row: Row, c: Civil, r: Row)
    requires c.Valid() && row.occurredAt == FormatTime(c)
    ensures Skipped(row, r) <==>
      && c.nano % 10 == 0
      && (|| (r.occurredAt == FormatTime(c) && Less(r.id, row.id))
          || (Less(FormatAuditTime(c), r.occurredAt) && Less(r.occurredAt, FormatTime(c)))
          || (r.occurredAt == FormatAuditTime(c) && !Less(r.id, row.id)))
    ensures Past(Some(CursorOf(row)), r) ==> Before(row, r)
  {
    ParseUndoesFormat(c);
    var full, trimmed := FormatAuditTime(c), FormatTime(c);
    assert CursorOf(row) == Cursor(c, row.id) by { hide FormatTime, FormatAuditTime; }
    if c.nano % 10 == 0 {
      TrimmedSortsAfterFull(c);
      hide FormatTime, FormatAuditTime;
      BetweenForms(row, r, full, trimmed);
    } else {
      UntrimmedIsFull(c);
      hide FormatTime, FormatAuditTime;
    }
  }

  lemma BetweenForms(row: Row, r: Row, full: string, trimmed: string)
    requires Less(full, trimmed) && row.occurredAt == trimmed
    ensures var past := Less(r.occurredAt, full) || (r.occurredAt == full && Less(r.id, row.id));
            && (past ==> Before(row, r))
            && (Before(row, r) && !past <==>
                  || (r.occurredAt == trimmed && Less(r.id, row.id))
                  || (Less(full, r.occurredAt) && Less(r.occurredAt, trimmed))
                  || (r.occurredAt == full && !Less(r.id, row.id)))
  {
    LessAsymmetric(full, trimmed);
    LessTotal(r.occurredAt, full);
    LessIrreflexive(trimmed);
    LessIrreflexive(full);
    if Less(r.occurredAt, full) {
      LessTransitive(r.occurredAt, full, trimmed);
      LessAsymmetric(r.occurredAt, full);
      LessAsymmetric(r.occurredAt, trimmed);
    }
    if Less(full, r.occurredAt) {
      LessAsymmetric(full, r.occurredAt);
    }
    hide Less;
  }

  /** For a listing: the page after such a row's cursor lacks exactly the skipped rows. */
  lemma ContinuationLacksTheSkipped(rows: seq<Row>, f: Filter, row: Row, r: Row)
    requires r in Selected(rows, f, None) && Before(row, r)
    ensures r !in Selected(rows, f, Some(CursorOf(row))) <==> Skipped(row, r)
  {
    hide Matches, Before, CursorOf;
  }

  /** Two rows of one exact second, stored trimmed and paged one at a time: the reader reaches
      the end and never sees the second. */
  lemma TrimmedTieIsNeverListed(later: Row, earlier: Row, c: Civil)
    requires c.Valid() && c.nano == 0
    requires later.occurredAt == earlier.occurredAt == FormatTime(c) && Less(earlier.id, later.id)
    ensures var log := [later, earlier];
      && Selected(log, Filter("", "", ""), None) == log
      && Follow([Visit(log, 1), Visit(log, 1)], Filter("", "", ""), None) == ([later], true)
  {
    var log, f := [later, earlier], Filter("", "", "");
    var cursor := Some(CursorOf(later));
    assert Matches(f, later) && Matches(f, earlier);
    TieIsSkipped(later, earlier, c);
    hide FormatTime, FormatAuditTime, ParseTime, Less, Before, Past, CursorOf, Matches;
    TwoSelected(later, earlier, f, cursor);
    hide Selected;
    assert log[..1] == [later];
    FollowTwice(log, f, cursor, [later]);
  }

  lemma FollowTwice(log: seq<Row>, f: Filter, cursor: Option<Cursor>, first: seq<Row>)
    requires List(log, f, None, 1) == Page(first, cursor) && cursor.Some?
    requires List(log, f, cursor, 1) == Page([], None)
    ensures Follow([Visit(log, 1), Visit(log, 1)], f, None) == (first, true)
  {
    hide List;
    var visits := [Visit(log, 1), Visit(log, 1)];
    assert visits[1..] == [Visit(log, 1)];
    assert Follow(visits[1..], f, cursor) == ([], true);
    assert first + [] == first;
  }

  lemma TieIsSkipped(later: Row, earlier: Row, c: Civil)
    requires c.Valid() && c.nano == 0
    requires later.occurredAt == earlier.occurredAt == FormatTime(c) && Less(earlier.id, later.id)
    ensures Before(later, earlier)
    ensures !Past(Some(CursorOf(later)), later) && !Past(Some(CursorOf(later)), earlier)
  {
    TrimmedCursorSkips(later, c, earlier);
    TrimmedCursorSkips(later, c, later);
    LessIrreflexive(later.occurredAt);
    LessIrreflexive(later.id);
    hide FormatTime, FormatAuditTime, ParseTime, Less, CursorOf, Past;
  }

  lemma TwoSelected(later: Row, earlier: Row, f: Filter, cursor: Option<Cursor>)
    requires Matches(f, later) && Matches(f, earlier) && Before(later, earlier)
    requires !Past(cursor, later) && !Past(cursor, earlier)
    ensures Selected([later, earlier], f, None) == [later, earlier]
    ensures Selected([later, earlier], f, cursor) == []
  {
    hide Matches, Before, CursorOf;
    assert [later, earlier][1..] == [earlier] && [earlier][1..] == [];
    assert Selected([earlier], f, None) == [earlier] && Selected([earlier], f, cursor) == [];
  }
}
