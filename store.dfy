/** The `meetings` table and the helpers that read and write it, as an
    in-memory table: rows keyed by an auto-increment id that is never
    reused, and the query shapes the bot issues (by chat, by id, by chat and
    start-time window, distinct chats). */
module MeetingStore {
  import opened Strings
  import opened Calendar

  /** One row. `createdAt` is the clock reading taken at insertion. */
  datatype Meeting = Meeting(
    id: int,
    chatId: int,
    title: string,
    description: string,
    start: Stamp,
    end: Option<Stamp>,
    createdAt: Instant)

  /** The start and the end were built as `datetime` values, so they are
      real calendar times. */
  predicate WellFormed(m: Meeting) {
    Calendar.Valid(m.start) && (m.end.Some? ==> Calendar.Valid(m.end.value))
  }

  // ---------------------------------------------------------------- field updates

  /** The columns `update_meeting_field` may write. */
  datatype Column = Title | Description | StartTs | EndTs

  function ColumnName(c: Column): string {
    match c
    case Title => "title"
    case Description => "description"
    case StartTs => "start_ts"
    case EndTs => "end_ts"
  }

  /** The allow-list check: a column for exactly the four names. */
  function ColumnNamed(field: string): (c: Option<Column>)
    ensures c.Some? <==> field in {"title", "description", "start_ts", "end_ts"}
    ensures c.Some? ==> ColumnName(c.value) == field
  {
    if field == "title" then Some(Title)
    else if field == "description" then Some(Description)
    else if field == "start_ts" then Some(StartTs)
    else if field == "end_ts" then Some(EndTs)
    else None
  }

  lemma ColumnNameRoundTrip(c: Column)
    ensures ColumnNamed(ColumnName(c)) == Some(c)
  {
  }

  /** A value written into a column. */
  datatype Value = Text(text: string) | Time(stamp: Stamp) | Null

  /** The kind of value each writable column holds. */
  predicate Fits(c: Column, v: Value) {
    match c
    case Title => v.Text?
    case Description => v.Text?
    case StartTs => v.Time? && Calendar.Valid(v.stamp)
    case EndTs => v.Null? || (v.Time? && Calendar.Valid(v.stamp))
  }

  /** The row after `UPDATE meetings SET <c> = <v>`: only that column changes. */
  function SetColumn(m: Meeting, c: Column, v: Value): (r: Meeting)
    requires Fits(c, v)
    ensures r.id == m.id && r.chatId == m.chatId && r.createdAt == m.createdAt
    ensures c != Title ==> r.title == m.title
    ensures c != Description ==> r.description == m.description
    ensures c != StartTs ==> r.start == m.start
    ensures c != EndTs ==> r.end == m.end
    ensures c == Title ==> r.title == v.text
    ensures c == Description ==> r.description == v.text
    ensures c == StartTs ==> r.start == v.stamp
    ensures c == EndTs ==> r.end == (if v.Null? then None else Some(v.stamp))
    ensures WellFormed(m) ==> WellFormed(r)
  {
    match c
    case Title => m.(title := v.text)
    case Description => m.(description := v.text)
    case StartTs => m.(start := v.stamp)
    case EndTs => m.(end := if v.Null? then None else Some(v.stamp))
  }

  datatype UpdateResult = Updated | InvalidField

  // ---------------------------------------------------------------- parameters

  /** sqlite binds a Python `int` parameter as a signed 64-bit INTEGER; any
      other value makes the driver raise `OverflowError` before the query
      runs. */
  const MinSqlInt: int := -0x8000_0000_0000_0000
  const MaxSqlInt: int := 0x7FFF_FFFF_FFFF_FFFF

  predicate FitsSqlInt(n: int) {
    MinSqlInt <= n <= MaxSqlInt
  }

  // ---------------------------------------------------------------- queries

  /** The WHERE clause of a listing query. */
  datatype Filter =
    | ByChat(chat: int)
    | Window(chat: int, from: Instant, to: Instant)

  /** `chat_id = ?`, and for a window also `start_ts >= from AND start_ts <= to`. */
  predicate Selects(f: Filter, m: Meeting) {
    && m.chatId == f.chat
    && (f.Window? ==> AtOrAfter(m.start, f.from) && AtOrBefore(m.start, f.to))
  }

  /** `ORDER BY start_ts`: no meeting starts before an earlier-listed one. */
  predicate Sorted(r: seq<Meeting>) {
    forall i, j :: 0 <= i < j < |r| ==> !Before(r[j].start, r[i].start)
  }

  /** The rows a filter selects. */
  function SelectedRows(rows: map<int, Meeting>, f: Filter): set<Meeting> {
    set id | id in rows && Selects(f, rows[id]) :: rows[id]
  }

  /** `r` is a correct answer to the query: every selected row exactly once,
      nothing else, in start order (rows with equal starts in any order). */
  ghost predicate IsListing(rows: map<int, Meeting>, f: Filter, r: seq<Meeting>) {
    Sorted(r) && multiset(r) == multiset(SelectedRows(rows, f))
  }

  /** Inserts `m` after every meeting that does not start later than it. */
  function Insert(r: seq<Meeting>, m: Meeting): (q: seq<Meeting>)
    ensures multiset(q) == multiset(r) + multiset{m}
    ensures forall x :: x in q <==> x in r || x == m
  {
    if r == [] then [m]
    else if Before(m.start, r[0].start) then [m] + r
    else
      assert r == [r[0]] + r[1..];
      [r[0]] + Insert(r[1..], m)
  }

  /** Insertion keeps a listing in start order. */
  lemma {:induction false} InsertSorted(r: seq<Meeting>, m: Meeting)
    requires Sorted(r)
    ensures Sorted(Insert(r, m))
  {
    if r == [] {
    } else if Before(m.start, r[0].start) {
      var q := [m] + r;
      forall i, j | 0 <= i < j < |q| ensures !Before(q[j].start, q[i].start) {
        if i == 0 {
          assert q[j] == r[j - 1];
          assert j - 1 == 0 || !Before(r[j - 1].start, r[0].start);
          BeforeTransitive(r[j - 1].start, m.start, r[0].start);
        }
      }
    } else {
      var t := Insert(r[1..], m);
      InsertSorted(r[1..], m);
      var q := [r[0]] + t;
      forall i, j | 0 <= i < j < |q| ensures !Before(q[j].start, q[i].start) {
        if i == 0 {
          assert q[j] == t[j - 1] && t[j - 1] in t;
          assert t[j - 1] == m || t[j - 1] in r[1..];
          if t[j - 1] != m {
            var k :| 0 <= k < |r[1..]| && r[1..][k] == t[j - 1];
            assert r[k + 1] == t[j - 1];
          }
        } else {
          assert q[i] == t[i - 1] && q[j] == t[j - 1];
        }
      }
    }
  }

  /** The rows with an id below `n` that a filter selects. */
  function SelectedBelow(rows: map<int, Meeting>, f: Filter, n: int): set<Meeting> {
    set id | id in rows && id < n && Selects(f, rows[id]) :: rows[id]
  }

  /** Moving the scan past one id adds that row if the filter selects it. */
  lemma SelectedBelowStep(rows: map<int, Meeting>, f: Filter, id: int)
    requires forall k :: k in rows ==> rows[k].id == k
    ensures id in rows && Selects(f, rows[id]) ==>
              rows[id] !in SelectedBelow(rows, f, id)
              && SelectedBelow(rows, f, id + 1) == SelectedBelow(rows, f, id) + {rows[id]}
    ensures !(id in rows && Selects(f, rows[id])) ==>
              SelectedBelow(rows, f, id + 1) == SelectedBelow(rows, f, id)
  {
  }

  /** Before the first id nothing has been scanned; past the last id
      everything has. */
  lemma SelectedBelowEnds(rows: map<int, Meeting>, f: Filter, n: int)
    requires forall k :: k in rows ==> 1 <= k < n
    ensures SelectedBelow(rows, f, 1) == {}
    ensures SelectedBelow(rows, f, n) == SelectedRows(rows, f)
  {
  }

  lemma MultisetAddNew<T>(a: set<T>, x: T)
    requires x !in a
    ensures multiset(a + {x}) == multiset(a) + multiset{x}
  {
  }

  predicate AllWellFormed(r: seq<Meeting>) {
    forall k :: 0 <= k < |r| ==> WellFormed(r[k])
  }

  /** Every listed row is a selected row of the table, every selected row is
      listed, and so listings of a well-formed table are well-formed. */
  lemma ListingMembers(rows: map<int, Meeting>, f: Filter, r: seq<Meeting>)
    requires IsListing(rows, f, r)
    ensures forall m :: m in r <==> m in SelectedRows(rows, f)
    ensures (forall id :: id in rows ==> WellFormed(rows[id])) ==> AllWellFormed(r)
  {
    forall m
      ensures m in r <==> m in SelectedRows(rows, f)
    {
      assert m in r <==> m in multiset(r);
      assert m in SelectedRows(rows, f) <==> m in multiset(SelectedRows(rows, f));
    }
    forall k | 0 <= k < |r|
      ensures r[k] in SelectedRows(rows, f)
    {
      assert r[k] in r;
    }
  }

  /** An empty answer means an empty selection, and the other way round. */
  lemma ListingEmpty(rows: map<int, Meeting>, f: Filter, r: seq<Meeting>)
    requires IsListing(rows, f, r)
    ensures r == [] <==> SelectedRows(rows, f) == {}
  {
    if r != [] {
      assert r[0] in multiset(r);
    }
    if SelectedRows(rows, f) != {} {
      var m :| m in SelectedRows(rows, f);
      assert m in multiset(r);
    }
  }

  // ---------------------------------------------------------------- the table

  class Store {
    /** The table's rows, by id. */
    var rows: map<int, Meeting>
    /** The id the next insertion gets (`AUTOINCREMENT`). */
    var nextId: int
    /** Every id ever handed out, deleted or not. */
    ghost var issued: set<int>

    ghost predicate Valid()
      reads this
    {
      && 1 <= nextId
      && rows.Keys <= issued
      && (forall id :: id in issued ==> 1 <= id < nextId)
      && (forall id :: id in rows ==> rows[id].id == id && WellFormed(rows[id]))
    }

    /** A freshly created, empty table. */
    constructor ()
      ensures Valid() && rows == map[] && nextId == 1 && issued == {}
    {
      rows := map[];
      nextId := 1;
      issued := {};
    }

    /** `add_meeting`: one new row under an id never issued before; a missing
        or empty description is stored as "". */
    method Add(chatId: int, title: string, description: Option<string>,
               start: Stamp, end: Option<Stamp>, createdAt: Instant)
      requires Valid()
      requires Calendar.Valid(start) && (end.Some? ==> Calendar.Valid(end.value))
      modifies this
      ensures Valid()
      ensures old(nextId) !in old(issued) && old(nextId) !in old(rows)
      ensures issued == old(issued) + {old(nextId)}
      ensures nextId == old(nextId) + 1
      ensures rows == old(rows)[old(nextId) := Meeting(old(nextId), chatId, title,
                                                      if description.Some? then description.value else "",
                                                      start, end, createdAt)]
    {
      var d := if description.Some? then description.value else "";
      rows := rows[nextId := Meeting(nextId, chatId, title, d, start, end, createdAt)];
      issued := issued + {nextId};
      nextId := nextId + 1;
    }

    /** `get_meeting`: the row with that id, if any. */
    method Get(id: int) returns (m: Option<Meeting>)
      requires Valid()
      ensures m.Some? <==> id in rows
      ensures m.Some? ==> m.value == rows[id] && m.value.id == id
    {
      if id in rows {
        m := Some(rows[id]);
      } else {
        m := None;
      }
    }

    /** `update_meeting_field`: a field name outside the allow-list is
        rejected before anything is written; otherwise the named column of
        the row with that id (if there is one) is set and nothing else
        changes. */
    method UpdateField(id: int, field: string, value: Value) returns (r: UpdateResult)
      requires Valid()
      requires ColumnNamed(field).Some? ==> Fits(ColumnNamed(field).value, value)
      modifies this
      ensures Valid() && nextId == old(nextId) && issued == old(issued)
      ensures r == InvalidField <==> field !in {"title", "description", "start_ts", "end_ts"}
      ensures r == InvalidField ==> rows == old(rows)
      ensures r == Updated && id in old(rows) ==>
                rows == old(rows)[id := SetColumn(old(rows)[id], ColumnNamed(field).value, value)]
      ensures r == Updated && id !in old(rows) ==> rows == old(rows)
    {
      var c := ColumnNamed(field);
      if c.None? {
        return InvalidField;
      }
      if id in rows {
        rows := rows[id := SetColumn(rows[id], c.value, value)];
      }
      r := Updated;
    }

    /** `delete_meeting`: the row with that id is gone, every other row is
        as it was, and its id stays issued. */
    method Delete(id: int)
      requires Valid()
      modifies this
      ensures Valid() && nextId == old(nextId) && issued == old(issued)
      ensures rows == old(rows) - {id}
    {
      rows := rows - {id};
    }

    /** The ORDER BY query behind both listings: a scan in id order that
        inserts each selected row after the rows starting no later. */
    method Scan(f: Filter) returns (r: seq<Meeting>)
      requires Valid()
      ensures IsListing(rows, f, r)
    {
      SelectedBelowEnds(rows, f, nextId);
      r := [];
      var id := 1;
      while id < nextId
        invariant 1 <= id <= nextId
        invariant Sorted(r)
        invariant multiset(r) == multiset(SelectedBelow(rows, f, id))
      {
        SelectedBelowStep(rows, f, id);
        if id in rows && Selects(f, rows[id]) {
          MultisetAddNew(SelectedBelow(rows, f, id), rows[id]);
          InsertSorted(r, rows[id]);
          r := Insert(r, rows[id]);
        }
        id := id + 1;
      }
    }

    /** `list_meetings_for_chat`: the chat's rows, ordered by start. */
    method ListForChat(chatId: int) returns (r: seq<Meeting>)
      requires Valid()
      ensures IsListing(rows, ByChat(chatId), r)
    {
      r := Scan(ByChat(chatId));
    }

    /** `meetings_in_range`: the chat's rows starting in [from, to], both
        ends included, ordered by start. */
    method InRange(chatId: int, from: Instant, to: Instant) returns (r: seq<Meeting>)
      requires Valid()
      ensures IsListing(rows, Window(chatId, from, to), r)
    {
      r := Scan(Window(chatId, from, to));
    }

    /** `SELECT DISTINCT chat_id FROM meetings`. */
    function Chats(): (cs: set<int>)
      reads this
      ensures forall c :: c in cs <==> exists id :: id in rows && rows[id].chatId == c
    {
      set id | id in rows :: rows[id].chatId
    }
  }

  /** The window's bounds are inclusive: a meeting of the chat starting exactly
      at `from` (a whole minute) or exactly at `to` is selected, one starting
      after `to` is not. */
  lemma WindowInclusive(m: Meeting, chat: int, from: Instant, to: Instant)
    requires m.chatId == chat
    ensures from.micros == 0 && m.start == from.at && !Before(to.at, m.start) ==> Selects(Window(chat, from, to), m)
    ensures m.start == to.at && AtOrAfter(m.start, from) ==> Selects(Window(chat, from, to), m)
    ensures Before(to.at, m.start) ==> !Selects(Window(chat, from, to), m)
  {
  }
}
