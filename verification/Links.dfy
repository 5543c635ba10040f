/** The link table: what each SQL statement does to it (internal/db/sqlc/swosh.sql.go). */
module Links {
  import opened Wrappers
  import opened Text
  import Rfc3339

  type Time = Rfc3339.Time

  datatype Link = Link(
    id: string,
    payee: string,
    amount: int32,
    description: Option<string>,
    expiresOn: Option<Time>,
    createdAt: Time,
    payeeEditable: bool,
    amountEditable: bool,
    messageEditable: bool,
    lastAccessedAt: Option<Time>)

  /** A row carries a serial number that no statement changes, so that a link can be followed through
      renames. The real table has no such column. */
  datatype Row = Row(serial: nat, link: Link)

  datatype Table = Table(rows: map<string, Row>, next: nat)

  /** CreateSwoshParams without the id, which the server picks. */
  datatype NewLink = NewLink(
    payee: string,
    amount: int32,
    description: Option<string>,
    expiresOn: Option<Time>,
    payeeEditable: bool,
    amountEditable: bool,
    messageEditable: bool)

  datatype UpdateParams = UpdateParams(
    id: string,
    newId: string,
    payee: string,
    amount: int32,
    description: Option<string>,
    expiresOn: Option<Time>)

  datatype DbError = NoRows | UniqueViolation | Failure

  /** Rows are kept under their ids, and no two share a serial number. */
  ghost predicate Valid(t: Table) {
    && (forall id :: id in t.rows ==> t.rows[id].link.id == id && t.rows[id].serial < t.next)
    && (forall a, b :: a in t.rows && b in t.rows && t.rows[a].serial == t.rows[b].serial ==> a == b)
  }

  // ---- Statements ----

  function Get(t: Table, id: string): Result<Link, DbError> {
    if id in t.rows then Ok(t.rows[id].link) else Err(NoRows)
  }

  /** The row that CreateSwosh inserts: created_at has a default, last_accessed_at starts out empty. */
  function LinkOf(id: string, n: NewLink, now: Time): Link {
    Link(id, n.payee, n.amount, n.description, n.expiresOn, now,
         n.payeeEditable, n.amountEditable, n.messageEditable, None)
  }

  function Create(t: Table, id: string, n: NewLink, now: Time): (Table, Result<Link, DbError>) {
    if id in t.rows then (t, Err(UniqueViolation)) else
    var link := LinkOf(id, n, now);
    (Table(t.rows[id := Row(t.next, link)], t.next + 1), Ok(link))
  }

  function Edited(l: Link, arg: UpdateParams): Link {
    l.(id := arg.newId, payee := arg.payee, amount := arg.amount, description := arg.description, expiresOn := arg.expiresOn)
  }

  /** How many rows UpdateSwosh changes, and the table after it. */
  function Update(t: Table, arg: UpdateParams): (Table, Result<nat, DbError>) {
    if arg.id !in t.rows then (t, Ok(0))
    else if arg.newId != arg.id && arg.newId in t.rows then (t, Err(UniqueViolation))
    else
      var row := t.rows[arg.id];
      (t.(rows := (t.rows - {arg.id})[arg.newId := row.(link := Edited(row.link, arg))]), Ok(1))
  }

  function DeleteAll(t: Table, ids: set<string>): Table {
    t.(rows := t.rows - ids)
  }

  /** How many of these ids the table has. */
  function CountIn(t: Table, ids: set<string>): nat {
    |ids * t.rows.Keys|
  }

  predicate ExpiredBy(l: Link, now: Time) {
    l.expiresOn.Some? && l.expiresOn.value < now
  }

  function ExpiredIds(t: Table, now: Time): set<string> {
    set id | id in t.rows && ExpiredBy(t.rows[id].link, now)
  }

  function Touch(t: Table, id: string, now: Time): Table {
    if id !in t.rows then t else
    t.(rows := t.rows[id := t.rows[id].(link := t.rows[id].link.(lastAccessedAt := Some(now)))])
  }

  // ---- What the statements keep ----

  lemma CreateKeepsValid(t: Table, id: string, n: NewLink, now: Time)
    requires Valid(t)
    ensures Valid(Create(t, id, n, now).0)
  {
  }

  /** A create adds one row with a new serial number, or nothing if the id is taken. */
  lemma CreateValid(t: Table, id: string, n: NewLink, now: Time)
    requires Valid(t)
    ensures var (u, r) := Create(t, id, n, now);
            && Valid(u)
            && (id in t.rows ==> u == t && r == Err(UniqueViolation))
            && (id !in t.rows ==>
                  && r.Ok? && u.next == t.next + 1 && |u.rows| == |t.rows| + 1
                  && u.rows.Keys == t.rows.Keys + {id} && u.rows[id] == Row(t.next, r.value)
                  && r.value.id == id && r.value.createdAt == now && r.value.lastAccessedAt == None
                  && r.value.payee == n.payee && r.value.amount == n.amount && r.value.description == n.description
                  && r.value.expiresOn == n.expiresOn && r.value.payeeEditable == n.payeeEditable
                  && r.value.amountEditable == n.amountEditable && r.value.messageEditable == n.messageEditable
                  && forall i :: i in t.rows ==> u.rows[i] == t.rows[i])
  {
    hide Valid;
    CreateKeepsValid(t, id, n, now);
  }

  /** An update is all or nothing. On success the row count stays, only the row named by the id moves,
      and it keeps its serial number, creation time, editable flags and last access. */
  lemma UpdateOutcome(t: Table, arg: UpdateParams)
    requires Valid(t)
    ensures var (u, r) := Update(t, arg);
            && Valid(u) && u.next == t.next && |u.rows| == |t.rows|
            && (r == Ok(1) <==> arg.id in t.rows && (arg.newId == arg.id || arg.newId !in t.rows))
            && (r == Ok(0) <==> arg.id !in t.rows)
            && (r != Ok(1) ==> u == t)
            && (r == Ok(1) ==>
                  && u.rows.Keys == t.rows.Keys - {arg.id} + {arg.newId}
                  && u.rows[arg.newId].serial == t.rows[arg.id].serial
                  && u.rows[arg.newId].link == Edited(t.rows[arg.id].link, arg)
                  && forall id :: id in u.rows && id != arg.newId ==> id in t.rows && u.rows[id] == t.rows[id])
  {
    hide Valid;
    UpdateSize(t, arg);
    UpdateKeepsValid(t, arg);
  }

  lemma UpdateSize(t: Table, arg: UpdateParams)
    ensures |Update(t, arg).0.rows| == |t.rows|
  {
    var (u, r) := Update(t, arg);
    if r == Ok(1) {
      var left := t.rows - {arg.id};
      assert t.rows == left[arg.id := t.rows[arg.id]];
      assert arg.newId !in left;
      assert |u.rows| == |left| + 1;
    }
  }

  lemma UpdateKeepsValid(t: Table, arg: UpdateParams)
    requires Valid(t)
    ensures Valid(Update(t, arg).0)
  {
  }

  lemma DeleteCount(t: Table, ids: set<string>)
    ensures |DeleteAll(t, ids).rows| + CountIn(t, ids) == |t.rows|
  {
    var left := DeleteAll(t, ids).rows;
    assert left.Keys == t.rows.Keys - ids;
    assert |left| == |left.Keys| && |t.rows| == |t.rows.Keys|;
    SetSplit(t.rows.Keys, ids);
  }

  lemma SetSplit(all: set<string>, ids: set<string>)
    ensures |all - ids| + |ids * all| == |all|
  {
    assert all == (all - ids) + ids * all;
  }

  /** A delete takes the named rows, skips ids that have none, and leaves the others as they are. */
  lemma DeleteOutcome(t: Table, ids: set<string>)
    requires Valid(t)
    ensures var u := DeleteAll(t, ids);
            && Valid(u) && u.next == t.next
            && u.rows.Keys == t.rows.Keys - ids && |u.rows| + CountIn(t, ids) == |t.rows|
            && forall id :: id in u.rows ==> u.rows[id] == t.rows[id]
  {
    DeleteCount(t, ids);
    hide CountIn;
  }

  lemma TouchKeepsValid(t: Table, id: string, now: Time)
    requires Valid(t)
    ensures Valid(Touch(t, id, now))
  {
  }

  /** A touch sets the last access of one row and nothing else; a missing link stays missing. */
  lemma TouchOutcome(t: Table, id: string, now: Time)
    requires Valid(t)
    ensures var u := Touch(t, id, now);
            && Valid(u) && u.next == t.next && u.rows.Keys == t.rows.Keys && |u.rows| == |t.rows|
            && (forall i :: i in u.rows && i != id ==> u.rows[i] == t.rows[i])
            && (id in u.rows ==>
                  && u.rows[id].serial == t.rows[id].serial
                  && u.rows[id].link.lastAccessedAt == Some(now)
                  && u.rows[id].link.(lastAccessedAt := t.rows[id].link.lastAccessedAt) == t.rows[id].link)
  {
    hide Valid;
    TouchKeepsValid(t, id, now);
    assert |Touch(t, id, now).rows.Keys| == |t.rows.Keys|;
  }

  // ---- The statements as methods ----

  /** The database. Whether it answers is up to the outside world: a statement that fails changes nothing. */
  class LinkTable {
    var rows: map<string, Row>
    var next: nat

    constructor ()
      ensures View() == Table(map[], 0)
    {
      rows, next := map[], 0;
    }

    function View(): Table
      reads this
    {
      Table(rows, next)
    }

    method GetSwosh(id: string, down: bool) returns (r: Result<Link, DbError>)
      ensures r == if down then Err(Failure) else Get(View(), id)
    {
      if down {
        return Err(Failure);
      }
      r := if id in rows then Ok(rows[id].link) else Err(NoRows);
    }

    method CreateSwosh(id: string, n: NewLink, now: Time, down: bool) returns (r: Result<Link, DbError>)
      modifies this
      ensures (View(), r) == if down then (old(View()), Err(Failure)) else Create(old(View()), id, n, now)
    {
      if down {
        return Err(Failure);
      }
      if id in rows {
        return Err(UniqueViolation);
      }
      var link := LinkOf(id, n, now);
      rows := rows[id := Row(next, link)];
      next := next + 1;
      r := Ok(link);
    }

    method UpdateSwosh(arg: UpdateParams, down: bool) returns (r: Result<nat, DbError>)
      modifies this
      ensures (View(), r) == if down then (old(View()), Err(Failure)) else Update(old(View()), arg)
    {
      if down {
        return Err(Failure);
      }
      if arg.id !in rows {
        return Ok(0);
      }
      if arg.newId in rows && arg.newId != arg.id {
        return Err(UniqueViolation);
      }
      var row := rows[arg.id];
      rows := rows - {arg.id};
      rows := rows[arg.newId := row.(link := Edited(row.link, arg))];
      r := Ok(1);
    }

    method DeleteSwosh(id: string, down: bool) returns (r: Result<nat, DbError>)
      modifies this
      ensures View() == if down then old(View()) else DeleteAll(old(View()), {id})
      ensures r == if down then Err(Failure) else Ok(CountIn(old(View()), {id}))
    {
      if down {
        return Err(Failure);
      }
      if id !in rows {
        assert {id} * rows.Keys == {};
        assert rows - {id} == rows;
        return Ok(0);
      }
      assert {id} * rows.Keys == {id};
      rows := rows - {id};
      r := Ok(1);
    }

    /** Returns the ids that existed, each once, however often it was asked for. */
    method DeleteSwoshes(ids: seq<string>, down: bool) returns (r: Result<seq<string>, DbError>)
      modifies this
      ensures View() == if down then old(View()) else DeleteAll(old(View()), Elements(ids))
      ensures down <==> r.Err?
      ensures r.Ok? ==> NoDuplicates(r.value) && Elements(r.value) == Elements(ids) * old(rows).Keys
    {
      if down {
        return Err(Failure);
      }
      var deleted: seq<string> := [];
      for i := 0 to |ids|
        invariant next == old(next)
        invariant rows == old(rows) - Elements(ids[..i])
        invariant NoDuplicates(deleted)
        invariant forall id :: id in deleted <==> id in ids[..i] && id in old(rows)
      {
        assert ids[..i + 1] == ids[..i] + [ids[i]];
        if ids[i] in rows {
          deleted := deleted + [ids[i]];
          rows := rows - {ids[i]};
        }
        assert rows == old(rows) - Elements(ids[..i + 1]);
      }
      assert ids[..|ids|] == ids;
      r := Ok(deleted);
    }

    /** Returns the ids of the links it deletes, in no particular order. */
    method DeleteExpiredSwoshes(now: Time, down: bool) returns (r: Result<seq<string>, DbError>)
      modifies this
      ensures View() == if down then old(View()) else DeleteAll(old(View()), ExpiredIds(old(View()), now))
      ensures down <==> r.Err?
      ensures r.Ok? ==> NoDuplicates(r.value) && Elements(r.value) == ExpiredIds(old(View()), now)
      ensures r.Ok? ==> forall id ::
                id in r.value <==> id in old(rows) && old(rows)[id].link.expiresOn.Some? && old(rows)[id].link.expiresOn.value < now
      ensures r.Ok? ==> forall id :: id in rows <==> id in old(rows) && id !in r.value
      ensures forall id :: id in rows ==> rows[id] == old(rows)[id]
    {
      if down {
        return Err(Failure);
      }
      var items: seq<string> := [];
      var todo := rows.Keys;
      while todo != {}
        invariant next == old(next) && todo <= rows.Keys <= old(rows).Keys
        invariant rows == old(rows) - Elements(items)
        invariant NoDuplicates(items)
        invariant forall id :: id in items <==> id in old(rows) && id !in todo && ExpiredBy(old(rows)[id].link, now)
        decreases todo
      {
        var id :| id in todo;
        todo := todo - {id};
        if ExpiredBy(rows[id].link, now) {
          items := items + [id];
          rows := rows - {id};
          assert rows == old(rows) - Elements(items);
        }
      }
      assert Elements(items) == ExpiredIds(old(View()), now);
      r := Ok(items);
    }

    method TouchSwosh(id: string, now: Time, down: bool) returns (ok: bool)
      modifies this
      ensures ok == !down
      ensures View() == if down then old(View()) else Touch(old(View()), id, now)
    {
      if !down && id in rows {
        rows := rows[id := rows[id].(link := rows[id].link.(lastAccessedAt := Some(now)))];
      }
      ok := !down;
    }
  }

  function Elements(s: seq<string>): set<string> {
    set id | id in s
  }

  ghost predicate NoDuplicates(s: seq<string>) {
    forall i, j :: 0 <= i < j < |s| ==> s[i] != s[j]
  }

  /** A list without duplicates is as long as the set of its elements. */
  lemma {:induction false} CountNoDuplicates(s: seq<string>)
    requires NoDuplicates(s)
    ensures |Elements(s)| == |s|
  {
    if s != [] {
      var front, last := s[..|s| - 1], s[|s| - 1];
      CountNoDuplicates(front);
      assert s == front + [last];
      assert Elements(s) == Elements(front) + {last};
      assert last !in front;
    }
  }

  lemma ExpiredAreRows(t: Table, now: Time)
    ensures ExpiredIds(t, now) * t.rows.Keys == ExpiredIds(t, now)
  {
  }

  /** A list of the rows that a statement deleted is as long as their number. */
  lemma CountDeleted(t: Table, ids: set<string>, deleted: seq<string>)
    requires NoDuplicates(deleted) && Elements(deleted) == ids * t.rows.Keys
    ensures |deleted| == CountIn(t, ids)
  {
    CountNoDuplicates(deleted);
  }
}
