/** The link table under concurrent requests. A run is a list of steps; each step is one thing that some
    request, the expiry job or the clock does, and requests keep their place in between. */
module Runs {
  import opened Wrappers
  import opened Links
  import AdminForm

  /** Where a request that has not been answered yet stands. */
  datatype Pending =
    | Creating(n: NewLink, tries: nat)
    | Found(id: string, row: Option<Link>)
    | Serving(id: string, link: Link, at: Time)
    | Editing(serial: nat, link: Link)
    | Saving(serial: nat, link: Link, arg: UpdateParams, at: Time)

  datatype Answer =
    | NotFound
    | Served(link: Link, at: Time)
    | ServerError
    | Created
    | CreateFailed
    | BadForm(error: AdminForm.FormError)
    | Shown(serial: nat, seen: Link)
    | Conflict
    | Gone
    | Saved

  datatype Event = Event(req: nat, id: string, answer: Answer)

  /** `started` numbers the requests. `created` is create_success_total, `expired` is
      expired_links_total, and `removed` counts the rows that admins deleted. */
  datatype World = World(
    now: Time,
    table: Table,
    pending: map<nat, Pending>,
    started: nat,
    created: nat,
    removed: nat,
    expired: nat,
    log: seq<Event>)

  /** `down` says that the database fails in this step. */
  datatype Step =
    | Tick(d: nat)
    | Submit(n: NewLink)                          // a create request passed validation
    | TryInsert(req: nat, id: string, down: bool) // one turn of the retry loop, with a random id
    | Read(id: string, down: bool)                // a public page reads the link
    | Check(req: nat)                             // ... looks at the clock
    | Touch(req: nat, at: Time, record: bool)     // ... records the access, unless for an admin or in vain
    | Show(id: string, down: bool)                // an admin is shown the link's form
    | Open(id: string, down: bool)                // an edit, when the form is posted, reads the link again
    | Validate(req: nat, form: AdminForm.Posted)  // ... checks the form
    | Save(req: nat, down: bool)                  // ... writes it
    | Remove(ids: seq<string>, down: bool)        // an admin deletes links
    | Sweep(at: Time, down: bool)                 // the expiry job, which read the clock at some time before

  const CREATE_ATTEMPTS := 5

  function Begin(w: World, p: Pending): World {
    w.(pending := w.pending[w.started := p], started := w.started + 1)
  }

  /** Answers a request in its first step. */
  function Refuse(w: World, id: string, a: Answer): World {
    w.(started := w.started + 1, log := w.log + [Event(w.started, id, a)])
  }

  function Finish(w: World, req: nat, id: string, a: Answer): World {
    w.(pending := w.pending - {req}, log := w.log + [Event(req, id, a)])
  }

  function DoTryInsert(w: World, req: nat, id: string, down: bool): World {
    if req !in w.pending || !w.pending[req].Creating? then w
    else if down then Finish(w, req, id, CreateFailed)
    else
      var n, tries := w.pending[req].n, w.pending[req].tries + 1;
      match Create(w.table, id, n, w.now)
      case (t, Ok(_)) => Finish(w, req, id, Created).(table := t, created := w.created + 1)
      case (_, Err(_)) =>
        if tries < CREATE_ATTEMPTS then w.(pending := w.pending[req := Creating(n, tries)])
        else Finish(w, req, id, CreateFailed)
  }

  function DoRead(w: World, id: string, down: bool): World {
    if down then Refuse(w, id, ServerError)
    else Begin(w, Found(id, if id in w.table.rows then Some(w.table.rows[id].link) else None))
  }

  /** lookup hides a link from the very instant it expires. */
  predicate Dead(l: Link, now: Time) {
    l.expiresOn.Some? && l.expiresOn.value <= now
  }

  function DoCheck(w: World, req: nat): World {
    if req !in w.pending || !w.pending[req].Found? then w else
    match w.pending[req].row
    case None => Finish(w, req, w.pending[req].id, NotFound)
    case Some(l) =>
      if Dead(l, w.now) then Finish(w, req, w.pending[req].id, NotFound)
      else w.(pending := w.pending[req := Serving(w.pending[req].id, l, w.now)])
  }

  function DoTouch(w: World, req: nat, at: Time, record: bool): World {
    if req !in w.pending || !w.pending[req].Serving? || at > w.now then w else
    var p := w.pending[req];
    Finish(w, req, p.id, Served(p.link, p.at)).(table := if record then Links.Touch(w.table, p.link.id, at) else w.table)
  }

  /** The page with the form is out of the server's hands from now on. */
  function DoShow(w: World, id: string, down: bool): World {
    if down then Refuse(w, id, ServerError)
    else if id !in w.table.rows then Refuse(w, id, NotFound)
    else Refuse(w, id, Shown(w.table.rows[id].serial, w.table.rows[id].link))
  }

  function DoOpen(w: World, id: string, down: bool): World {
    if down then Refuse(w, id, ServerError)
    else if id !in w.table.rows then Refuse(w, id, NotFound)
    else Begin(w, Editing(w.table.rows[id].serial, w.table.rows[id].link))
  }

  function DoValidate(w: World, req: nat, form: AdminForm.Posted): World {
    if req !in w.pending || !w.pending[req].Editing? then w else
    var p := w.pending[req];
    match AdminForm.Submit(p.link, form, w.now)
    case Err(e) => Finish(w, req, p.link.id, BadForm(e))
    case Ok(arg) => w.(pending := w.pending[req := Saving(p.serial, p.link, arg, w.now)])
  }

  function DoSave(w: World, req: nat, down: bool): World {
    if req !in w.pending || !w.pending[req].Saving? then w else
    var id, arg := w.pending[req].link.id, w.pending[req].arg;
    if down then Finish(w, req, id, ServerError) else
    match Update(w.table, arg)
    case (_, Err(_)) => Finish(w, req, id, Conflict)
    case (t, Ok(n)) => if n == 0 then Finish(w, req, id, Gone) else Finish(w, req, id, Saved).(table := t)
  }

  function Next(w: World, s: Step): World {
    match s
    case Tick(d) => w.(now := w.now + d)
    case Submit(n) => Begin(w, Creating(n, 0))
    case TryInsert(req, id, down) => DoTryInsert(w, req, id, down)
    case Read(id, down) => DoRead(w, id, down)
    case Check(req) => DoCheck(w, req)
    case Touch(req, at, record) => DoTouch(w, req, at, record)
    case Show(id, down) => DoShow(w, id, down)
    case Open(id, down) => DoOpen(w, id, down)
    case Validate(req, form) => DoValidate(w, req, form)
    case Save(req, down) => DoSave(w, req, down)
    case Remove(ids, down) =>
      if down then w else
      w.(table := DeleteAll(w.table, Elements(ids)), removed := w.removed + CountIn(w.table, Elements(ids)))
    case Sweep(at, down) =>
      if down || at > w.now then w else
      w.(table := DeleteAll(w.table, ExpiredIds(w.table, at)),
         expired := w.expired + CountIn(w.table, ExpiredIds(w.table, at)))
  }

  lemma NextIs(w: World, s: Step)
    ensures s.TryInsert? ==> Next(w, s) == DoTryInsert(w, s.req, s.id, s.down)
    ensures s.Show? ==> Next(w, s) == DoShow(w, s.id, s.down)
    ensures s.Open? ==> Next(w, s) == DoOpen(w, s.id, s.down)
    ensures s.Validate? ==> Next(w, s) == DoValidate(w, s.req, s.form)
    ensures s.Save? ==> Next(w, s) == DoSave(w, s.req, s.down)
  {
    hide DoTryInsert;
    hide DoRead;
    hide DoCheck;
    hide DoTouch;
    hide DoShow;
    hide DoOpen;
    hide DoValidate;
    hide DoSave;
  }

  function Exec(w: World, steps: seq<Step>): World
    decreases |steps|
  {
    if steps == [] then w else Exec(Next(w, steps[0]), steps[1..])
  }

  function Init(now: Time): World {
    World(now, Table(map[], 0), map[], 0, 0, 0, 0, [])
  }

  lemma {:induction false} ExecConcat(w: World, a: seq<Step>, b: seq<Step>)
    ensures Exec(w, a + b) == Exec(Exec(w, a), b)
    decreases |a|
  {
    if a == [] {
      assert a + b == b;
    } else {
      ExecConcat(Next(w, a[0]), a[1..], b);
      assert (a + b)[1..] == a[1..] + b;
    }
  }

  lemma ExecTwo(w: World, steps: seq<Step>)
    requires |steps| == 2
    ensures Exec(w, steps) == Next(Next(w, steps[0]), steps[1])
  {
    hide Next;
    assert Exec(w, steps) == Exec(Next(w, steps[0]), steps[1..]);
    assert steps[1..][1..] == [];
  }

  lemma ExecThree(w: World, steps: seq<Step>)
    requires |steps| == 3
    ensures Exec(w, steps) == Next(Next(Next(w, steps[0]), steps[1]), steps[2])
  {
    hide Next;
    ExecTwo(Next(w, steps[0]), steps[1..]);
  }

  // ---- Conservation ----

  /** Every link ever created is still there, was deleted by an admin, or was swept. */
  ghost predicate Conserved(w: World) {
    && Links.Valid(w.table)
    && w.table.next == w.created
    && w.created == |w.table.rows| + w.removed + w.expired
  }

  /** What one step can do to the table, whatever else it does. */
  ghost predicate TableStep(w: World, s: Step, v: World) {
    match s
    case TryInsert(req, id, down) =>
      || v.table == w.table
      || (!down && req in w.pending && w.pending[req].Creating?
          && id !in w.table.rows && v.table == Create(w.table, id, w.pending[req].n, w.now).0)
    case Touch(req, at, record) =>
      v.table == w.table || (req in w.pending && w.pending[req].Serving?
                             && v.table == Links.Touch(w.table, w.pending[req].link.id, at))
    case Save(req, down) =>
      || v.table == w.table
      || (!down && req in w.pending && w.pending[req].Saving?
          && Update(w.table, w.pending[req].arg).1 == Ok(1) && v.table == Update(w.table, w.pending[req].arg).0)
    case Remove(ids, down) => v.table == w.table || v.table == DeleteAll(w.table, Elements(ids))
    case Sweep(at, down) => v.table == w.table || (at <= w.now && v.table == DeleteAll(w.table, ExpiredIds(w.table, at)))
    case _ => v.table == w.table
  }

  lemma NextTable(w: World, s: Step)
    ensures TableStep(w, s, Next(w, s))
    ensures s.TryInsert? ==> Next(w, s).created == w.created + (if Next(w, s).table == w.table then 0 else 1)
    ensures !s.TryInsert? ==> Next(w, s).created == w.created
    ensures !s.Remove? ==> Next(w, s).removed == w.removed
    ensures !s.Sweep? ==> Next(w, s).expired == w.expired
    ensures w.now <= Next(w, s).now
  {
    hide AdminForm.Submit;
    hide Update;
    UpdateCount(w, s);
  }

  /** An update changes one row or none. */
  lemma UpdateCount(w: World, s: Step)
    ensures s.Save? && s.req in w.pending && w.pending[s.req].Saving? ==>
            var r := Update(w.table, w.pending[s.req].arg).1;
            r.Ok? ==> r == Ok(0) || r == Ok(1)
  {
  }

  lemma NextConserves(w: World, s: Step)
    requires Conserved(w)
    ensures Conserved(Next(w, s))
  {
    hide AdminForm.Submit;
    hide Update;
    hide DeleteAll;
    hide CountIn;
    hide Create;
    hide Links.Touch;
    hide Links.Valid;
    hide ExpiredIds;
    hide Elements;
    NextTable(w, s);
    match s
    case TryInsert(req, id, down) =>
      if req in w.pending && w.pending[req].Creating? {
        CreateValid(w.table, id, w.pending[req].n, w.now);
      }
    case Touch(req, at, record) =>
      if req in w.pending && w.pending[req].Serving? {
        TouchOutcome(w.table, w.pending[req].link.id, at);
      }
    case Save(req, down) =>
      if req in w.pending && w.pending[req].Saving? {
        UpdateOutcome(w.table, w.pending[req].arg);
      }
    case Remove(ids, down) => DeleteOutcome(w.table, Elements(ids));
    case Sweep(at, down) => DeleteOutcome(w.table, ExpiredIds(w.table, at));
    case _ =>
  }

  lemma {:induction false} RunConserves(w: World, steps: seq<Step>)
    requires Conserved(w)
    ensures Conserved(Exec(w, steps))
    decreases |steps|
  {
    if steps != [] {
      NextConserves(w, steps[0]);
      RunConserves(Next(w, steps[0]), steps[1..]);
    }
  }

  /** The books balance after every run from an empty table, however its requests interleave and
      whichever of its statements fail. */
  lemma Conservation(now: Time, steps: seq<Step>)
    ensures var w := Exec(Init(now), steps);
            w.created == |w.table.rows| + w.removed + w.expired
  {
    RunConserves(Init(now), steps);
  }

  // ---- Rows for life ----

  /** What a row is born with and keeps. */
  datatype Birth = Birth(createdAt: Time, payeeEditable: bool, amountEditable: bool, messageEditable: bool)

  function BirthOf(l: Link): Birth {
    Birth(l.createdAt, l.payeeEditable, l.amountEditable, l.messageEditable)
  }

  ghost predicate HasRow(t: Table, serial: nat, b: Birth) {
    exists id :: id in t.rows && t.rows[id].serial == serial && BirthOf(t.rows[id].link) == b
  }

  /** Every row of `u` is a row of `t`, born the same, or was created after `t`. */
  ghost predicate Descends(t: Table, u: Table) {
    && t.next <= u.next
    && forall id :: id in u.rows && u.rows[id].serial < t.next ==>
         HasRow(t, u.rows[id].serial, BirthOf(u.rows[id].link))
  }

  lemma DescendsTrans(t: Table, u: Table, v: Table)
    requires Descends(t, u) && Descends(u, v)
    ensures Descends(t, v)
  {
    forall id | id in v.rows && v.rows[id].serial < t.next
      ensures HasRow(t, v.rows[id].serial, BirthOf(v.rows[id].link))
    {
      assert HasRow(u, v.rows[id].serial, BirthOf(v.rows[id].link));
      var i :| i in u.rows && u.rows[i].serial == v.rows[id].serial
               && BirthOf(u.rows[i].link) == BirthOf(v.rows[id].link);
      assert HasRow(t, u.rows[i].serial, BirthOf(u.rows[i].link));
    }
  }

  lemma SameRowsDescend(t: Table, u: Table)
    requires t.next <= u.next
    requires forall id :: id in u.rows && u.rows[id].serial < t.next ==>
               exists i :: i in t.rows && t.rows[i].serial == u.rows[id].serial
                           && BirthOf(t.rows[i].link) == BirthOf(u.rows[id].link)
    ensures Descends(t, u)
  {
  }

  lemma NextDescends(w: World, s: Step)
    requires Links.Valid(w.table)
    ensures Descends(w.table, Next(w, s).table)
  {
    NextTable(w, s);
    var t, u := w.table, Next(w, s).table;
    hide Next;
    forall id | id in u.rows && u.rows[id].serial < t.next
      ensures HasRow(t, u.rows[id].serial, BirthOf(u.rows[id].link))
    {
      var i := if s.Save? && s.req in w.pending && w.pending[s.req].Saving? && id == w.pending[s.req].arg.newId && id !in t.rows
               then w.pending[s.req].arg.id else id;
      assert i in t.rows && t.rows[i].serial == u.rows[id].serial && BirthOf(t.rows[i].link) == BirthOf(u.rows[id].link);
    }
  }

  /** Over every run rows keep their creation time and their editable flags, sit under at most one id,
      and only successful creates add any. */
  lemma {:induction false} RowsForLife(w: World, steps: seq<Step>)
    requires Conserved(w)
    ensures var v := Exec(w, steps);
            && Descends(w.table, v.table) && Links.Valid(v.table)
            && v.table.next - w.table.next == v.created - w.created
    decreases |steps|
  {
    RunConserves(w, steps);
    if steps == [] {
      SameRowsDescend(w.table, w.table);
    } else {
      NextConserves(w, steps[0]);
      NextDescends(w, steps[0]);
      RowsForLife(Next(w, steps[0]), steps[1..]);
      DescendsTrans(w.table, Next(w, steps[0]).table, Exec(w, steps).table);
    }
  }

  /** A row that is gone never comes back, not even through a late touch or a late save. */
  lemma GoneForGood(w: World, steps: seq<Step>, serial: nat)
    requires Conserved(w) && serial < w.table.next
    requires forall id :: id in w.table.rows ==> w.table.rows[id].serial != serial
    ensures var v := Exec(w, steps);
            forall id :: id in v.table.rows ==> v.table.rows[id].serial != serial
  {
    RowsForLife(w, steps);
    var v := Exec(w, steps);
    forall id | id in v.table.rows && v.table.rows[id].serial < w.table.next
      ensures v.table.rows[id].serial != serial
    {
      assert HasRow(w.table, v.table.rows[id].serial, BirthOf(v.table.rows[id].link));
    }
  }
}
