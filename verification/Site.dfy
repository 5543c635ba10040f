/** The request handlers and the expiry job as code over the database (internal/web, internal/expiry). Each
    is proved to do to the site exactly what its steps do when no other request comes in between. */
module Site {
  import opened Wrappers
  import opened Links
  import opened Runs
  import AdminForm
  import CreateRequest
  import Swish
  import Text
  import Visits = Serving

  lemma FirstStep(w: World, s: Step, steps: seq<Step>)
    ensures Exec(w, [s] + steps) == Exec(Next(w, s), steps)
    ensures steps == [] ==> Exec(w, [s]) == Next(w, s)
  {
    hide Next;
    assert ([s] + steps)[1..] == steps;
  }

  // ---- The retry loop ----

  /** insert, given the ids it would draw and whether the database fails on each turn. */
  function Insert(t: Table, n: NewLink, now: Time, ids: seq<string>, down: seq<bool>): (Table, Result<Link, DbError>)
    requires |ids| == |down|
    decreases |ids|
  {
    if ids == [] then (t, Err(UniqueViolation))
    else if down[0] then (t, Err(Failure))
    else if ids[0] in t.rows then Insert(t, n, now, ids[1..], down[1..])
    else Create(t, ids[0], n, now)
  }

  /** The loop passes over this turn: the id was taken. */
  predicate Passes(t: Table, id: string, down: bool) {
    id in t.rows && !down
  }

  /** One row is added, under the first id that is free, and none is altered. Another error stops the loop
      at once, and only if every id was taken is the result a unique violation. */
  lemma {:induction false} InsertOutcome(t: Table, n: NewLink, now: Time, ids: seq<string>, down: seq<bool>, k: nat)
    requires |ids| == |down| && k <= |ids|
    requires forall i :: 0 <= i < k ==> Passes(t, ids[i], down[i])
    requires k < |ids| ==> !Passes(t, ids[k], down[k])
    ensures Insert(t, n, now, ids, down) ==
            if k == |ids| then (t, Err(UniqueViolation))
            else if down[k] then (t, Err(Failure))
            else (Table(t.rows[ids[k] := Row(t.next, LinkOf(ids[k], n, now))], t.next + 1), Ok(LinkOf(ids[k], n, now)))
    decreases k
  {
    if k > 0 {
      assert Passes(t, ids[0], down[0]);
      forall i | 0 <= i < k - 1 ensures Passes(t, ids[1..][i], down[1..][i]) {
        assert Passes(t, ids[i + 1], down[i + 1]);
      }
      InsertOutcome(t, n, now, ids[1..], down[1..], k - 1);
    }
  }

  /** The turns of the loop as steps of one request. */
  function TryAll(req: nat, ids: seq<string>, down: seq<bool>): seq<Step>
    requires |ids| == |down|
    decreases |ids|
  {
    if ids == [] then [] else [TryInsert(req, ids[0], down[0])] + TryAll(req, ids[1..], down[1..])
  }

  lemma {:induction false} AnsweredStays(w: World, req: nat, ids: seq<string>, down: seq<bool>)
    requires |ids| == |down| && req !in w.pending
    ensures Exec(w, TryAll(req, ids, down)) == w
    decreases |ids|
  {
    if ids != [] {
      var s := TryInsert(req, ids[0], down[0]);
      assert Next(w, s) == w;
      hide Next;
      assert TryAll(req, ids, down)[1..] == TryAll(req, ids[1..], down[1..]);
      AnsweredStays(w, req, ids[1..], down[1..]);
    }
  }

  /** The id that the answer to a create is about: the one that ended the loop. */
  function LastTried(t: Table, ids: seq<string>, down: seq<bool>): string
    requires |ids| == |down| > 0
    decreases |ids|
  {
    if Passes(t, ids[0], down[0]) && |ids| > 1 then LastTried(t, ids[1..], down[1..]) else ids[0]
  }

  lemma {:induction false} TryAllInserts(w: World, req: nat, n: NewLink, ids: seq<string>, down: seq<bool>)
    requires |ids| == |down| > 0
    requires |ids| <= CREATE_ATTEMPTS && req in w.pending && w.pending[req] == Creating(n, CREATE_ATTEMPTS - |ids|)
    ensures var (t, r) := Insert(w.table, n, w.now, ids, down);
            Exec(w, TryAll(req, ids, down)) ==
            Finish(w, req, LastTried(w.table, ids, down), if r.Ok? then Created else CreateFailed)
              .(table := t, created := w.created + if r.Ok? then 1 else 0)
    decreases |ids|
  {
    var v := DoTryInsert(w, req, ids[0], down[0]);
    assert Next(w, TryInsert(req, ids[0], down[0])) == v;
    hide Next;
    assert TryAll(req, ids, down)[1..] == TryAll(req, ids[1..], down[1..]);
    assert Exec(w, TryAll(req, ids, down)) == Exec(v, TryAll(req, ids[1..], down[1..]));
    if Passes(w.table, ids[0], down[0]) && |ids| > 1 {
      TryAllInserts(v, req, n, ids[1..], down[1..]);
      assert v.pending - {req} == w.pending - {req};
    } else {
      AnsweredStays(v, req, ids[1..], down[1..]);
    }
  }

  /** A create on its own: the whole loop, and what is left of the request. */
  lemma CreateSteps(w: World, n: NewLink, ids: seq<string>, down: seq<bool>)
    requires |ids| == |down| == 5 && w.pending == map[]
    ensures var (t, r) := Insert(w.table, n, w.now, ids, down);
            Exec(w, [Submit(n)] + TryAll(w.started, ids, down)) ==
            w.(table := t, created := w.created + (if r.Ok? then 1 else 0), started := w.started + 1,
               log := w.log + [Event(w.started, LastTried(w.table, ids, down), if r.Ok? then Created else CreateFailed)])
  {
    hide Exec;
    hide Insert;
    hide LastTried;
    hide TryAll;
    hide Next;
    hide Finish;
    var req, v := w.started, Begin(w, Creating(n, 0));
    FirstStep(w, Submit(n), TryAll(req, ids, down));
    SubmitBegins(w, n);
    TryAllInserts(v, req, n, ids, down);
    var (t, r) := Insert(w.table, n, w.now, ids, down);
    FinishOnly(w, Creating(n, 0), LastTried(w.table, ids, down), if r.Ok? then Created else CreateFailed, t,
               w.created + if r.Ok? then 1 else 0);
  }

  lemma FinishOnly(w: World, p: Pending, id: string, a: Answer, t: Table, created: nat)
    requires w.pending == map[]
    ensures Finish(Begin(w, p), w.started, id, a).(table := t, created := created)
            == w.(table := t, created := created, started := w.started + 1, log := w.log + [Event(w.started, id, a)])
  {
    assert w.pending[w.started := p] - {w.started} == map[];
  }

  lemma SubmitBegins(w: World, n: NewLink)
    ensures Next(w, Submit(n)) == Begin(w, Creating(n, 0))
  {
  }

  // ---- Handlers ----

  /** What a payer's app is told (payment in internal/web/web.go). */
  function PaymentOf(l: Link): Swish.Payment {
    Swish.Payment(l.payee, l.amount, AdminForm.Deref(l.description), l.payeeEditable, l.amountEditable, l.messageEditable)
  }

  const MAX_DELETE_MANY := 1000

  /** A visit: it reads the link, looks at the clock and, `d` later, records the access. */
  function Visit(req: nat, id: string, now: Time, d: nat, down: bool, record: bool): seq<Step> {
    [Read(id, down), Check(req), Tick(d), Touch(req, now + d, record)]
  }

  /** What a visitor to a link gets. */
  function VisitAnswer(t: Table, id: string, now: Time, down: bool): Answer {
    if down then ServerError
    else if id !in t.rows || Dead(t.rows[id].link, now) then NotFound
    else Served(t.rows[id].link, now)
  }

  lemma VisitSteps(w: World, id: string, d: nat, down: bool, record: bool)
    ensures var req := w.started;
            var x := DoCheck(DoRead(w, id, down), req);
            Exec(w, Visit(req, id, w.now, d, down, record)) == DoTouch(x.(now := x.now + d), req, w.now + d, record)
  {
    hide DoOpen;
    hide DoValidate;
    hide DoSave;
    hide DoTryInsert;
    hide DoRead;
    hide DoCheck;
    hide DoTouch;
    hide DoShow;
    var steps := Visit(w.started, id, w.now, d, down, record);
    ExecTwo(w, steps[..2]);
    ExecTwo(Next(Next(w, steps[0]), steps[1]), steps[2..]);
    assert steps == steps[..2] + steps[2..];
    ExecConcat(w, steps[..2], steps[2..]);
    hide Exec;
  }

  lemma VisitOutcome(w: World, id: string, d: nat, down: bool, record: bool)
    requires w.pending == map[]
    ensures var a := VisitAnswer(w.table, id, w.now, down);
            Exec(w, Visit(w.started, id, w.now, d, down, record)) ==
            w.(now := w.now + d, started := w.started + 1, log := w.log + [Event(w.started, id, a)],
               table := if a.Served? && record then Links.Touch(w.table, a.link.id, w.now + d) else w.table)
  {
    var req := w.started;
    VisitSteps(w, id, d, down, record);
    hide Exec;
    hide Links.Touch;
    var v := DoRead(w, id, down);
    var x := DoCheck(v, req);
    assert w.pending - {req} == map[] && v.pending - {req} == map[] && x.pending - {req} == map[];
  }

  /** Who is to be paid: a Swish number as it is, another number as the phone library formats it. */
  function PayeeOf(phone: string, format: CreateRequest.PhoneFormat): string {
    if |phone| == 10 && phone[..3] == "123" && forall c :: c in phone ==> '0' <= c <= '9' then phone
    else match format(phone) case None => "" case Some(payee) => payee
  }

  /** The payment that a create request asks for. */
  function Requested(req: CreateRequest.CreateRequest, format: CreateRequest.PhoneFormat): Swish.Payment
    requires CreateRequest.Acceptable(req, format)
  {
    Swish.Payment(
      PayeeOf(req.phone.value, format),
      req.amount.value,
      if req.message.Some? && !Text.Blank(req.message.value) then req.message.value else "",
      req.payeeEditable == Some(true), req.amountEditable == Some(true), req.messageEditable != Some(false))
  }

  lemma ValidatedPayment(req: CreateRequest.CreateRequest, format: CreateRequest.PhoneFormat, id: string, now: Time)
    requires CreateRequest.Validate(req, format, now).Ok?
    ensures CreateRequest.Acceptable(req, format)
    ensures PaymentOf(LinkOf(id, CreateRequest.Validate(req, format, now).value, now)) == Requested(req, format)
  {
    CreateRequest.ValidateAccepts(req, format, now);
    var phone := req.phone.value;
    CreateRequest.PayeeIs(phone, format, CreateRequest.Validate(req, format, now).value.payee);
    hide CreateRequest.IsSwishNumber;
    hide Text.Blank;
    hide CreateRequest.ExpiresOn;
  }

  /** From request to payment. A link made from a create request is served, exactly until the lifetime
      that was asked for is over, with a Swish link from which every app reads the payment that was
      asked for. */
  lemma CreatedLinkPays(req: CreateRequest.CreateRequest, format: CreateRequest.PhoneFormat,
                        t: Table, id: string, now: Time, later: Time, form: bool)
    requires CreateRequest.Validate(req, format, now).Ok? && id !in t.rows
    ensures CreateRequest.Acceptable(req, format)
    ensures var u := Create(t, id, CreateRequest.Validate(req, format, now).value, now).0;
            var life := CreateRequest.Lifetime(req.expireAfterSeconds);
            match VisitAnswer(u, id, later, false)
            case NotFound => life.Some? && later >= now + life.value
            case Served(l, _) =>
              && (life.Some? ==> later < now + life.value)
              && Swish.ReadURI(Swish.URI(PaymentOf(l)), form) == Some(Requested(req, format))
            case _ => false
  {
    var n := CreateRequest.Validate(req, format, now).value;
    ValidatedPayment(req, format, id, now);
    Swish.UriRoundTrip(PaymentOf(LinkOf(id, n, now)), form);
    hide PaymentOf;
    hide Swish.URI;
    hide Swish.ReadURI;
    hide Requested;
    hide CreateRequest.Acceptable;
    LifetimeIsKept(req, format, now);
  }

  lemma LifetimeIsKept(req: CreateRequest.CreateRequest, format: CreateRequest.PhoneFormat, now: Time)
    requires CreateRequest.Validate(req, format, now).Ok?
    ensures var life := CreateRequest.Lifetime(req.expireAfterSeconds);
            CreateRequest.Validate(req, format, now).value.expiresOn ==
            if life.Some? then Some(now + life.value) else None
  {
    hide CreateRequest.IsSwishNumber;
    hide Text.Blank;
  }

  lemma PaymentOfSame(r: Row, s: Row)
    requires Visits.SameButAccess(r, s)
    ensures s.serial == r.serial && PaymentOf(s.link) == PaymentOf(r.link) && s.link.expiresOn == r.link.expiresOn
  {
  }

  lemma TurnAdds(w: World, r: nat, id: string)
    requires r in w.pending && w.pending[r].Creating? && id !in w.table.rows
    ensures Next(w, TryInsert(r, id, false)).table == Create(w.table, id, w.pending[r].n, w.now).0
  {
    hide AdminForm.Submit;
    hide Update;
  }

  lemma PaymentAnywhen(req: CreateRequest.CreateRequest, format: CreateRequest.PhoneFormat, id: string,
                       submitted: Time, now: Time)
    requires CreateRequest.Validate(req, format, submitted).Ok?
    ensures CreateRequest.Acceptable(req, format)
    ensures PaymentOf(LinkOf(id, CreateRequest.Validate(req, format, submitted).value, now)) == Requested(req, format)
  {
    ValidatedPayment(req, format, id, submitted);
    hide CreateRequest.Validate;
    hide CreateRequest.Acceptable;
    hide Requested;
  }

  /** The same over whole runs: from the turn on that creates the link, in every run in which no admin
      deletes or edits it. Until its lifetime is over every visit is served the payment that was asked for,
      and from then on no visit is served this link, though a new one may take the id. */
  lemma CreatedLinkPaysOn(req: CreateRequest.CreateRequest, format: CreateRequest.PhoneFormat, submitted: Time,
                          w: World, r: nat, id: string, steps: seq<Step>, form: bool)
    requires CreateRequest.Validate(req, format, submitted).Ok? && Conserved(w) && id !in w.table.rows
    requires r in w.pending && w.pending[r].Creating?
             && w.pending[r].n == CreateRequest.Validate(req, format, submitted).value
    requires Visits.NeverDisturbed(Next(w, TryInsert(r, id, false)), steps, id)
    ensures CreateRequest.Acceptable(req, format)
    ensures var v := Exec(Next(w, TryInsert(r, id, false)), steps);
            var life, a := CreateRequest.Lifetime(req.expireAfterSeconds), VisitAnswer(v.table, id, v.now, false);
            var still := id in v.table.rows && v.table.rows[id].serial == w.table.next;
            if life.None? || v.now < submitted + life.value
            then still && a == Served(v.table.rows[id].link, v.now)
                 && Swish.ReadURI(Swish.URI(PaymentOf(v.table.rows[id].link)), form) == Some(Requested(req, format))
            else still ==> a == NotFound
  {
    hide CreateRequest.Validate;
    hide CreateRequest.Acceptable;
    hide CreateRequest.Lifetime;
    hide Requested;
    hide PaymentOf;
    hide Swish.URI;
    hide Swish.ReadURI;
    hide Next;
    hide Exec;
    hide Conserved;
    hide Visits.SameButAccess;
    hide Visits.NeverDisturbed;
    var n := w.pending[r].n;
    var v := Next(w, TryInsert(r, id, false));
    var x := Exec(v, steps);
    NextConserves(w, TryInsert(r, id, false));
    TurnAdds(w, r, id);
    PaymentAnywhen(req, format, id, submitted, w.now);
    LifetimeIsKept(req, format, submitted);
    Swish.UriRoundTrip(Requested(req, format), form);
    Visits.LinkStaysOrGoes(v, steps, id);
    if !ExpiredBy(v.table.rows[id].link, x.now) {
      Visits.LiveLinkStays(v, steps, id);
    }
    if id in x.table.rows && Visits.SameButAccess(v.table.rows[id], x.table.rows[id]) {
      PaymentOfSame(v.table.rows[id], x.table.rows[id]);
    }
  }

  /** An edit: it reads the link, checks the form and writes. */
  function Edit(req: nat, id: string, form: AdminForm.Posted, readDown: bool, writeDown: bool): seq<Step> {
    [Open(id, readDown), Validate(req, form), Save(req, writeDown)]
  }

  /** What an edit does that nothing comes in between of. */
  function EditResult(t: Table, id: string, form: AdminForm.Posted, now: Time, readDown: bool, writeDown: bool)
    : (Table, Answer)
  {
    if readDown then (t, ServerError)
    else if id !in t.rows then (t, NotFound)
    else
      match AdminForm.Submit(t.rows[id].link, form, now)
      case Err(e) => (t, BadForm(e))
      case Ok(arg) =>
        if writeDown then (t, ServerError) else
        match Update(t, arg)
        case (_, Err(_)) => (t, Conflict)
        case (u, Ok(n)) => if n == 0 then (t, Gone) else (u, Saved)
  }

  /** The only way for an update to fail is that the id is taken. */
  lemma UpdateFails(t: Table, arg: UpdateParams)
    ensures var (u, r) := Update(t, arg);
            (r.Err? ==> r == Err(UniqueViolation)) && (r.Err? || r == Ok(0) ==> u == t)
  {
  }

  /** The rest of an edit, once it has read its link. */
  lemma EditTail(w: World, req: nat, row: Row, form: AdminForm.Posted, down: bool)
    requires w.pending == map[req := Editing(row.serial, row.link)]
    requires row.link.id in w.table.rows && w.table.rows[row.link.id] == row
    ensures var (t, a) := EditResult(w.table, row.link.id, form, w.now, false, down);
            DoSave(DoValidate(w, req, form), req, down) ==
            w.(log := w.log + [Event(req, row.link.id, a)], pending := map[], table := t)
  {
    hide AdminForm.Submit;
    hide Update;
    assert map[req := Editing(row.serial, row.link)] - {req} == map[];
    if AdminForm.Submit(row.link, form, w.now).Ok? {
      var p := Saving(row.serial, row.link, AdminForm.Submit(row.link, form, w.now).value, w.now);
      assert w.pending[req := p] == map[req := p];
      assert map[req := p] - {req} == map[];
    }
  }

  lemma EditSteps(w: World, id: string, form: AdminForm.Posted, readDown: bool, writeDown: bool)
    ensures var req, v := w.started, DoOpen(w, id, readDown);
            Exec(w, Edit(req, id, form, readDown, writeDown)) == DoSave(DoValidate(v, req, form), req, writeDown)
  {
    hide DoOpen;
    hide DoValidate;
    hide DoSave;
    hide DoTryInsert;
    hide DoRead;
    hide DoCheck;
    hide DoTouch;
    hide DoShow;
    ExecThree(w, Edit(w.started, id, form, readDown, writeDown));
    hide Exec;
  }

  lemma EditOutcome(w: World, id: string, form: AdminForm.Posted, readDown: bool, writeDown: bool)
    requires Links.Valid(w.table) && w.pending == map[]
    ensures var (t, a) := EditResult(w.table, id, form, w.now, readDown, writeDown);
            Exec(w, Edit(w.started, id, form, readDown, writeDown)) ==
            w.(started := w.started + 1, log := w.log + [Event(w.started, id, a)], table := t)
  {
    var req, v := w.started, DoOpen(w, id, readDown);
    EditSteps(w, id, form, readDown, writeDown);
    hide Exec;
    hide Next;
    if id in w.table.rows && !readDown {
      EditTail(v, req, w.table.rows[id], form, writeDown);
      hide DoValidate;
      hide DoSave;
    }
    hide AdminForm.Submit;
    hide Update;
  }

  lemma ShowStep(w: World, id: string, down: bool)
    ensures Exec(w, [Show(id, down)]) ==
            w.(started := w.started + 1,
               log := w.log + [Event(w.started, id, if down then ServerError else if id !in w.table.rows then NotFound
                                                    else Shown(w.table.rows[id].serial, w.table.rows[id].link))])
  {
    hide Exec;
    hide AdminForm.Submit;
    hide Update;
    hide DoTryInsert;
    hide DoRead;
    hide DoCheck;
    hide DoTouch;
    hide DoOpen;
    hide DoValidate;
    hide DoSave;
    FirstStep(w, Show(id, down), []);
  }

  lemma RemoveStep(w: World, ids: seq<string>, down: bool)
    ensures Exec(w, [Remove(ids, down)]) ==
            if down then w
            else w.(table := DeleteAll(w.table, Elements(ids)), removed := w.removed + CountIn(w.table, Elements(ids)))
  {
    hide DeleteAll;
    hide Elements;
    hide CountIn;
    hide Exec;
    hide AdminForm.Submit;
    hide Update;
    hide DoTryInsert;
    hide DoRead;
    hide DoCheck;
    hide DoTouch;
    hide DoShow;
    hide DoOpen;
    hide DoValidate;
    hide DoSave;
    FirstStep(w, Remove(ids, down), []);
  }

  lemma SweepStep(w: World, down: bool)
    ensures Exec(w, [Step.Sweep(w.now, down)]) ==
            if down then w
            else w.(table := DeleteAll(w.table, ExpiredIds(w.table, w.now)),
                    expired := w.expired + CountIn(w.table, ExpiredIds(w.table, w.now)))
  {
    hide DeleteAll;
    hide ExpiredIds;
    hide CountIn;
    hide Exec;
    hide AdminForm.Submit;
    hide Update;
    hide DoTryInsert;
    hide DoRead;
    hide DoCheck;
    hide DoTouch;
    hide DoShow;
    hide DoOpen;
    hide DoValidate;
    hide DoSave;
    FirstStep(w, Step.Sweep(w.now, down), []);
  }

  lemma BooksBalance(w: World, steps: seq<Step>)
    requires Conserved(w.(now := 0))
    ensures Conserved(Exec(w, steps).(now := 0))
  {
    RunConserves(w, steps);
  }

  class Server {
    const db: LinkTable
    var created: nat
    var failed: nat
    var expired: nat
    ghost var removed: nat
    ghost var started: nat
    ghost var log: seq<Event>

    constructor (db: LinkTable)
      ensures this.db == db && failed == 0 && (db.View() == Table(map[], 0) ==> Valid())
      ensures db.View() == Table(map[], 0) ==> forall now :: View(now) == Init(now)
    {
      this.db := db;
      created, failed, expired := 0, 0, 0;
      removed, started, log := 0, 0, [];
    }

    /** The site between requests. */
    ghost function View(now: Time): World
      reads this, db
    {
      World(now, db.View(), map[], started, created, removed, expired, log)
    }

    /** The books balance. */
    ghost predicate Valid()
      reads this, db
    {
      Conserved(View(0))
    }

    lemma ValidTable()
      requires Valid()
      ensures Links.Valid(db.View())
      ensures forall id :: id in db.rows ==> db.rows[id].link.id == id
    {
    }

    method InsertLink(n: NewLink, ids: seq<string>, now: Time, down: seq<bool>) returns (r: Result<Link, DbError>)
      requires |ids| == |down| == 5
      modifies db
      ensures (db.View(), r) == Insert(old(db.View()), n, now, ids, down)
    {
      r := Err(UniqueViolation);
      ghost var before := db.View();
      for i := 0 to CREATE_ATTEMPTS
        invariant db.View() == before && r == Err(UniqueViolation)
        invariant Insert(before, n, now, ids, down) == Insert(before, n, now, ids[i..], down[i..])
      {
        r := db.CreateSwosh(ids[i], n, now, down[i]);
        assert ids[i..][1..] == ids[i + 1..] && down[i..][1..] == down[i + 1..];
        if r != Err(UniqueViolation) {
          return;
        }
      }
    }

    /** POST /api/create, once the request has passed validation. */
    method CreateLink(n: NewLink, ids: seq<string>, now: Time, down: seq<bool>) returns (r: Result<Link, DbError>)
      requires |ids| == |down| == 5
      requires Valid()
      modifies this, db
      ensures Valid()
      ensures View(now) == Exec(old(View(now)), [Submit(n)] + TryAll(old(started), ids, down))
      ensures r == Insert(old(db.View()), n, now, ids, down).1
      ensures failed == old(failed) + if r.Ok? then 0 else 1
    {
      hide Conserved;
      hide Exec;
      hide Next;
      hide Insert;
      BooksBalance(View(now), [Submit(n)] + TryAll(started, ids, down));
      CreateSteps(View(now), n, ids, down);
      ghost var tried := LastTried(db.View(), ids, down);
      r := InsertLink(n, ids, now, down);
      log := log + [Event(started, tried, if r.Ok? then Created else CreateFailed)];
      started := started + 1;
      if r.Ok? {
        created := created + 1;
      } else {
        failed := failed + 1;
      }
    }

    /** POST /api/create. */
    method Create(req: CreateRequest.CreateRequest, format: CreateRequest.PhoneFormat,
                  ids: seq<string>, now: Time, down: seq<bool>) returns (r: Option<Link>)
      requires |ids| == |down| == 5
      requires Valid()
      modifies this, db
      ensures Valid()
      ensures match CreateRequest.Validate(req, format, now)
              case Err(_) => r == None && View(now) == old(View(now))
              case Ok(n) =>
                && View(now) == Exec(old(View(now)), [Submit(n)] + TryAll(old(started), ids, down))
                && r == (match Insert(old(db.View()), n, now, ids, down).1 case Ok(l) => Some(l) case Err(_) => None)
      ensures failed == old(failed) + if r.Some? then 0 else 1
    {
      hide CreateRequest.Validate;
      hide Exec;
      hide Insert;
      match CreateRequest.Validate(req, format, now) {
        case Err(_) =>
          failed := failed + 1;
          r := None;
        case Ok(n) =>
          var link := CreateLink(n, ids, now, down);
          r := match link case Ok(l) => Some(l) case Err(_) => None;
      }
    }

    /** lookup. An admin's visits are not recorded, nor are those on which the database fails to. */
    method Lookup(id: string, now: Time, d: nat, down: bool, admin: bool, touchDown: bool) returns (a: Answer)
      requires Valid()
      modifies this, db
      ensures Valid() && failed == old(failed)
      ensures a == VisitAnswer(old(db.View()), id, now, down)
      ensures View(now + d) == Exec(old(View(now)), Visit(old(started), id, now, d, down, !admin && !touchDown))
    {
      hide Conserved;
      hide Exec;
      hide Next;
      hide Links.Touch;
      BooksBalance(View(now), Visit(started, id, now, d, down, !admin && !touchDown));
      VisitOutcome(View(now), id, d, down, !admin && !touchDown);
      var sw := db.GetSwosh(id, down);
      match sw {
        case Err(NoRows) => a := NotFound;
        case Err(_) => a := ServerError;
        case Ok(link) =>
          if link.expiresOn.Some? && link.expiresOn.value <= now {
            a := NotFound;
          } else {
            if !admin {
              var ok := db.TouchSwosh(link.id, now + d, touchDown);
            }
            a := Served(link, now);
          }
      }
      log := log + [Event(started, id, a)];
      started := started + 1;
    }

    /** GET /{id}/redir: where the visitor is sent. */
    method Redirect(id: string, now: Time, d: nat, down: bool, admin: bool, touchDown: bool)
      returns (location: Option<string>)
      requires Valid()
      modifies this, db
      ensures Valid() && failed == old(failed)
      ensures View(now + d) == Exec(old(View(now)), Visit(old(started), id, now, d, down, !admin && !touchDown))
      ensures match VisitAnswer(old(db.View()), id, now, down)
              case Served(l, _) =>
                && location == Some(Swish.URI(PaymentOf(l)))
                && forall form :: Swish.ReadURI(location.value, form) == Some(PaymentOf(l))
              case _ => location == None
    {
      hide Exec;
      var a := Lookup(id, now, d, down, admin, touchDown);
      if a.Served? {
        var uri := Swish.BuildURI(PaymentOf(a.link));
        location := Some(uri);
        forall form ensures Swish.ReadURI(uri, form) == Some(PaymentOf(a.link)) {
          Swish.UriRoundTrip(PaymentOf(a.link), form);
        }
      } else {
        location := None;
      }
    }

    /** GET /admin/{id}: the page with the link's form. */
    method AdminSingle(id: string, now: Time, down: bool) returns (r: Result<Link, DbError>)
      requires Valid()
      modifies this
      ensures Valid() && failed == old(failed) && db.View() == old(db.View())
      ensures View(now) == Exec(old(View(now)), [Show(id, down)])
      ensures r == if down then Err(Failure) else Get(db.View(), id)
    {
      hide Conserved;
      hide Exec;
      hide Next;
      BooksBalance(View(now), [Show(id, down)]);
      ShowStep(View(now), id, down);
      r := db.GetSwosh(id, down);
      log := log + [Event(started, id, if down then ServerError else if id !in db.rows then NotFound
                                       else Shown(db.rows[id].serial, db.rows[id].link))];
      started := started + 1;
    }

    /** DELETE /admin/{id}. */
    method AdminDelete(id: string, now: Time, down: bool)
      requires Valid()
      modifies this, db
      ensures Valid() && failed == old(failed)
      ensures View(now) == Exec(old(View(now)), [Remove([id], down)])
    {
      hide Conserved;
      hide Exec;
      hide Next;
      hide DeleteAll;
      hide CountIn;
      BooksBalance(View(now), [Remove([id], down)]);
      RemoveStep(View(now), [id], down);
      assert Elements([id]) == {id};
      var n := db.DeleteSwosh(id, down);
      removed := removed + if n.Ok? then n.value else 0;
    }

    /** DELETE /admin. Tells whether the request was well formed and the database answered. */
    method AdminDeleteMany(ids: seq<string>, now: Time, down: bool) returns (ok: bool)
      requires Valid()
      modifies this, db
      ensures Valid() && failed == old(failed)
      ensures ok <==> 1 <= |ids| <= 1000 && !down
      ensures View(now) == if ok then Exec(old(View(now)), [Remove(ids, false)]) else old(View(now))
    {
      hide Conserved;
      hide Exec;
      hide Next;
      hide DeleteAll;
      hide CountIn;
      hide NoDuplicates;
      BooksBalance(View(now), [Remove(ids, down)]);
      if |ids| == 0 || |ids| > MAX_DELETE_MANY {
        return false;
      }
      RemoveStep(View(now), ids, down);
      var deleted := db.DeleteSwoshes(ids, down);
      if deleted.Err? {
        return false;
      }
      CountDeleted(old(db.View()), Elements(ids), deleted.value);
      removed := removed + |deleted.value|;
      ok := true;
    }

    /** One sweep of the expiry job, which adds what it deleted to expired_links_total. */
    method Sweep(now: Time, down: bool)
      requires Valid()
      modifies this, db
      ensures Valid() && failed == old(failed)
      ensures forall id :: id in db.rows <==>
                id in old(db.rows)
                && (down || old(db.rows)[id].link.expiresOn.None? || old(db.rows)[id].link.expiresOn.value >= now)
      ensures View(now) == Exec(old(View(now)), [Step.Sweep(now, down)])
    {
      hide Conserved;
      hide Exec;
      hide Next;
      hide DeleteAll;
      hide CountIn;
      hide ExpiredIds;
      hide NoDuplicates;
      BooksBalance(View(now), [Step.Sweep(now, down)]);
      SweepStep(View(now), down);
      var ids := db.DeleteExpiredSwoshes(now, down);
      if ids.Ok? {
        ExpiredAreRows(old(db.View()), now);
        CountDeleted(old(db.View()), ExpiredIds(old(db.View()), now), ids.value);
        expired := expired + |ids.value|;
      }
    }

    /** adminUpdate after it has read the link. */
    method EditLink(link: Link, form: AdminForm.Posted, now: Time, down: bool) returns (a: Answer)
      requires link.id in db.rows && db.rows[link.id].link == link
      modifies db
      ensures (db.View(), a) == EditResult(old(db.View()), link.id, form, now, false, down)
    {
      hide AdminForm.Submit;
      hide Update;
      match AdminForm.Submit(link, form, now) {
        case Err(e) => a := BadForm(e);
        case Ok(arg) =>
          UpdateFails(db.View(), arg);
          var n := db.UpdateSwosh(arg, down);
          a := match n
               case Err(UniqueViolation) => Conflict
               case Err(_) => ServerError
               case Ok(n) => if n == 0 then Gone else Saved;
      }
    }

    /** POST /admin/{id}. */
    method AdminUpdate(id: string, form: AdminForm.Posted, now: Time, readDown: bool, writeDown: bool)
      returns (a: Answer)
      requires Valid()
      modifies this, db
      ensures Valid() && failed == old(failed)
      ensures View(now) == Exec(old(View(now)), Edit(old(started), id, form, readDown, writeDown))
      ensures a == EditResult(old(db.View()), id, form, now, readDown, writeDown).1
    {
      hide AdminForm.Submit;
      hide Exec;
      hide Next;
      hide Update;
      ValidTable();
      hide Links.Valid;
      hide Conserved;
      BooksBalance(View(now), Edit(started, id, form, readDown, writeDown));
      EditOutcome(View(now), id, form, readDown, writeDown);
      var sw := db.GetSwosh(id, readDown);
      match sw {
        case Err(NoRows) => a := NotFound;
        case Err(_) => a := ServerError;
        case Ok(link) => a := EditLink(link, form, now, writeDown);
      }
      log := log + [Event(started, id, a)];
      started := started + 1;
    }
  }
}
