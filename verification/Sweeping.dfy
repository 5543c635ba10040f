/** Who can tell whether the expiry job ran. */
module Sweeping {
  import opened Wrappers
  import opened Links
  import opened Runs
  import AdminForm

  /** The run without its sweeps. */
  function Unswept(steps: seq<Step>): seq<Step> {
    if steps == [] then []
    else if steps[0].Sweep? then Unswept(steps[1..])
    else [steps[0]] + Unswept(steps[1..])
  }

  /** A link that the next sweep would delete. */
  predicate Overdue(w: World, id: string) {
    id in w.table.rows && ExpiredBy(w.table.rows[id].link, w.now)
  }

  /** A create draws the id of an overdue link, an admin's request reads one, or an edit writes over one
      or wants its id. */
  predicate Notices(w: World, s: Step) {
    match s
    case TryInsert(req, id, down) => !down && req in w.pending && w.pending[req].Creating? && Overdue(w, id)
    case Show(id, down) => !down && Overdue(w, id)
    case Open(id, down) => !down && Overdue(w, id)
    case Save(req, down) =>
      && !down && req in w.pending && w.pending[req].Saving?
      && var arg := w.pending[req].arg;
         Overdue(w, arg.id) || (arg.id in w.table.rows && arg.newId != arg.id && Overdue(w, arg.newId))
    case _ => false
  }

  predicate NeverNotices(w: World, steps: seq<Step>)
    decreases |steps|
  {
    steps == [] || (!Notices(w, steps[0]) && NeverNotices(Next(w, steps[0]), steps[1..]))
  }

  /** The swept table is the unswept one without some of its overdue links. */
  ghost predicate SameTable(sw: Table, un: Table, now: Time) {
    && sw.next == un.next
    && (forall id :: id in sw.rows ==> id in un.rows && un.rows[id] == sw.rows[id])
    && (forall id :: id in un.rows && id !in sw.rows ==> ExpiredBy(un.rows[id].link, now))
  }

  /** The swept run's visitors may have missed links that had expired. */
  predicate SamePending(sw: Pending, un: Pending, now: Time) {
    || sw == un
    || (sw.Found? && un.Found? && sw.id == un.id && sw.row.None? && un.row.Some? && ExpiredBy(un.row.value, now))
  }

  ghost predicate Same(sw: World, un: World) {
    && sw.now == un.now && sw.started == un.started && sw.created == un.created && sw.log == un.log
    && SameTable(sw.table, un.table, un.now) && SamePendings(sw, un)
  }

  ghost predicate SamePendings(sw: World, un: World) {
    && sw.pending.Keys == un.pending.Keys
    && forall req :: req in un.pending ==> SamePending(sw.pending[req], un.pending[req], un.now)
  }

  lemma BeginSame(sw: World, un: World, p: Pending, q: Pending)
    requires Same(sw, un) && SamePending(p, q, un.now)
    ensures Same(Begin(sw, p), Begin(un, q))
  {
    hide SameTable;
  }

  lemma RefuseSame(sw: World, un: World, id: string, a: Answer)
    requires Same(sw, un)
    ensures Same(Refuse(sw, id, a), Refuse(un, id, a))
  {
    hide SameTable;
  }

  lemma FinishSame(sw: World, un: World, req: nat, id: string, a: Answer)
    requires Same(sw, un)
    ensures Same(Finish(sw, req, id, a), Finish(un, req, id, a))
  {
    hide SameTable;
  }

  lemma MoveSame(sw: World, un: World, req: nat, p: Pending)
    requires Same(sw, un) && req in un.pending
    ensures Same(sw.(pending := sw.pending[req := p]), un.(pending := un.pending[req := p]))
  {
    hide SameTable;
  }

  lemma TableSame(sw: World, un: World, t: Table, u: Table)
    requires Same(sw, un) && SameTable(t, u, un.now)
    ensures Same(sw.(table := t), un.(table := u))
  {
    hide SameTable;
  }

  lemma SweepSame(sw: World, un: World, at: Time, down: bool)
    requires Same(sw, un)
    ensures Same(Next(sw, Sweep(at, down)), un)
  {
    hide Update;
    hide AdminForm.Submit;
  }

  lemma CreateSame(sw: Table, un: Table, id: string, n: NewLink, now: Time)
    requires SameTable(sw, un, now) && (id in un.rows ==> !ExpiredBy(un.rows[id].link, now))
    ensures SameTable(Create(sw, id, n, now).0, Create(un, id, n, now).0, now)
    ensures Create(sw, id, n, now).1 == Create(un, id, n, now).1
    ensures Create(un, id, n, now).1.Err? ==> Create(un, id, n, now).0 == un && Create(sw, id, n, now).0 == sw
  {
  }

  lemma InsertSame(sw: World, un: World, req: nat, id: string, down: bool)
    requires Same(sw, un) && !Notices(un, TryInsert(req, id, down))
    ensures Same(DoTryInsert(sw, req, id, down), DoTryInsert(un, req, id, down))
  {
    hide Create;
    hide SameTable;
    hide SamePending;
    if req in un.pending && un.pending[req].Creating? {
      CreatingSame(sw, un, req);
      var n, tries := un.pending[req].n, un.pending[req].tries + 1;
      FinishSame(sw, un, req, id, CreateFailed);
      FinishSame(sw, un, req, id, Created);
      MoveSame(sw, un, req, Creating(n, tries));
      if !down {
        CreateSame(sw.table, un.table, id, n, un.now);
      }
    } else {
      NotPendingSame(sw, un, req);
    }
  }

  lemma CreatingSame(sw: World, un: World, req: nat)
    requires Same(sw, un) && req in un.pending && !un.pending[req].Found?
    ensures req in sw.pending && sw.pending[req] == un.pending[req]
  {
    hide SameTable;
    assert SamePending(sw.pending[req], un.pending[req], un.now);
  }

  lemma NotPendingSame(sw: World, un: World, req: nat)
    requires Same(sw, un)
    ensures req in sw.pending <==> req in un.pending
    ensures req in un.pending ==> (sw.pending[req].Creating? <==> un.pending[req].Creating?)
    ensures req in un.pending ==> (sw.pending[req].Editing? <==> un.pending[req].Editing?)
    ensures req in un.pending ==> (sw.pending[req].Saving? <==> un.pending[req].Saving?)
  {
    hide SameTable;
    if req in un.pending {
      assert SamePending(sw.pending[req], un.pending[req], un.now);
    }
  }

  lemma ReadSame(sw: World, un: World, id: string, down: bool)
    requires Same(sw, un)
    ensures Same(DoRead(sw, id, down), DoRead(un, id, down))
  {
    RefuseSame(sw, un, id, ServerError);
    var p := Found(id, if id in sw.table.rows then Some(sw.table.rows[id].link) else None);
    var q := Found(id, if id in un.table.rows then Some(un.table.rows[id].link) else None);
    BeginSame(sw, un, p, q);
    hide Same;
  }

  lemma CheckSame(sw: World, un: World, req: nat)
    requires Same(sw, un)
    ensures Same(DoCheck(sw, req), DoCheck(un, req))
  {
    if req in un.pending && un.pending[req].Found? {
      var p := un.pending[req];
      assert SamePending(sw.pending[req], p, un.now);
      FinishSame(sw, un, req, p.id, NotFound);
      if p.row.Some? {
        MoveSame(sw, un, req, Serving(p.id, p.row.value, un.now));
      }
      assert sw.pending.Keys == un.pending.Keys && sw.now == un.now;
      hide Same;
    }
  }

  lemma TouchSame(sw: World, un: World, req: nat, at: Time, record: bool)
    requires Same(sw, un)
    ensures Same(DoTouch(sw, req, at, record), DoTouch(un, req, at, record))
  {
    if req in un.pending && un.pending[req].Serving? && at <= un.now {
      var p := un.pending[req];
      assert sw.pending[req] == p && sw.now == un.now;
      var a := Served(p.link, p.at);
      FinishSame(sw, un, req, p.id, a);
      TouchTableSame(sw.table, un.table, p.link.id, at, un.now);
      TableSame(Finish(sw, req, p.id, a), Finish(un, req, p.id, a),
                Links.Touch(sw.table, p.link.id, at), Links.Touch(un.table, p.link.id, at));
      hide Links.Touch;
      hide Same;
    }
  }

  lemma TouchTableSame(sw: Table, un: Table, id: string, at: Time, now: Time)
    requires SameTable(sw, un, now)
    ensures SameTable(Links.Touch(sw, id, at), Links.Touch(un, id, at), now)
  {
  }

  lemma TickSame(sw: World, un: World, d: nat)
    requires Same(sw, un)
    ensures Same(sw.(now := sw.now + d), un.(now := un.now + d))
  {
  }

  lemma DeleteTableSame(sw: Table, un: Table, ids: set<string>, now: Time)
    requires SameTable(sw, un, now)
    ensures SameTable(DeleteAll(sw, ids), DeleteAll(un, ids), now)
  {
  }

  lemma RemoveSame(sw: World, un: World, ids: seq<string>, down: bool)
    requires Same(sw, un)
    ensures Same(Next(sw, Remove(ids, down)), Next(un, Remove(ids, down)))
  {
    DeleteTableSame(sw.table, un.table, Elements(ids), un.now);
    hide DeleteAll;
    hide Elements;
    hide SameTable;
    hide SamePending;
  }

  lemma ShowSame(sw: World, un: World, id: string, down: bool)
    requires Same(sw, un) && !Notices(un, Show(id, down))
    ensures Same(DoShow(sw, id, down), DoShow(un, id, down))
  {
    RefuseSame(sw, un, id, ServerError);
    RefuseSame(sw, un, id, NotFound);
    if id in un.table.rows && !down {
      RefuseSame(sw, un, id, Shown(un.table.rows[id].serial, un.table.rows[id].link));
    }
    hide SamePendings;
  }

  lemma OpenSame(sw: World, un: World, id: string, down: bool)
    requires Same(sw, un) && !Notices(un, Open(id, down))
    ensures Same(DoOpen(sw, id, down), DoOpen(un, id, down))
  {
    RefuseSame(sw, un, id, ServerError);
    RefuseSame(sw, un, id, NotFound);
    if id in un.table.rows && !down {
      var p := Editing(un.table.rows[id].serial, un.table.rows[id].link);
      BeginSame(sw, un, p, p);
    }
    hide SamePendings;
  }

  lemma ValidateSame(sw: World, un: World, req: nat, form: AdminForm.Posted)
    requires Same(sw, un)
    ensures Same(DoValidate(sw, req, form), DoValidate(un, req, form))
  {
    hide AdminForm.Submit;
    hide SameTable;
    hide SamePendings;
    NotPendingSame(sw, un, req);
    if req in un.pending && un.pending[req].Editing? {
      CreatingSame(sw, un, req);
      var p := un.pending[req];
      match AdminForm.Submit(p.link, form, un.now) {
        case Err(e) => FinishSame(sw, un, req, p.link.id, BadForm(e));
        case Ok(arg) => MoveSame(sw, un, req, Saving(p.serial, p.link, arg, un.now));
      }
    }
  }

  lemma UpdateSame(sw: Table, un: Table, arg: UpdateParams, now: Time)
    requires SameTable(sw, un, now)
    requires arg.id in un.rows ==> !ExpiredBy(un.rows[arg.id].link, now)
    requires arg.id in un.rows && arg.newId != arg.id && arg.newId in un.rows ==> !ExpiredBy(un.rows[arg.newId].link, now)
    ensures Update(sw, arg).1 == Update(un, arg).1
    ensures SameTable(Update(sw, arg).0, Update(un, arg).0, now)
  {
  }

  lemma SaveSame(sw: World, un: World, req: nat, down: bool)
    requires Same(sw, un) && !Notices(un, Save(req, down))
    ensures Same(DoSave(sw, req, down), DoSave(un, req, down))
  {
    hide Update;
    hide SameTable;
    hide SamePendings;
    hide ExpiredBy;
    NotPendingSame(sw, un, req);
    if req in un.pending && un.pending[req].Saving? {
      CreatingSame(sw, un, req);
      var id, arg := un.pending[req].link.id, un.pending[req].arg;
      FinishSame(sw, un, req, id, ServerError);
      FinishSame(sw, un, req, id, Conflict);
      FinishSame(sw, un, req, id, Gone);
      FinishSame(sw, un, req, id, Saved);
      if !down {
        UpdateSame(sw.table, un.table, arg, un.now);
        TableSame(Finish(sw, req, id, Saved), Finish(un, req, id, Saved), Update(sw.table, arg).0, Update(un.table, arg).0);
      }
    }
  }

  lemma NextSame(sw: World, un: World, s: Step)
    requires Same(sw, un) && !s.Sweep? && !Notices(un, s)
    ensures Same(Next(sw, s), Next(un, s))
  {
    hide Same;
    hide Notices;
    hide DoTryInsert;
    hide DoRead;
    hide DoCheck;
    hide DoTouch;
    hide DoShow;
    hide DoOpen;
    hide DoValidate;
    hide DoSave;
    match s
    case TryInsert(req, id, down) => InsertSame(sw, un, req, id, down);
    case Read(id, down) => ReadSame(sw, un, id, down);
    case Check(req) => CheckSame(sw, un, req);
    case Touch(req, at, record) => TouchSame(sw, un, req, at, record);
    case Tick(d) => TickSame(sw, un, d);
    case Submit(n) => BeginSame(sw, un, Creating(n, 0), Creating(n, 0));
    case Show(id, down) => ShowSame(sw, un, id, down);
    case Open(id, down) => OpenSame(sw, un, id, down);
    case Validate(req, form) => ValidateSame(sw, un, req, form);
    case Save(req, down) => SaveSame(sw, un, req, down);
    case Remove(ids, down) => RemoveSame(sw, un, ids, down);
  }

  lemma {:induction false} RunSame(sw: World, un: World, steps: seq<Step>)
    requires Same(sw, un) && NeverNotices(un, Unswept(steps))
    ensures Same(Exec(sw, steps), Exec(un, Unswept(steps)))
    decreases |steps|
  {
    hide Next;
    hide Same;
    hide Notices;
    if steps != [] {
      var s := steps[0];
      if s.Sweep? {
        SweepSame(sw, un, s.at, s.down);
        RunSame(Next(sw, s), un, steps[1..]);
      } else {
        assert Unswept(steps)[1..] == Unswept(steps[1..]);
        NextSame(sw, un, s);
        RunSame(Next(sw, s), Next(un, s), steps[1..]);
      }
    }
  }

  // ---- Exactly when sweeps are invisible ----

  /** A sweep right before the step changes what is said. */
  lemma NoticedAtOnce(w: World, s: Step)
    requires Notices(w, s)
    ensures Next(Next(w, Sweep(w.now, false)), s).log != Next(w, s).log
  {
    var swept := Next(w, Sweep(w.now, false));
    SweptWorld(w);
    hide Next;
    NextIs(w, s);
    NextIs(swept, s);
    hide DeleteAll;
    hide ExpiredIds;
    NoticedDo(w, swept, s);
  }

  lemma SweptWorld(w: World)
    ensures var v := Next(w, Sweep(w.now, false));
            && v.now == w.now && v.pending == w.pending && v.started == w.started && v.log == w.log
            && forall id :: id in v.table.rows <==> id in w.table.rows && !Overdue(w, id)
  {
    hide Update;
    hide AdminForm.Submit;
  }

  lemma NoticedDo(w: World, v: World, s: Step)
    requires Notices(w, s)
    requires v.now == w.now && v.pending == w.pending && v.started == w.started && v.log == w.log
    requires forall id :: id in v.table.rows <==> id in w.table.rows && !Overdue(w, id)
    ensures s.TryInsert? ==> DoTryInsert(w, s.req, s.id, s.down).log != DoTryInsert(v, s.req, s.id, s.down).log
    ensures s.Show? ==> DoShow(w, s.id, s.down).log != DoShow(v, s.id, s.down).log
    ensures s.Open? ==> DoOpen(w, s.id, s.down).log != DoOpen(v, s.id, s.down).log
    ensures s.Save? ==> DoSave(w, s.req, s.down).log != DoSave(v, s.req, s.down).log
  {
    LastEvents(w.log);
    hide ExpiredBy;
  }

  /** Logs that go on differently are different. */
  lemma LastEvents(log: seq<Event>)
    ensures forall e :: log + [e] != log
    ensures forall e, f :: log + [e] == log + [f] ==> e == f
  {
    forall e ensures log + [e] != log {
      assert |log + [e]| == |log| + 1;
    }
    forall e, f | log + [e] == log + [f] ensures e == f {
      assert (log + [e])[|log|] == e;
    }
  }

  /** Whatever sweeps are put into a run or its beginnings, everyone is told the same. */
  ghost predicate Invisible(w: World, plain: seq<Step>) {
    forall steps :: Unswept(steps) <= plain ==> Exec(w, steps).log == Exec(w, Unswept(steps)).log
  }

  lemma {:induction false} PrefixNeverNotices(w: World, a: seq<Step>, b: seq<Step>)
    requires a <= b && NeverNotices(w, b)
    ensures NeverNotices(w, a)
    decreases |a|
  {
    hide Next;
    hide Notices;
    if a != [] {
      PrefixNeverNotices(Next(w, a[0]), a[1..], b[1..]);
    }
  }

  lemma {:induction false} UnsweptPlain(steps: seq<Step>)
    requires forall s :: s in steps ==> !s.Sweep?
    ensures Unswept(steps) == steps
  {
    if steps != [] {
      UnsweptPlain(steps[1..]);
    }
  }

  lemma {:induction false} UnsweptConcat(a: seq<Step>, b: seq<Step>)
    ensures Unswept(a + b) == Unswept(a) + Unswept(b)
  {
    if a == [] {
      assert a + b == b;
    } else {
      UnsweptConcat(a[1..], b);
      assert (a + b)[0] == a[0] && (a + b)[1..] == a[1..] + b;
    }
  }

  /** The first step that notices gives a beginning of the run and a place in it for a sweep. */
  lemma {:induction false} FindNotice(w: World, plain: seq<Step>) returns (k: nat)
    requires !NeverNotices(w, plain)
    ensures k < |plain| && Notices(Exec(w, plain[..k]), plain[k])
    decreases |plain|
  {
    hide Next;
    hide Notices;
    if Notices(w, plain[0]) {
      k := 0;
      assert plain[..0] == [];
    } else {
      var j := FindNotice(Next(w, plain[0]), plain[1..]);
      k := j + 1;
      assert plain[..k][1..] == plain[1..][..j];
    }
  }

  lemma NoticeShows(w: World, plain: seq<Step>, k: nat)
    requires (forall s :: s in plain ==> !s.Sweep?) && k < |plain| && Notices(Exec(w, plain[..k]), plain[k])
    ensures !Invisible(w, plain)
  {
    hide Next;
    hide Notices;
    var x := Exec(w, plain[..k]);
    var swept := plain[..k] + [Sweep(x.now, false), plain[k]];
    NoticedAtOnce(x, plain[k]);
    ExecTwo(x, [Sweep(x.now, false), plain[k]]);
    ExecConcat(w, plain[..k], [Sweep(x.now, false), plain[k]]);
    ExecConcat(w, plain[..k], [plain[k]]);
    assert Exec(x, [plain[k]]) == Exec(Next(x, plain[k]), [plain[k]][1..]);
    UnsweptConcat(plain[..k], [Sweep(x.now, false), plain[k]]);
    UnsweptPlain(plain[..k]);
    UnsweptPlain([plain[k]]);
    assert [Sweep(x.now, false), plain[k]][1..] == [plain[k]];
    assert plain[..k + 1] == plain[..k] + [plain[k]];
    assert Unswept(swept) == plain[..k + 1];
  }

  /** Sweeps of times that have passed, anywhere in a run, change nothing that anyone is told, exactly if
      no step of the unswept run has to do with an overdue link other than to visit or delete it. */
  lemma SweepsAreInvisible(w: World, plain: seq<Step>)
    requires forall s :: s in plain ==> !s.Sweep?
    ensures Invisible(w, plain) <==> NeverNotices(w, plain)
  {
    hide Exec;
    hide NeverNotices;
    hide Same;
    hide Notices;
    if NeverNotices(w, plain) {
      forall steps | Unswept(steps) <= plain ensures Exec(w, steps).log == Exec(w, Unswept(steps)).log {
        PrefixNeverNotices(w, Unswept(steps), plain);
        SameSelf(w);
        RunSame(w, w, steps);
        SameLog(Exec(w, steps), Exec(w, Unswept(steps)));
      }
    } else {
      var k := FindNotice(w, plain);
      NoticeShows(w, plain, k);
    }
  }

  lemma SameSelf(w: World)
    ensures Same(w, w)
  {
  }

  lemma SameLog(sw: World, un: World)
    requires Same(sw, un)
    ensures sw.log == un.log
  {
  }

  lemma CreateAtFree(w: World, id: string, n: NewLink)
    ensures var v := Exec(w, [Submit(n), TryInsert(w.started, id, false)]);
            v.log == if id in w.table.rows then w.log else w.log + [Event(w.started, id, Created)]
  {
    ExecTwo(w, [Submit(n), TryInsert(w.started, id, false)]);
    hide Exec;
    var v := Begin(w, Creating(n, 0));
    assert Next(w, Submit(n)) == v && v.table == w.table;
    assert Next(v, TryInsert(w.started, id, false)) == DoTryInsert(v, w.started, id, false);
    hide Next;
  }

  /** For instance, a create that draws the id of an overdue link succeeds after a sweep, and finds the id
      taken without one. */
  lemma ReuseIsVisible(w: World, id: string, n: NewLink)
    requires Overdue(w, id)
    ensures Exec(w, [Submit(n), TryInsert(w.started, id, false)]).log == w.log
    ensures Exec(w, [Sweep(w.now, false), Submit(n), TryInsert(w.started, id, false)]).log
            == w.log + [Event(w.started, id, Created)]
  {
    var create := [Submit(n), TryInsert(w.started, id, false)];
    var swept := Next(w, Sweep(w.now, false));
    SweptWorld(w);
    hide Next;
    CreateAtFree(w, id, n);
    CreateAtFree(swept, id, n);
    assert [Sweep(w.now, false), Submit(n), TryInsert(w.started, id, false)] == [Sweep(w.now, false)] + create;
    assert Exec(w, [Sweep(w.now, false)] + create) == Exec(swept, ([Sweep(w.now, false)] + create)[1..]);
  }
}
