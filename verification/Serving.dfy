/** What visitors and admins are told over whole runs: expired links stay dark, edits are all or nothing. */
module Serving {
  import opened Wrappers
  import opened Links
  import opened Runs
  import AdminForm
  import LinkIds

  // ---- Requests ----

  predicate PendingOk(p: Pending, now: Time) {
    match p
    case Creating(_, tries) => tries < CREATE_ATTEMPTS
    case Found(id, row) => row.Some? ==> row.value.id == id
    case Serving(id, l, at) => l.id == id && at <= now && !Dead(l, at)
    case Editing(_, _) => true
    case Saving(_, l, arg, at) =>
      && at <= now && arg.id == l.id && LinkIds.AllowedID(arg.newId)
      && (arg.expiresOn.None? || arg.expiresOn == l.expiresOn || arg.expiresOn.value > at)
  }

  /** A served link was alive when its visitor's request looked at the clock, and it is the one asked for. */
  predicate EventOk(e: Event, now: Time) {
    e.answer.Served? ==> e.answer.link.id == e.id && e.answer.at <= now && !Dead(e.answer.link, e.answer.at)
  }

  ghost predicate RequestsOk(w: World) {
    && Links.Valid(w.table)
    && (forall req :: req in w.pending ==> req < w.started && PendingOk(w.pending[req], w.now))
    && (forall e :: e in w.log ==> e.req < w.started && EventOk(e, w.now))
  }

  lemma LaterIsFine(p: Pending, now: Time, later: Time)
    requires PendingOk(p, now) && now <= later
    ensures PendingOk(p, later)
  {
    hide LinkIds.AllowedID;
  }

  /** How a step changes what is pending: it starts one request, moves one on, or ends one. */
  ghost predicate PendingStep(w: World, v: World) {
    && w.started <= v.started && w.now <= v.now
    && forall req :: req in v.pending ==>
         || (req in w.pending && v.pending[req] == w.pending[req])
         || (req == w.started && v.started == w.started + 1 && PendingOk(v.pending[req], v.now))
         || (req in w.pending && PendingOk(v.pending[req], v.now))
  }

  lemma StepPending(w: World, s: Step)
    requires RequestsOk(w)
    ensures PendingStep(w, Next(w, s))
  {
    hide Create;
    hide Links.Touch;
    hide DeleteAll;
    hide ExpiredIds;
    hide CountIn;
    hide Elements;
    hide LinkIds.AllowedID;
    hide Update;
    hide AdminForm.Submit;
    if s.Validate? && s.req in w.pending && w.pending[s.req].Editing?
       && AdminForm.Submit(w.pending[s.req].link, s.form, w.now).Ok? {
      AdminForm.AcceptedEdit(w.pending[s.req].link, s.form, w.now);
    }
  }

  ghost predicate LogStep(w: World, v: World) {
    || (v.log == w.log)
    || (|v.log| == |w.log| + 1 && v.log[..|w.log|] == w.log
        && var e := v.log[|w.log|];
           e.req < v.started && EventOk(e, v.now))
  }

  lemma StepLog(w: World, s: Step)
    requires RequestsOk(w)
    ensures LogStep(w, Next(w, s))
  {
    hide Create;
    hide Links.Touch;
    hide Links.Valid;
    hide DeleteAll;
    hide ExpiredIds;
    hide CountIn;
    hide Elements;
    hide LinkIds.AllowedID;
    hide Update;
    hide AdminForm.Submit;
    var v := Next(w, s);
    if v.log != w.log {
      assert v.log[..|w.log|] == w.log;
    }
  }

  lemma PendingStays(w: World, v: World)
    requires RequestsOk(w) && PendingStep(w, v)
    ensures forall req :: req in v.pending ==> req < v.started && PendingOk(v.pending[req], v.now)
  {
    forall req | req in v.pending ensures req < v.started && PendingOk(v.pending[req], v.now) {
      if req in w.pending && v.pending[req] == w.pending[req] {
        LaterIsFine(w.pending[req], w.now, v.now);
      }
      hide PendingOk;
    }
  }

  lemma LogStays(w: World, v: World)
    requires RequestsOk(w) && LogStep(w, v) && w.started <= v.started && w.now <= v.now
    ensures forall e :: e in v.log ==> e.req < v.started && EventOk(e, v.now)
  {
    forall e | e in v.log ensures e.req < v.started && EventOk(e, v.now) {
      if e in w.log {
        EventLater(e, w.now, v.now);
      } else {
        assert e == v.log[|w.log|];
      }
      hide EventOk;
    }
  }

  lemma NextRequestsOk(w: World, s: Step)
    requires RequestsOk(w) && Conserved(w)
    ensures RequestsOk(Next(w, s))
  {
    hide Next;
    hide PendingOk;
    hide EventOk;
    NextConserves(w, s);
    StepPending(w, s);
    StepLog(w, s);
    PendingStays(w, Next(w, s));
    LogStays(w, Next(w, s));
  }

  lemma EventLater(e: Event, now: Time, later: Time)
    requires EventOk(e, now) && now <= later
    ensures EventOk(e, later)
  {
  }

  lemma {:induction false} RunRequestsOk(w: World, steps: seq<Step>)
    requires RequestsOk(w) && Conserved(w)
    ensures RequestsOk(Exec(w, steps)) && Conserved(Exec(w, steps))
    decreases |steps|
  {
    hide Next;
    if steps != [] {
      NextRequestsOk(w, steps[0]);
      NextConserves(w, steps[0]);
      RunRequestsOk(Next(w, steps[0]), steps[1..]);
    }
  }

  // ---- Where an answer comes from ----

  /** The state after the first `i` steps. */
  function After(w: World, steps: seq<Step>, i: nat): World
    requires i <= |steps|
  {
    Exec(w, steps[..i])
  }

  /** Step `i` is the read of request `req`, which starts with it, and finds this. */
  predicate ReadAt(w: World, steps: seq<Step>, i: nat, req: nat, id: string, row: Option<Link>) {
    && i < |steps| && steps[i] == Read(id, false)
    && var u := After(w, steps, i);
       u.started == req && row == if id in u.table.rows then Some(u.table.rows[id].link) else None
  }

  /** Step `j` is the request's look at the clock, which shows `at`. */
  predicate CheckedAt(w: World, steps: seq<Step>, j: nat, req: nat, at: Time) {
    j < |steps| && steps[j] == Check(req) && After(w, steps, j).now == at
  }

  /** Step `k` answers the request. */
  predicate AnsweredAt(w: World, steps: seq<Step>, k: nat, e: Event) {
    && k < |steps| && steps[k].Touch? && steps[k].req == e.req
    && After(w, steps, k + 1).log == After(w, steps, k).log + [e]
  }

  ghost predicate ReadBefore(w: World, steps: seq<Step>, req: nat, id: string, row: Option<Link>) {
    exists i: nat :: ReadAt(w, steps, i, req, id, row)
  }

  ghost predicate CheckedBefore(w: World, steps: seq<Step>, req: nat, id: string, l: Link, at: Time) {
    exists i: nat, j: nat :: i < j && ReadAt(w, steps, i, req, id, Some(l)) && CheckedAt(w, steps, j, req, at)
  }

  ghost predicate AnsweredBefore(w: World, steps: seq<Step>, e: Event)
    requires e.answer.Served?
  {
    exists i: nat, j: nat, k: nat :: i < j < k && ReadAt(w, steps, i, e.req, e.id, Some(e.answer.link))
      && CheckedAt(w, steps, j, e.req, e.answer.at) && AnsweredAt(w, steps, k, e)
  }

  /** What a pending visit knows has been read and checked in the run. */
  ghost predicate PendingTraced(w: World, steps: seq<Step>, req: nat, p: Pending) {
    match p
    case Found(id, row) => ReadBefore(w, steps, req, id, row)
    case Serving(id, l, at) => CheckedBefore(w, steps, req, id, l, at)
    case _ => true
  }

  ghost predicate Traced(w: World, steps: seq<Step>) {
    var v := Exec(w, steps);
    && (forall req :: req in v.pending ==> PendingTraced(w, steps, req, v.pending[req]))
    && (forall e :: e in v.log && e.answer.Served? ==> AnsweredBefore(w, steps, e))
  }

  lemma AfterLonger(w: World, steps: seq<Step>, s: Step, i: nat)
    requires i <= |steps|
    ensures After(w, steps + [s], i) == After(w, steps, i)
  {
    assert (steps + [s])[..i] == steps[..i];
  }

  lemma ReadLonger(w: World, steps: seq<Step>, s: Step, i: nat, req: nat, id: string, row: Option<Link>)
    requires ReadAt(w, steps, i, req, id, row)
    ensures ReadAt(w, steps + [s], i, req, id, row)
  {
    hide Exec;
    AfterLonger(w, steps, s, i);
  }

  lemma CheckLonger(w: World, steps: seq<Step>, s: Step, j: nat, req: nat, at: Time)
    requires CheckedAt(w, steps, j, req, at)
    ensures CheckedAt(w, steps + [s], j, req, at)
  {
    hide Exec;
    AfterLonger(w, steps, s, j);
  }

  lemma AnswerLonger(w: World, steps: seq<Step>, s: Step, k: nat, e: Event)
    requires AnsweredAt(w, steps, k, e)
    ensures AnsweredAt(w, steps + [s], k, e)
  {
    hide Exec;
    AfterLonger(w, steps, s, k);
    AfterLonger(w, steps, s, k + 1);
  }

  lemma PendingLonger(w: World, steps: seq<Step>, s: Step, req: nat, p: Pending)
    requires PendingTraced(w, steps, req, p)
    ensures PendingTraced(w, steps + [s], req, p)
  {
    hide ReadAt;
    hide CheckedAt;
    match p
    case Found(id, row) =>
      var i: nat :| ReadAt(w, steps, i, req, id, row);
      ReadLonger(w, steps, s, i, req, id, row);
    case Serving(id, l, at) =>
      var i: nat, j: nat :| i < j && ReadAt(w, steps, i, req, id, Some(l)) && CheckedAt(w, steps, j, req, at);
      ReadLonger(w, steps, s, i, req, id, Some(l));
      CheckLonger(w, steps, s, j, req, at);
    case _ =>
  }

  lemma AnsweredLonger(w: World, steps: seq<Step>, s: Step, e: Event)
    requires e.answer.Served? && AnsweredBefore(w, steps, e)
    ensures AnsweredBefore(w, steps + [s], e)
  {
    hide ReadAt;
    hide CheckedAt;
    hide AnsweredAt;
    var i: nat, j: nat, k: nat :| i < j < k && ReadAt(w, steps, i, e.req, e.id, Some(e.answer.link))
      && CheckedAt(w, steps, j, e.req, e.answer.at) && AnsweredAt(w, steps, k, e);
    ReadLonger(w, steps, s, i, e.req, e.id, Some(e.answer.link));
    CheckLonger(w, steps, s, j, e.req, e.answer.at);
    AnswerLonger(w, steps, s, k, e);
  }

  /** What a step adds to what is pending: a visit's read or check, or nothing that shows a link. */
  lemma NextTrace(v: World, s: Step, req: nat)
    requires req in Next(v, s).pending && !(req in v.pending && v.pending[req] == Next(v, s).pending[req])
    ensures var p := Next(v, s).pending[req];
            && (p.Found? ==>
                  && s == Read(p.id, false) && req == v.started
                  && p.row == if p.id in v.table.rows then Some(v.table.rows[p.id].link) else None)
            && (p.Serving? ==>
                  && s == Check(req) && p.at == v.now
                  && req in v.pending && v.pending[req] == Found(p.id, Some(p.link)))
  {
    hide Update;
    hide AdminForm.Submit;
  }

  lemma NextServes(v: World, s: Step, e: Event)
    requires e in Next(v, s).log && e !in v.log && e.answer.Served?
    ensures s.Touch? && s.req == e.req && Next(v, s).log == v.log + [e]
    ensures e.req in v.pending && v.pending[e.req] == Serving(e.id, e.answer.link, e.answer.at)
  {
    hide Update;
    hide AdminForm.Submit;
  }

  lemma AfterAll(w: World, steps: seq<Step>, s: Step)
    ensures After(w, steps + [s], |steps|) == Exec(w, steps)
    ensures Exec(w, steps + [s]) == Next(Exec(w, steps), s) == After(w, steps + [s], |steps| + 1)
  {
    hide Next;
    assert (steps + [s])[..|steps|] == steps && (steps + [s])[..|steps| + 1] == steps + [s];
    ExecConcat(w, steps, [s]);
    assert Exec(Exec(w, steps), [s]) == Exec(Next(Exec(w, steps), s), [s][1..]);
  }

  lemma PendingKeepsTrace(w: World, steps: seq<Step>, s: Step, req: nat)
    requires Traced(w, steps) && req in Next(Exec(w, steps), s).pending
    ensures PendingTraced(w, steps + [s], req, Next(Exec(w, steps), s).pending[req])
  {
    hide Next;
    hide Exec;
    hide CheckedBefore;
    hide AnsweredBefore;
    var v := Exec(w, steps);
    var p := Next(v, s).pending[req];
    if req in v.pending && v.pending[req] == p {
      PendingLonger(w, steps, s, req, p);
    } else {
      NextTrace(v, s, req);
      AfterAll(w, steps, s);
      if p.Found? {
        assert ReadAt(w, steps + [s], |steps|, req, p.id, p.row);
      } else if p.Serving? {
        CheckTraced(w, steps, req, p.id, p.link);
      }
    }
  }

  lemma CheckTraced(w: World, steps: seq<Step>, req: nat, id: string, l: Link)
    requires ReadBefore(w, steps, req, id, Some(l))
    ensures CheckedBefore(w, steps + [Check(req)], req, id, l, Exec(w, steps).now)
  {
    hide Exec;
    hide ReadAt;
    var s := Check(req);
    var i: nat :| ReadAt(w, steps, i, req, id, Some(l));
    assert i < |steps| by { ReadInRange(w, steps, i, req, id, Some(l)); }
    ReadLonger(w, steps, s, i, req, id, Some(l));
    AfterAll(w, steps, s);
    assert CheckedAt(w, steps + [s], |steps|, req, Exec(w, steps).now);
  }

  lemma ReadInRange(w: World, steps: seq<Step>, i: nat, req: nat, id: string, row: Option<Link>)
    requires ReadAt(w, steps, i, req, id, row)
    ensures i < |steps|
  {
  }

  lemma AnswerTraced(w: World, steps: seq<Step>, s: Step, e: Event)
    requires Traced(w, steps) && e in Next(Exec(w, steps), s).log && e.answer.Served?
    ensures AnsweredBefore(w, steps + [s], e)
  {
    hide Next;
    hide Exec;
    hide ReadAt;
    var v := Exec(w, steps);
    if e in v.log {
      AnsweredLonger(w, steps, s, e);
    } else {
      NextServes(v, s, e);
      var l, at := e.answer.link, e.answer.at;
      assert PendingTraced(w, steps, e.req, v.pending[e.req]);
      var i: nat, j: nat :| i < j && ReadAt(w, steps, i, e.req, e.id, Some(l)) && CheckedAt(w, steps, j, e.req, at);
      ReadLonger(w, steps, s, i, e.req, e.id, Some(l));
      CheckLonger(w, steps, s, j, e.req, at);
      AfterAll(w, steps, s);
      assert AnsweredAt(w, steps + [s], |steps|, e);
    }
  }

  /** Every run from a site without requests or answers leaves its traces. */
  lemma {:induction false} RunTraced(w: World, steps: seq<Step>)
    requires w.pending == map[] && w.log == []
    ensures Traced(w, steps)
    decreases |steps|
  {
    hide Next;
    hide PendingTraced;
    hide AnsweredBefore;
    if steps != [] {
      var front, s := steps[..|steps| - 1], steps[|steps| - 1];
      RunTraced(w, front);
      assert steps == front + [s];
      AfterAll(w, front, s);
      hide Exec;
      var v := Exec(w, front);
      forall req | req in Next(v, s).pending ensures PendingTraced(w, steps, req, Next(v, s).pending[req]) {
        PendingKeepsTrace(w, front, s, req);
      }
      forall e | e in Next(v, s).log && e.answer.Served? ensures AnsweredBefore(w, steps, e) {
        AnswerTraced(w, front, s, e);
      }
    }
  }

  lemma {:induction false} ClockRuns(w: World, steps: seq<Step>)
    ensures w.now <= Exec(w, steps).now
    decreases |steps|
  {
    hide Next;
    if steps != [] {
      NextTable(w, steps[0]);
      ClockRuns(Next(w, steps[0]), steps[1..]);
    }
  }

  lemma ClockBetween(w: World, steps: seq<Step>, i: nat, j: nat)
    requires i <= j <= |steps|
    ensures After(w, steps, i).now <= After(w, steps, j).now
  {
    assert steps[..j] == steps[..i] + steps[i..j];
    ExecConcat(w, steps[..i], steps[i..j]);
    ClockRuns(After(w, steps, i), steps[i..j]);
    hide Exec;
  }

  /** Every link that a run serves was in the table, just as it is served, when its visit began; it was
      alive when the visit looked at the clock, between its beginning and its answer. */
  lemma NeverServesExpired(now: Time, steps: seq<Step>, e: Event) returns (i: nat, j: nat, k: nat)
    requires e in Exec(Init(now), steps).log && e.answer.Served?
    ensures i < j < k < |steps|
    ensures steps[i] == Read(e.id, false) && steps[j] == Check(e.req) && steps[k].Touch? && steps[k].req == e.req
    ensures var u := After(Init(now), steps, i);
            && u.started == e.req && e.id in u.table.rows
            && u.table.rows[e.id].link == e.answer.link && e.answer.link.id == e.id
    ensures After(Init(now), steps, k + 1).log == After(Init(now), steps, k).log + [e]
    ensures After(Init(now), steps, i).now <= After(Init(now), steps, j).now <= After(Init(now), steps, k).now
    ensures e.answer.at == After(Init(now), steps, j).now
    ensures var expiry := e.answer.link.expiresOn;
            expiry.Some? ==> After(Init(now), steps, j).now < expiry.value
  {
    hide Next;
    RunRequestsOk(Init(now), steps);
    RunTraced(Init(now), steps);
    assert AnsweredBefore(Init(now), steps, e);
    hide Exec;
    i, j, k :| i < j < k && ReadAt(Init(now), steps, i, e.req, e.id, Some(e.answer.link))
      && CheckedAt(Init(now), steps, j, e.req, e.answer.at) && AnsweredAt(Init(now), steps, k, e);
    ClockBetween(Init(now), steps, i, j);
    ClockBetween(Init(now), steps, j, k);
  }

  lemma StartedGrows(w: World, s: Step)
    ensures w.started <= Next(w, s).started
  {
    hide Update;
    hide AdminForm.Submit;
  }

  lemma NextForgets(w: World, s: Step, req: nat)
    requires req < w.started && req !in w.pending
    ensures req !in Next(w, s).pending && req < Next(w, s).started
  {
    hide Update;
    hide AdminForm.Submit;
  }

  lemma {:induction false} RunForgets(w: World, steps: seq<Step>, req: nat)
    requires req < w.started && req !in w.pending
    ensures req !in Exec(w, steps).pending
    decreases |steps|
  {
    hide Next;
    if steps != [] {
      NextForgets(w, steps[0], req);
      RunForgets(Next(w, steps[0]), steps[1..], req);
    }
  }

  // ---- Dark ids ----

  /** The public sees nothing under this id. */
  predicate Dark(w: World, id: string) {
    id !in w.table.rows || Dead(w.table.rows[id].link, w.now)
  }

  /** A create or an edit puts a link under the id that has not expired. */
  predicate Takes(w: World, s: Step, id: string) {
    match s
    case TryInsert(req, i, down) =>
      && i == id && !down && req in w.pending && w.pending[req].Creating? && id !in w.table.rows
      && !Dead(LinkOf(id, w.pending[req].n, w.now), w.now)
    case Save(req, down) =>
      && !down && req in w.pending && w.pending[req].Saving?
      && var arg := w.pending[req].arg;
         && arg.newId == id && arg.id in w.table.rows && (arg.id == id || id !in w.table.rows)
         && !Dead(Edited(w.table.rows[arg.id].link, arg), w.now)
    case _ => false
  }

  predicate NeverTaken(w: World, steps: seq<Step>, id: string)
    decreases |steps|
  {
    steps == [] || (!Takes(w, steps[0], id) && NeverTaken(Next(w, steps[0]), steps[1..], id))
  }

  predicate DarkPending(p: Pending, id: string, now: Time) {
    match p
    case Found(i, row) => i == id && row.Some? ==> Dead(row.value, now)
    case Serving(i, _, _) => i != id
    case _ => true
  }

  /** Requests from number `since` on have nothing to show under the id. */
  ghost predicate DarkSince(w: World, id: string, since: nat) {
    && Dark(w, id)
    && (forall req :: req in w.pending && req >= since ==> DarkPending(w.pending[req], id, w.now))
    && (forall e :: e in w.log && e.req >= since && e.id == id ==> !e.answer.Served?)
  }

  /** These are the only steps that end the darkness, and they do. */
  lemma NextDark(w: World, s: Step, id: string)
    requires Links.Valid(w.table) && Dark(w, id)
    ensures Dark(Next(w, s), id) <==> !Takes(w, s, id)
  {
    hide Update;
    hide Next;
    hide Links.Valid;
    NextTable(w, s);
    TakingTable(w, s, id);
    if s.Save? && s.req in w.pending && w.pending[s.req].Saving? {
      UpdateOutcome(w.table, w.pending[s.req].arg);
    }
  }

  lemma TakingTable(w: World, s: Step, id: string)
    ensures Takes(w, s, id) ==> Next(w, s).now == w.now
    ensures Takes(w, s, id) && s.TryInsert? ==> Next(w, s).table == Create(w.table, id, w.pending[s.req].n, w.now).0
    ensures Takes(w, s, id) && s.Save? ==> Next(w, s).table == Update(w.table, w.pending[s.req].arg).0
    ensures s.TryInsert? || s.Save? ==> Next(w, s).now == w.now
  {
    hide AdminForm.Submit;
    hide Dead;
  }

  lemma NextDarkPending(w: World, s: Step, id: string, since: nat, req: nat)
    requires DarkSince(w, id, since) && req >= since && req in Next(w, s).pending
    ensures DarkPending(Next(w, s).pending[req], id, Next(w, s).now)
  {
    hide Update;
    hide AdminForm.Submit;
  }

  lemma NextDarkLog(w: World, s: Step, id: string, since: nat, e: Event)
    requires DarkSince(w, id, since) && e.req >= since && e.id == id && e in Next(w, s).log
    ensures !e.answer.Served?
  {
    hide Update;
    hide AdminForm.Submit;
  }

  lemma {:induction false} RunDark(w: World, steps: seq<Step>, id: string, since: nat)
    requires Conserved(w) && DarkSince(w, id, since) && NeverTaken(w, steps, id)
    ensures DarkSince(Exec(w, steps), id, since)
    decreases |steps|
  {
    hide Next;
    if steps != [] {
      var v := Next(w, steps[0]);
      NextConserves(w, steps[0]);
      NextDark(w, steps[0], id);
      forall req | req in v.pending && req >= since ensures DarkPending(v.pending[req], id, v.now) {
        NextDarkPending(w, steps[0], id, since, req);
      }
      forall e | e in v.log && e.req >= since && e.id == id ensures !e.answer.Served? {
        NextDarkLog(w, steps[0], id, since, e);
      }
      RunDark(v, steps[1..], id, since);
    }
  }

  /** An id that shows nothing goes on showing nothing until a new or edited link takes it: no request
      for it that starts in the meantime is ever served. */
  lemma DarkStaysDark(w: World, steps: seq<Step>, id: string)
    requires RequestsOk(w) && Conserved(w) && Dark(w, id) && NeverTaken(w, steps, id)
    ensures Dark(Exec(w, steps), id)
    ensures forall e :: e in Exec(w, steps).log && e.req >= w.started && e.id == id ==> !e.answer.Served?
  {
    RunDark(w, steps, id, w.started);
  }

  // ---- Live links ----

  /** An admin deletes the link under the id, or an edit writes to it. */
  predicate Disturbs(w: World, s: Step, id: string) {
    match s
    case Remove(ids, down) => !down && id in ids
    case Save(req, down) => !down && req in w.pending && w.pending[req].Saving? && w.pending[req].arg.id == id
    case _ => false
  }

  predicate NeverDisturbed(w: World, steps: seq<Step>, id: string)
    decreases |steps|
  {
    steps == [] || (!Disturbs(w, steps[0], id) && NeverDisturbed(Next(w, steps[0]), steps[1..], id))
  }

  /** The same row, but for its last access. */
  predicate SameButAccess(r: Row, s: Row) {
    s == Row(r.serial, r.link.(lastAccessedAt := s.link.lastAccessedAt))
  }

  lemma NextStays(w: World, s: Step, id: string)
    requires Links.Valid(w.table) && id in w.table.rows && !Disturbs(w, s, id)
    requires !ExpiredBy(w.table.rows[id].link, w.now)
    ensures id in Next(w, s).table.rows && SameButAccess(w.table.rows[id], Next(w, s).table.rows[id])
  {
    hide Next;
    hide Update;
    NextTable(w, s);
    UndisturbedSave(w, s);
    RemovesNothing(w, s);
    if s.Save? && s.req in w.pending && w.pending[s.req].Saving? {
      UpdateOutcome(w.table, w.pending[s.req].arg);
    }
    if s.Touch? && s.req in w.pending && w.pending[s.req].Serving? {
      TouchOutcome(w.table, w.pending[s.req].link.id, s.at);
    }
  }

  lemma UndisturbedSave(w: World, s: Step)
    ensures s.Save? && s.down ==> Next(w, s).table == w.table
  {
    hide Update;
    hide AdminForm.Submit;
  }

  lemma RemovesNothing(w: World, s: Step)
    ensures s.Remove? && s.down ==> Next(w, s).table == w.table
  {
    hide Update;
    hide AdminForm.Submit;
  }

  /** No row has this serial number. */
  ghost predicate Gone(t: Table, serial: nat) {
    forall id :: id in t.rows ==> t.rows[id].serial != serial
  }

  /** Besides admins only sweeps take links away, and only links that have expired. */
  lemma SweepTakes(w: World, s: Step, id: string)
    requires Links.Valid(w.table) && id in w.table.rows && !Disturbs(w, s, id) && id !in Next(w, s).table.rows
    ensures s.Sweep? && ExpiredBy(w.table.rows[id].link, w.now)
    ensures Gone(Next(w, s).table, w.table.rows[id].serial)
  {
    hide Next;
    hide Update;
    NextTable(w, s);
    UndisturbedSave(w, s);
    RemovesNothing(w, s);
    if s.Save? && s.req in w.pending && w.pending[s.req].Saving? {
      UpdateOutcome(w.table, w.pending[s.req].arg);
    }
  }

  /** A sweep of a time that has come takes exactly the links that have expired before it. */
  lemma SweepDeletes(w: World, at: Time)
    requires at <= w.now
    ensures var u := Next(w, Sweep(at, false)).table;
            && (forall id :: id in u.rows <==>
                  id in w.table.rows
                  && (w.table.rows[id].link.expiresOn.None? || w.table.rows[id].link.expiresOn.value >= at))
            && (forall id :: id in u.rows ==> u.rows[id] == w.table.rows[id])
  {
    hide Update;
    hide AdminForm.Submit;
  }

  lemma NextStaysOrGoes(w: World, s: Step, id: string)
    requires Links.Valid(w.table) && id in w.table.rows && !Disturbs(w, s, id) && id in Next(w, s).table.rows
    ensures SameButAccess(w.table.rows[id], Next(w, s).table.rows[id])
  {
    hide Next;
    hide Update;
    NextTable(w, s);
    UndisturbedSave(w, s);
    if s.Save? && s.req in w.pending && w.pending[s.req].Saving? {
      UpdateOutcome(w.table, w.pending[s.req].arg);
    }
    if s.Touch? && s.req in w.pending && w.pending[s.req].Serving? {
      TouchOutcome(w.table, w.pending[s.req].link.id, s.at);
    }
  }

  /** A link that no admin deletes or edits stays under its id, with all its fields but the last access,
      until a sweep takes it for good. */
  lemma {:induction false} LinkStaysOrGoes(w: World, steps: seq<Step>, id: string)
    requires Conserved(w) && id in w.table.rows && NeverDisturbed(w, steps, id)
    ensures var u := Exec(w, steps).table;
            || (id in u.rows && SameButAccess(w.table.rows[id], u.rows[id]))
            || Gone(u, w.table.rows[id].serial)
    decreases |steps|
  {
    hide Next;
    hide Disturbs;
    if steps != [] {
      hide Gone;
      var v := Next(w, steps[0]);
      NextConserves(w, steps[0]);
      if id in v.table.rows {
        NextStaysOrGoes(w, steps[0], id);
        LinkStaysOrGoes(v, steps[1..], id);
      } else {
        SweepTakes(w, steps[0], id);
        RowSerials(w, id);
        NextDescends(w, steps[0]);
        StaysGone(v, steps[1..], w.table.rows[id].serial);
      }
    }
  }

  lemma StaysGone(w: World, steps: seq<Step>, serial: nat)
    requires Conserved(w) && serial < w.table.next && Gone(w.table, serial)
    ensures Gone(Exec(w, steps).table, serial)
  {
    GoneForGood(w, steps, serial);
    hide Exec;
    hide Conserved;
  }

  lemma RowSerials(w: World, id: string)
    requires Conserved(w) && id in w.table.rows
    ensures w.table.rows[id].serial < w.table.next
  {
  }

  /** A link that no admin deletes or edits stays under its id until it expires, whatever sweeps, touches,
      creates, and renames of other links run. */
  lemma {:induction false} LiveLinkStays(w: World, steps: seq<Step>, id: string)
    requires Conserved(w) && id in w.table.rows && NeverDisturbed(w, steps, id)
    requires !ExpiredBy(w.table.rows[id].link, Exec(w, steps).now)
    ensures id in Exec(w, steps).table.rows && SameButAccess(w.table.rows[id], Exec(w, steps).table.rows[id])
    decreases |steps|
  {
    hide Next;
    hide Disturbs;
    if steps != [] {
      var v := Next(w, steps[0]);
      ClockRuns(w, steps);
      NextConserves(w, steps[0]);
      NextStays(w, steps[0], id);
      LiveLinkStays(v, steps[1..], id);
    }
  }
}
