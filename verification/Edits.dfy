/** Edits over whole runs: each is all or nothing, and lands on whichever link is under the id. */
module Edits {
  import opened Wrappers
  import opened Links
  import opened Runs
  import opened Serving
  import AdminForm
  import opened LinkIds
  import Text

  /** The last thing that was said. */
  function LastAnswer(w: World): Option<Answer> {
    if w.log == [] then None else Some(w.log[|w.log| - 1].answer)
  }

  lemma SaveAnswer(w: World, req: nat, down: bool)
    requires req in w.pending && w.pending[req].Saving?
    ensures var v, (u, r) := Next(w, Save(req, down)), Update(w.table, w.pending[req].arg);
            && LastAnswer(v) == Some(if down then ServerError else if r.Err? then Conflict
                                     else if r == Ok(0) then Gone else Saved)
            && v.table == if down || r.Err? || r == Ok(0) then w.table else u
  {
    hide Update;
    hide AdminForm.Submit;
  }

  /** `u` is `t` with one link edited and moved to its new id. The row keeps its serial number, creation
      time, editable flags and last access, and its expiry is absent, as seen, or ahead of `at`. */
  ghost predicate Rewritten(t: Table, u: Table, seen: Link, arg: UpdateParams, at: Time) {
    && |u.rows| == |t.rows| && arg.id in t.rows && u.rows.Keys == t.rows.Keys - {arg.id} + {arg.newId}
    && (forall id :: id in u.rows && id != arg.newId ==> id in t.rows && u.rows[id] == t.rows[id])
    && u.rows[arg.newId].serial == t.rows[arg.id].serial
    && LinkRewritten(t.rows[arg.id].link, u.rows[arg.newId].link, seen, arg, at)
  }

  predicate LinkRewritten(before: Link, after: Link, seen: Link, arg: UpdateParams, at: Time) {
    && after.id == arg.newId
    && after.lastAccessedAt == before.lastAccessedAt && BirthOf(after) == BirthOf(before)
    && AdminForm.FieldsOf(after) == AdminForm.FieldsOf(Edited(seen, arg))
    && (after.expiresOn.None? || after.expiresOn == seen.expiresOn || after.expiresOn.value > at)
  }

  lemma EditRewrites(l: Link, seen: Link, arg: UpdateParams, at: Time)
    requires arg.expiresOn.None? || arg.expiresOn == seen.expiresOn || arg.expiresOn.value > at
    ensures LinkRewritten(l, Edited(l, arg), seen, arg, at)
  {
  }

  lemma UpdateRewrites(t: Table, seen: Link, arg: UpdateParams, at: Time)
    requires Links.Valid(t) && Update(t, arg).1 == Ok(1)
    requires arg.expiresOn.None? || arg.expiresOn == seen.expiresOn || arg.expiresOn.value > at
    ensures Rewritten(t, Update(t, arg).0, seen, arg, at)
  {
    UpdateOutcome(t, arg);
    EditRewrites(t.rows[arg.id].link, seen, arg, at);
    hide Update;
    hide Links.Valid;
    hide LinkRewritten;
    hide Edited;
  }

  /** What the admin is told about a save. */
  function SaveVerdict(t: Table, arg: UpdateParams, down: bool): Answer {
    if down then ServerError
    else if arg.id !in t.rows then Gone
    else if arg.newId != arg.id && arg.newId in t.rows then Conflict
    else Saved
  }

  lemma UpdateVerdict(t: Table, seen: Link, arg: UpdateParams, at: Time, down: bool)
    requires Links.Valid(t)
    requires arg.expiresOn.None? || arg.expiresOn == seen.expiresOn || arg.expiresOn.value > at
    ensures var (u, r) := Update(t, arg);
            && SaveVerdict(t, arg, down) == (if down then ServerError else if r.Err? then Conflict
                                             else if r == Ok(0) then Gone else Saved)
            && (SaveVerdict(t, arg, down) == Saved ==> Rewritten(t, u, seen, arg, at))
  {
    UpdateOutcome(t, arg);
    hide Rewritten;
    if Update(t, arg).1 == Ok(1) {
      UpdateRewrites(t, seen, arg, at);
    }
  }

  /** A save is all or nothing, whatever ran between reading and writing. */
  lemma SaveOutcome(w: World, req: nat, down: bool)
    requires RequestsOk(w) && req in w.pending && w.pending[req].Saving?
    ensures var v, p := Next(w, Save(req, down)), w.pending[req];
            var arg, t := p.arg, w.table;
            && LastAnswer(v) == Some(SaveVerdict(t, arg, down))
            && (if LastAnswer(v) == Some(Saved) then Rewritten(t, v.table, p.link, arg, p.at) else v.table == t)
  {
    var p := w.pending[req];
    assert PendingOk(p, w.now);
    SaveAnswer(w, req, down);
    UpdateVerdict(w.table, p.link, p.arg, p.at, down);
    hide Next;
    hide LastAnswer;
    hide Rewritten;
    hide Update;
    hide Links.Valid;
    hide SaveVerdict;
  }

  // ---- Who is under an id ----

  /** The serial number of the link that a step puts under an id: a new one, or one that is renamed. */
  function Mover(w: World, s: Step, id: string): Option<nat> {
    match s
    case TryInsert(req, i, down) =>
      if i == id && !down && req in w.pending && w.pending[req].Creating? && id !in w.table.rows
      then Some(w.table.next) else None
    case Save(req, down) =>
      if !down && req in w.pending && w.pending[req].Saving? then
        var arg := w.pending[req].arg;
        if arg.newId == id && arg.id != id && arg.id in w.table.rows && id !in w.table.rows
        then Some(w.table.rows[arg.id].serial) else None
      else None
    case _ => None
  }

  function NextHolder(w: World, s: Step, id: string, serial: nat): nat {
    match Mover(w, s, id) case None => serial case Some(n) => n
  }

  /** The last link to move under an id in a run, or the one from before the run. */
  function Holder(w: World, steps: seq<Step>, id: string, serial: nat): nat
    decreases |steps|
  {
    if steps == [] then serial else Holder(Next(w, steps[0]), steps[1..], id, NextHolder(w, steps[0], id, serial))
  }

  /** If there is a link under the id, this is its serial number. */
  predicate IsUnder(w: World, id: string, serial: nat) {
    id in w.table.rows ==> w.table.rows[id].serial == serial
  }

  lemma NextIsUnder(w: World, s: Step, id: string, serial: nat)
    requires Links.Valid(w.table) && IsUnder(w, id, serial)
    ensures IsUnder(Next(w, s), id, NextHolder(w, s, id, serial))
  {
    hide Next;
    hide Update;
    hide Links.Valid;
    NextTable(w, s);
    NextMoves(w, s, id);
    if s.Save? && s.req in w.pending && w.pending[s.req].Saving? {
      UpdateOutcome(w.table, w.pending[s.req].arg);
    }
  }

  /** A step that puts a link under an id does so. */
  lemma NextMoves(w: World, s: Step, id: string)
    ensures Mover(w, s, id).Some? ==> s.TryInsert? || s.Save?
    ensures Mover(w, s, id).Some? && s.TryInsert? ==> Next(w, s).table == Create(w.table, id, w.pending[s.req].n, w.now).0
    ensures Mover(w, s, id).Some? && s.Save? ==> Next(w, s).table == Update(w.table, w.pending[s.req].arg).0
  {
    hide AdminForm.Submit;
  }

  /** Whoever is under an id at the end of a run is the last that moved there. */
  lemma {:induction false} RunIsUnder(w: World, steps: seq<Step>, id: string, serial: nat)
    requires Conserved(w) && IsUnder(w, id, serial)
    ensures IsUnder(Exec(w, steps), id, Holder(w, steps, id, serial))
    decreases |steps|
  {
    hide Next;
    hide NextHolder;
    hide IsUnder;
    if steps != [] {
      NextConserves(w, steps[0]);
      NextIsUnder(w, steps[0], id, serial);
      RunIsUnder(Next(w, steps[0]), steps[1..], id, NextHolder(w, steps[0], id, serial));
    }
  }

  lemma {:induction false} HolderConcat(w: World, a: seq<Step>, b: seq<Step>, id: string, serial: nat)
    ensures Holder(w, a + b, id, serial) == Holder(Exec(w, a), b, id, Holder(w, a, id, serial))
    decreases |a|
  {
    hide Next;
    hide NextHolder;
    if a == [] {
      assert a + b == b;
    } else {
      HolderConcat(Next(w, a[0]), a[1..], b, id, NextHolder(w, a[0], id, serial));
      assert (a + b)[1..] == a[1..] + b;
    }
  }

  /** No step puts a link under the id. */
  predicate NeverTakenOver(w: World, steps: seq<Step>, id: string)
    decreases |steps|
  {
    steps == [] || (Mover(w, steps[0], id).None? && NeverTakenOver(Next(w, steps[0]), steps[1..], id))
  }

  /** No link is renamed to the id. */
  predicate NeverRenamed(w: World, steps: seq<Step>, id: string)
    decreases |steps|
  {
    steps == [] || ((steps[0].Save? ==> Mover(w, steps[0], id).None?) && NeverRenamed(Next(w, steps[0]), steps[1..], id))
  }

  lemma SerialsGrow(w: World, s: Step)
    ensures w.table.next <= Next(w, s).table.next
    ensures s.TryInsert? ==> forall id :: Mover(w, s, id).Some? ==> Next(w, s).table.next == w.table.next + 1
  {
    hide Update;
    hide AdminForm.Submit;
    UpdateKeepsNext(w, s);
  }

  lemma UpdateKeepsNext(w: World, s: Step)
    ensures s.Save? && s.req in w.pending && w.pending[s.req].Saving? ==>
            Update(w.table, w.pending[s.req].arg).0.next == w.table.next
  {
  }

  /** As long as no link is renamed to an id, a link that was under it is still the one to be found there
      exactly if no new link took the id: then nothing but that link was ever there in between. */
  lemma {:induction false} HolderStays(w: World, steps: seq<Step>, id: string, serial: nat)
    requires NeverRenamed(w, steps, id) && serial < w.table.next
    ensures Holder(w, steps, id, serial) == serial <==> NeverTakenOver(w, steps, id)
    ensures Holder(w, steps, id, serial) == serial || Holder(w, steps, id, serial) >= w.table.next
    decreases |steps|
  {
    hide Next;
    hide Mover;
    if steps != [] {
      var s, v := steps[0], Next(w, steps[0]);
      SerialsGrow(w, s);
      MoverIs(w, s, id);
      HolderStays(v, steps[1..], id, NextHolder(w, s, id, serial));
    }
  }

  lemma MoverIs(w: World, s: Step, id: string)
    ensures Mover(w, s, id).Some? ==> s.TryInsert? || s.Save?
    ensures Mover(w, s, id).Some? && s.TryInsert? ==> Mover(w, s, id) == Some(w.table.next)
  {
  }

  /** The row and link that an edit has read. */
  predicate Holds(p: Pending, serial: nat, l: Link) {
    (p.Editing? || p.Saving?) && p.serial == serial && p.link == l
  }

  lemma NextHolds(w: World, s: Step, req: nat)
    requires req < w.started && req in w.pending && (w.pending[req].Editing? || w.pending[req].Saving?)
    requires req in Next(w, s).pending
    ensures Holds(Next(w, s).pending[req], w.pending[req].serial, w.pending[req].link)
    ensures req < Next(w, s).started
  {
    hide Update;
    hide AdminForm.Submit;
  }

  lemma {:induction false} RunHolds(w: World, steps: seq<Step>, req: nat)
    requires req < w.started && req in w.pending && (w.pending[req].Editing? || w.pending[req].Saving?)
    requires req in Exec(w, steps).pending
    ensures Holds(Exec(w, steps).pending[req], w.pending[req].serial, w.pending[req].link)
    decreases |steps|
  {
    hide Next;
    if steps != [] {
      var v := Next(w, steps[0]);
      if req in v.pending {
        NextHolds(w, steps[0], req);
        RunHolds(v, steps[1..], req);
      } else {
        assert req < v.started by { StartedGrows(w, steps[0]); }
        RunForgets(v, steps[1..], req);
      }
    }
  }

  /** The rest of an edit, after its handler has read the link: the row it writes to is whichever is under
      the id by then. */
  lemma SavedRow(v: World, steps: seq<Step>, req: nat, id: string, serial: nat)
    requires RequestsOk(v) && Conserved(v) && req in v.pending && v.pending[req].Editing? && v.pending[req].link.id == id
    requires IsUnder(v, id, serial)
    requires req in Exec(v, steps).pending && Exec(v, steps).pending[req].Saving?
    requires LastAnswer(Next(Exec(v, steps), Save(req, false))) == Some(Saved)
    ensures var x := Exec(v, steps);
            var arg, y := x.pending[req].arg, Next(x, Save(req, false));
            && arg.id == id && Holds(x.pending[req], v.pending[req].serial, v.pending[req].link)
            && arg.newId in y.table.rows && y.table.rows[arg.newId].serial == Holder(v, steps, id, serial)
  {
    hide Next;
    hide AllowedID;
    hide Conserved;
    hide LinkRewritten;
    hide Holder;
    RunRequestsOk(v, steps);
    RunHolds(v, steps, req);
    RunIsUnder(v, steps, id, serial);
    var x := Exec(v, steps);
    SavingKeepsId(x, req);
    SaveOutcome(x, req, false);
    hide RequestsOk;
  }

  lemma SavingKeepsId(x: World, req: nat)
    requires RequestsOk(x) && req in x.pending && x.pending[req].Saving?
    ensures x.pending[req].arg.id == x.pending[req].link.id
  {
    hide AllowedID;
    assert PendingOk(x.pending[req], x.now);
  }

  /** An edit that is saved changes the very row that its handler read, exactly if the last link to move
      under the id since then is that one. */
  lemma EditHitsTheRowItRead(w: World, id: string, steps: seq<Step>)
    requires RequestsOk(w) && Conserved(w) && id in w.table.rows
    requires var x := Exec(Next(w, Open(id, false)), steps);
             && w.started in x.pending && x.pending[w.started].Saving?
             && LastAnswer(Next(x, Save(w.started, false))) == Some(Saved)
    ensures var v := Next(w, Open(id, false));
            var x := Exec(v, steps);
            var arg, y, read := x.pending[w.started].arg, Next(x, Save(w.started, false)), w.table.rows[id].serial;
            && arg.id == id && arg.newId in y.table.rows
            && (y.table.rows[arg.newId].serial == read <==> Holder(v, steps, id, read) == read)
  {
    hide RequestsOk;
    hide Conserved;
    hide LastAnswer;
    hide Holder;
    var v := Next(w, Open(id, false));
    OpenBegins(w, id);
    hide Next;
    NextConserves(w, Open(id, false));
    NextRequestsOk(w, Open(id, false));
    RowsHaveTheirIds(w);
    SavedRow(v, steps, w.started, id, w.table.rows[id].serial);
  }

  lemma OpenBegins(w: World, id: string)
    requires id in w.table.rows
    ensures Next(w, Open(id, false)) == Begin(w, Editing(w.table.rows[id].serial, w.table.rows[id].link))
  {
    hide Update;
    hide AdminForm.Submit;
  }

  lemma RowsHaveTheirIds(w: World)
    requires Conserved(w)
    ensures forall id :: id in w.table.rows ==> w.table.rows[id].link.id == id && w.table.rows[id].serial < w.table.next
  {
  }

  lemma ShowAnswers(w: World, id: string)
    requires id in w.table.rows
    ensures var p := Next(w, Show(id, false));
            && LastAnswer(p) == Some(Shown(w.table.rows[id].serial, w.table.rows[id].link))
            && p.table == w.table
  {
    hide Update;
    hide AdminForm.Submit;
  }

  lemma OpenFinds(w: World, id: string, steps: seq<Step>)
    requires RequestsOk(w) && w.started in Exec(Next(w, Open(id, false)), steps).pending
    ensures id in w.table.rows
  {
    hide Update;
    hide AdminForm.Submit;
    hide PendingOk;
    hide EventOk;
    hide Links.Valid;
    if id !in w.table.rows {
      var v := Next(w, Open(id, false));
      assert v == Refuse(w, id, NotFound);
      hide Next;
      RunForgets(v, steps, w.started);
    }
  }

  /** From the page to the write. An admin is shown a link's form; any requests come in between; the form
      is posted, and its handler reads the link; any requests come in between; the handler writes. The row
      that the handler read and the row that it wrote are the last ones that moved under the id until then,
      so the row shown is the one written exactly if it is itself the last one. */
  lemma EditHitsTheRowShown(w: World, id: string, before: seq<Step>, between: seq<Step>)
    requires RequestsOk(w) && Conserved(w) && id in w.table.rows
    requires var r := Exec(Next(w, Show(id, false)), before);
             var x := Exec(Next(r, Open(id, false)), between);
             && r.started in x.pending && x.pending[r.started].Saving?
             && LastAnswer(Next(x, Save(r.started, false))) == Some(Saved)
    ensures var p, shown := Next(w, Show(id, false)), w.table.rows[id].serial;
            var r := Exec(p, before);
            var x := Exec(Next(r, Open(id, false)), between);
            var y, arg, read := Next(x, Save(r.started, false)), x.pending[r.started].arg, x.pending[r.started].serial;
            && LastAnswer(p) == Some(Shown(shown, w.table.rows[id].link))
            && arg.id == id && arg.newId in y.table.rows
            && read == Holder(p, before, id, shown)
            && (y.table.rows[arg.newId].serial == shown
                <==> Holder(p, before + [Open(id, false)] + between, id, shown) == shown)
  {
    hide RequestsOk;
    hide Conserved;
    hide LastAnswer;
    hide Holder;
    hide Next;
    var p, shown := Next(w, Show(id, false)), w.table.rows[id].serial;
    var r, open := Exec(p, before), Open(id, false);
    ShowAnswers(w, id);
    NextConserves(w, Show(id, false));
    NextRequestsOk(w, Show(id, false));
    RunRequestsOk(p, before);
    RunIsUnder(p, before, id, shown);
    OpenFinds(r, id, between);
    OpenBegins(r, id);
    var v := Next(r, open);
    NextConserves(r, open);
    NextRequestsOk(r, open);
    RowsHaveTheirIds(r);
    var read := Holder(p, before, id, shown);
    SavedRow(v, between, r.started, id, read);
    HolderConcat(p, before, [open] + between, id, shown);
    HolderOpen(r, id, between, read);
    assert before + [open] + between == before + ([open] + between);
  }

  lemma HolderOpen(r: World, id: string, between: seq<Step>, serial: nat)
    ensures Holder(r, [Open(id, false)] + between, id, serial) == Holder(Next(r, Open(id, false)), between, id, serial)
  {
    hide Next;
    assert ([Open(id, false)] + between)[1..] == between;
  }

  /** While no link is renamed to the id, that is so exactly if no new link took the id since the page was
      shown; and then the handler read the row shown, too. */
  lemma EditHitsUnlessReplaced(w: World, id: string, before: seq<Step>, between: seq<Step>)
    requires RequestsOk(w) && Conserved(w) && id in w.table.rows
    requires var r := Exec(Next(w, Show(id, false)), before);
             var x := Exec(Next(r, Open(id, false)), between);
             && r.started in x.pending && x.pending[r.started].Saving?
             && LastAnswer(Next(x, Save(r.started, false))) == Some(Saved)
    requires NeverRenamed(Next(w, Show(id, false)), before + [Open(id, false)] + between, id)
    ensures var p, shown := Next(w, Show(id, false)), w.table.rows[id].serial;
            var r := Exec(p, before);
            var x := Exec(Next(r, Open(id, false)), between);
            var y := Next(x, Save(r.started, false));
            && x.pending[r.started].arg.newId in y.table.rows
            && (y.table.rows[x.pending[r.started].arg.newId].serial == shown
                <==> NeverTakenOver(p, before + [Open(id, false)] + between, id))
            && (y.table.rows[x.pending[r.started].arg.newId].serial == shown ==> x.pending[r.started].serial == shown)
  {
    hide RequestsOk;
    hide Conserved;
    hide LastAnswer;
    hide Holder;
    hide Next;
    hide NeverRenamed;
    hide NeverTakenOver;
    var p, shown := Next(w, Show(id, false)), w.table.rows[id].serial;
    var all := before + [Open(id, false)] + between;
    EditHitsTheRowShown(w, id, before, between);
    ShowAnswers(w, id);
    RowsHaveTheirIds(w);
    HolderStays(p, all, id, shown);
    assert all == before + ([Open(id, false)] + between);
    PrefixNever(p, before, [Open(id, false)] + between, id);
    HolderStays(p, before, id, shown);
  }

  lemma {:induction false} PrefixNever(w: World, a: seq<Step>, b: seq<Step>, id: string)
    ensures NeverRenamed(w, a + b, id) ==> NeverRenamed(w, a, id)
    ensures NeverTakenOver(w, a + b, id) ==> NeverTakenOver(w, a, id)
    decreases |a|
  {
    hide Next;
    hide Mover;
    if a != [] {
      PrefixNever(Next(w, a[0]), a[1..], b, id);
      assert (a + b)[0] == a[0] && (a + b)[1..] == a[1..] + b;
    }
  }

  /** A save hits the row that its handler read exactly if that row is still under the id. */
  lemma SaveHits(w: World, req: nat)
    requires RequestsOk(w) && req in w.pending && w.pending[req].Saving?
    requires LastAnswer(Next(w, Save(req, false))) == Some(Saved)
    ensures var p, v := w.pending[req], Next(w, Save(req, false));
            && p.arg.id in w.table.rows && p.arg.newId in v.table.rows
            && (v.table.rows[p.arg.newId].serial == p.serial <==> w.table.rows[p.arg.id].serial == p.serial)
  {
    hide Next;
    hide AllowedID;
    SaveOutcome(w, req, false);
    hide LinkRewritten;
    hide RequestsOk;
  }

  lemma SaveUntouchedAtOnce(w: World, req: nat, withExpiry: bool)
    requires Links.Valid(w.table) && req in w.pending && w.pending[req].Editing?
    requires w.pending[req].link.id in w.table.rows && w.table.rows[w.pending[req].link.id].link == w.pending[req].link
    requires var l := w.pending[req].link;
             AdminForm.Submit(l, AdminForm.Untouched(l, withExpiry), w.now) == Ok(AdminForm.Same(l))
    ensures var v := Next(Next(w, Validate(req, AdminForm.Untouched(w.pending[req].link, withExpiry))), Save(req, false));
            LastAnswer(v) == Some(Saved) && v.table == w.table
  {
    hide AdminForm.Submit;
    hide AdminForm.Untouched;
    var l := w.pending[req].link;
    AdminForm.SameChangesNothing(w.table, l.id);
    hide Update;
    hide AdminForm.Same;
  }

  /** Another link can take over while the form is being handled: the handler of an untouched form reads a
      link, an admin deletes it, a new link is created under its id, and the handler writes. */
  function TakeOver(id: string, n: NewLink, now: Time): (r: (seq<Step>, seq<Step>)) {
    ([Submit(n), TryInsert(0, id, false), Open(id, false)],
     [Remove([id], false), Submit(n), TryInsert(2, id, false),
      Validate(1, AdminForm.Untouched(LinkOf(id, n, now), true)), Save(1, false)])
  }

  lemma TakeOverOpened(id: string, n: NewLink, now: Time) returns (w: World)
    ensures w == Exec(Init(now), TakeOver(id, n, now).0)
    ensures w.now == now && w.table == Table(map[id := Row(0, LinkOf(id, n, now))], 1)
    ensures w.pending == map[1 := Editing(0, LinkOf(id, n, now))] && w.started == 2
  {
    hide AdminForm.Untouched;
    var steps := TakeOver(id, n, now).0;
    var w1 := Next(Init(now), steps[0]);
    var w2 := Next(w1, steps[1]);
    ExecThree(Init(now), steps);
    hide Exec;
    w := Next(w2, steps[2]);
    assert w.pending == map[1 := Editing(0, LinkOf(id, n, now))];
  }

  lemma TakeOverReplaced(id: string, n: NewLink, w: World) returns (v: World)
    requires w.table == Table(map[id := Row(0, LinkOf(id, n, w.now))], 1)
    requires w.pending == map[1 := Editing(0, LinkOf(id, n, w.now))] && w.started == 2
    ensures v == Exec(w, TakeOver(id, n, w.now).1[..3])
    ensures v.now == w.now && v.table == Table(map[id := Row(1, LinkOf(id, n, w.now))], 2)
    ensures v.pending == map[1 := Editing(0, LinkOf(id, n, w.now))]
  {
    hide AdminForm.Untouched;
    var steps := TakeOver(id, n, w.now).1[..3];
    var w1 := Next(w, steps[0]);
    assert w1.table == Table(map[], 1);
    var w2 := Next(w1, steps[1]);
    ExecThree(w, steps);
    hide Exec;
    v := Next(w2, steps[2]);
    assert v.pending == map[1 := Editing(0, LinkOf(id, n, w.now))];
  }

  lemma TakeOverSaved(id: string, n: NewLink, w: World) returns (v: World)
    requires var l := LinkOf(id, n, w.now);
             AdminForm.Submit(l, AdminForm.Untouched(l, true), w.now) == Ok(AdminForm.Same(l))
    requires w.table == Table(map[id := Row(0, LinkOf(id, n, w.now))], 1)
    requires w.pending == map[1 := Editing(0, LinkOf(id, n, w.now))] && w.started == 2
    ensures v == Exec(Exec(w, TakeOver(id, n, w.now).1[..3]), TakeOver(id, n, w.now).1[3..])
    ensures LastAnswer(v) == Some(Saved) && id in v.table.rows && v.table.rows[id].serial == 1
  {
    hide Next;
    hide LastAnswer;
    hide AdminForm.Submit;
    hide AdminForm.Untouched;
    hide AdminForm.Same;
    var steps := TakeOver(id, n, w.now).1[3..];
    var x := TakeOverReplaced(id, n, w);
    ExecTwo(x, steps);
    hide Exec;
    SaveUntouchedAtOnce(x, 1, true);
    v := Next(Next(x, steps[0]), steps[1]);
  }

  /** The save then goes through, and changes a row that its handler never read. */
  lemma EditCanHitAnotherRow(id: string, n: NewLink, now: Time)
    requires AllowedID(id) && AdminForm.Printable(LinkOf(id, n, now))
    requires n.payee != "" && Text.Trimmed(n.payee) && n.amount >= 0
    requires n.description.Some? ==> !Text.Blank(n.description.value)
    ensures var (first, then_) := TakeOver(id, n, now);
            var read := Exec(Init(now), first);
            var saved := Exec(read, then_);
            && 1 in read.pending && read.pending[1] == Editing(0, LinkOf(id, n, now))
            && LastAnswer(saved) == Some(Saved)
            && id in saved.table.rows && saved.table.rows[id].serial == 1
  {
    var l := LinkOf(id, n, now);
    var (first, then_) := TakeOver(id, n, now);
    var w := TakeOverOpened(id, n, now);
    AdminForm.UntouchedEdit(l, true, now);
    hide AdminForm.Submit;
    hide AllowedID;
    hide AdminForm.Untouched;
    hide Text.Trimmed;
    hide Text.Blank;
    hide AdminForm.Printable;
    var v := TakeOverSaved(id, n, w);
    assert then_ == then_[..3] + then_[3..];
    ExecConcat(w, then_[..3], then_[3..]);
    hide Exec;
  }

  lemma RemoveOne(w: World, id: string)
    ensures var v := Next(w, Remove([id], false));
            v.table == DeleteAll(w.table, {id}) && v.now == w.now && v.started == w.started
  {
    hide Update;
    hide AdminForm.Submit;
    assert Elements([id]) == {id};
  }

  lemma CreateUnder(w: World, id: string, n: NewLink)
    requires id !in w.table.rows
    ensures var v := Exec(w, [Submit(n), TryInsert(w.started, id, false)]);
            v.table == Create(w.table, id, n, w.now).0 && v.now == w.now && v.started == w.started + 1
  {
    hide Update;
    hide AdminForm.Submit;
    ExecTwo(w, [Submit(n), TryInsert(w.started, id, false)]);
    hide Exec;
  }

  lemma EditOver(w: World, id: string, form: AdminForm.Posted, arg: UpdateParams)
    requires id in w.table.rows && AdminForm.Submit(w.table.rows[id].link, form, w.now) == Ok(arg)
    requires arg.id == id && arg.newId == id
    ensures var v := Exec(w, [Open(id, false), Validate(w.started, form), Save(w.started, false)]);
            LastAnswer(v) == Some(Saved) && v.table == Update(w.table, arg).0
  {
    hide Update;
    hide AdminForm.Submit;
    var req, steps := w.started, [Open(id, false), Validate(w.started, form), Save(w.started, false)];
    ExecThree(w, steps);
    OpenBegins(w, id);
    hide Exec;
    var v := Begin(w, Editing(w.table.rows[id].serial, w.table.rows[id].link));
    ValidateStep(v, req, form, arg);
    hide LastAnswer;
    SaveAnswer(Next(v, Validate(req, form)), req, false);
    hide Next;
    UpdateSucceeds(w.table, arg);
  }

  lemma UpdateSucceeds(t: Table, arg: UpdateParams)
    requires arg.id in t.rows && arg.newId == arg.id
    ensures Update(t, arg).1 == Ok(1)
  {
  }

  lemma ValidateStep(v: World, req: nat, form: AdminForm.Posted, arg: UpdateParams)
    requires req in v.pending && v.pending[req].Editing?
    requires AdminForm.Submit(v.pending[req].link, form, v.now) == Ok(arg)
    ensures var x := Next(v, Validate(req, form));
            && x.table == v.table && req in x.pending
            && x.pending[req] == Saving(v.pending[req].serial, v.pending[req].link, arg, v.now)
  {
    hide Update;
    hide AdminForm.Submit;
  }

  /** A page outlives its link: an admin is shown a form, the link is deleted, a new one is created under
      its id, and the form is posted as it was shown. */
  function Outlived(w: World, id: string, n: NewLink): seq<Step>
    requires id in w.table.rows
  {
    [Show(id, false), Remove([id], false), Submit(n), TryInsert(w.started + 1, id, false),
     Open(id, false), Validate(w.started + 2, AdminForm.Untouched(w.table.rows[id].link, true)), Save(w.started + 2, false)]
  }

  /** If the form passes, the new link is overwritten with what the page showed of the old one, although
      its handler read and wrote the same row. */
  lemma StalePageOverwrites(w: World, id: string, n: NewLink)
    requires Conserved(w) && id in w.table.rows && AllowedID(id)
    requires var seen, l := w.table.rows[id].link, LinkOf(id, n, w.now);
             && AdminForm.Printable(seen) && AdminForm.Printable(l)
             && AdminForm.Submit(l, AdminForm.Untouched(seen, true), w.now).Ok?
    ensures var seen, l, v := w.table.rows[id].link, LinkOf(id, n, w.now), Exec(w, Outlived(w, id, n));
            && LastAnswer(v) == Some(Saved)
            && id in v.table.rows && v.table.rows[id].serial != w.table.rows[id].serial
            && v.table.rows[id].link == Edited(l, AdminForm.Stale(seen, l, true))
  {
    hide AdminForm.Submit;
    hide AdminForm.Untouched;
    hide AdminForm.Stale;
    hide AdminForm.Printable;
    hide AllowedID;
    hide LastAnswer;
    hide Next;
    hide Exec;
    hide Conserved;
    var seen, l := w.table.rows[id].link, LinkOf(id, n, w.now);
    var form, steps := AdminForm.Untouched(seen, true), Outlived(w, id, n);
    RowsHaveTheirIds(w);
    AdminForm.StaleSubmit(seen, l, true, w.now);
    StaleKeepsId(seen, l, id);
    var arg := AdminForm.Stale(seen, l, true);
    ShowAnswers(w, id);
    ShowKeepsClock(w, id);
    var w1 := Next(w, Show(id, false));
    RemoveOne(w1, id);
    var w2 := Next(w1, Remove([id], false));
    CreateUnder(w2, id, n);
    var w4 := Exec(w2, [Submit(n), TryInsert(w2.started, id, false)]);
    EditOver(w4, id, form, arg);
    ExecTwo(w, steps[..2]);
    assert steps[..2] == [Show(id, false), Remove([id], false)];
    assert steps[2..4] == [Submit(n), TryInsert(w2.started, id, false)];
    assert steps[4..] == [Open(id, false), Validate(w4.started, form), Save(w4.started, false)];
    assert steps == steps[..2] + (steps[2..4] + steps[4..]);
    ExecConcat(w, steps[..2], steps[2..4] + steps[4..]);
    ExecConcat(w2, steps[2..4], steps[4..]);
  }

  lemma StaleKeepsId(seen: Link, l: Link, id: string)
    requires seen.id == l.id == id && AllowedID(id)
    ensures AdminForm.Stale(seen, l, true).id == id && AdminForm.Stale(seen, l, true).newId == id
  {
    AdminForm.AllowedIsTrimmed(id);
    Text.TrimSpaceFixes(id);
    hide AllowedID;
    hide Text.TrimSpace;
  }

  lemma ShowKeepsClock(w: World, id: string)
    requires id in w.table.rows
    ensures Next(w, Show(id, false)).now == w.now && Next(w, Show(id, false)).started == w.started + 1
  {
    hide Update;
    hide AdminForm.Submit;
  }

  // ---- What an edit does to the link that it finds ----

  /** A successful save leaves the table as it is exactly if it asks for what is under the id by then. */
  lemma HarmlessSave(w: World, req: nat)
    requires RequestsOk(w) && req in w.pending && w.pending[req].Saving?
    requires LastAnswer(Next(w, Save(req, false))) == Some(Saved)
    ensures var arg := w.pending[req].arg;
            && arg.id in w.table.rows
            && (Next(w, Save(req, false)).table == w.table <==> arg == AdminForm.Same(w.table.rows[arg.id].link))
  {
    hide Next;
    hide Update;
    hide Links.Valid;
    hide PendingOk;
    hide EventOk;
    hide AdminForm.Same;
    SaveAnswer(w, req, false);
    UpdateOks(w.table, w.pending[req].arg);
    AdminForm.OnlySameChangesNothing(w.table, w.pending[req].arg);
  }

  lemma UpdateOks(t: Table, arg: UpdateParams)
    ensures var r := Update(t, arg).1; r.Ok? ==> r == Ok(0) || r == Ok(1)
  {
  }

  /** A link that will be written stays what it is until the request is answered. */
  lemma NextSaving(w: World, s: Step, req: nat)
    requires req < w.started && req in w.pending && w.pending[req].Saving? && req in Next(w, s).pending
    ensures Next(w, s).pending[req] == w.pending[req]
  {
    hide Update;
    hide AdminForm.Submit;
  }

  lemma {:induction false} RunSaving(w: World, steps: seq<Step>, req: nat)
    requires req < w.started && req in w.pending && w.pending[req].Saving? && req in Exec(w, steps).pending
    ensures Exec(w, steps).pending[req] == w.pending[req]
    decreases |steps|
  {
    hide Next;
    if steps != [] {
      var v := Next(w, steps[0]);
      StartedGrows(w, steps[0]);
      if req in v.pending {
        NextSaving(w, steps[0], req);
        RunSaving(v, steps[1..], req);
      } else {
        RunForgets(v, steps[1..], req);
      }
    }
  }

  /** The state at the write of an edit of which the handler reads the link, any requests come in between,
      it checks this form, and any requests come in between again. */
  function AtWrite(r: World, id: string, a: seq<Step>, form: AdminForm.Posted, b: seq<Step>): World {
    Exec(AtCheck(r, id, a), [Validate(r.started, form)] + b)
  }

  function AtCheck(r: World, id: string, a: seq<Step>): World {
    Exec(Next(r, Open(id, false)), a)
  }

  /** The form has passed, and so far there is no answer. */
  predicate Passed(r: World, id: string, a: seq<Step>, form: AdminForm.Posted, b: seq<Step>) {
    && r.started in AtCheck(r, id, a).pending && AtCheck(r, id, a).pending[r.started].Editing?
    && r.started in AtWrite(r, id, a, form, b).pending
  }

  lemma ValidateForgets(m: World, req: nat, form: AdminForm.Posted, b: seq<Step>)
    requires req < m.started && req in m.pending && m.pending[req].Editing?
    requires req in Exec(m, [Validate(req, form)] + b).pending
    ensures var p, n := m.pending[req], Next(m, Validate(req, form));
            && AdminForm.Submit(p.link, form, m.now).Ok?
            && Exec(m, [Validate(req, form)] + b) == Exec(n, b) && n.started == m.started
            && n.table == m.table && req in n.pending
            && n.pending[req] == Saving(p.serial, p.link, AdminForm.Submit(p.link, form, m.now).value, m.now)
  {
    hide Next;
    hide AdminForm.Submit;
    var n := Next(m, Validate(req, form));
    NextIs(m, Validate(req, form));
    assert ([Validate(req, form)] + b)[1..] == b;
    hide Exec;
    if AdminForm.Submit(m.pending[req].link, form, m.now).Err? {
      RunForgets(n, b, req);
    }
  }

  /** What is written was read by the handler and asked for by its form. */
  lemma WrittenIsPosted(r: World, id: string, a: seq<Step>, form: AdminForm.Posted, b: seq<Step>)
    requires RequestsOk(r) && Passed(r, id, a, form, b)
    ensures id in r.table.rows && r.started in AtWrite(r, id, a, form, b).pending
    ensures var row, now := r.table.rows[id], AtCheck(r, id, a).now;
            && AdminForm.Submit(row.link, form, now).Ok?
            && AtWrite(r, id, a, form, b).pending[r.started]
               == Saving(row.serial, row.link, AdminForm.Submit(row.link, form, now).value, now)
  {
    hide Next;
    hide Exec;
    hide RequestsOk;
    hide AdminForm.Submit;
    OpenFinds(r, id, a);
    OpenBegins(r, id);
    var v, m := Next(r, Open(id, false)), AtCheck(r, id, a);
    RunHolds(v, a, r.started);
    RunStarted(v, a);
    ValidateForgets(m, r.started, form, b);
    RunSaving(Next(m, Validate(r.started, form)), b, r.started);
  }

  lemma {:induction false} RunStarted(w: World, steps: seq<Step>)
    ensures w.started <= Exec(w, steps).started
    decreases |steps|
  {
    hide Next;
    if steps != [] {
      StartedGrows(w, steps[0]);
      RunStarted(Next(w, steps[0]), steps[1..]);
    }
  }

  lemma RunToWrite(r: World, id: string, a: seq<Step>, form: AdminForm.Posted, b: seq<Step>)
    requires RequestsOk(r) && Conserved(r)
    ensures var x := AtWrite(r, id, a, form, b);
            && RequestsOk(x) && Conserved(x)
            && x == Exec(Next(r, Open(id, false)), a + ([Validate(r.started, form)] + b))
    ensures RequestsOk(Next(r, Open(id, false))) && Conserved(Next(r, Open(id, false)))
  {
    hide Next;
    hide RequestsOk;
    hide Conserved;
    NextConserves(r, Open(id, false));
    NextRequestsOk(r, Open(id, false));
    var v := Next(r, Open(id, false));
    ExecConcat(v, a, [Validate(r.started, form)] + b);
    hide Exec;
    RunRequestsOk(v, a + ([Validate(r.started, form)] + b));
  }

  /** From the page to the write, whatever comes in between: an edit that is posted as the page was shown
      leaves everything as it is, exactly if the link that it then finds has the values of the page, and the
      expiry that goes with the page and the link that its handler read. */
  lemma PageIsHarmless(w: World, id: string, before: seq<Step>, a: seq<Step>, b: seq<Step>, withExpiry: bool)
    requires RequestsOk(w) && Conserved(w) && id in w.table.rows && AdminForm.Printable(w.table.rows[id].link)
    requires var r, form := Exec(Next(w, Show(id, false)), before), AdminForm.Untouched(w.table.rows[id].link, withExpiry);
             && Passed(r, id, a, form, b)
             && (id in r.table.rows ==> AdminForm.Printable(r.table.rows[id].link))
             && LastAnswer(Next(AtWrite(r, id, a, form, b), Save(r.started, false))) == Some(Saved)
    ensures var r, seen := Exec(Next(w, Show(id, false)), before), w.table.rows[id].link;
            var x := AtWrite(r, id, a, AdminForm.Untouched(seen, withExpiry), b);
            && id in r.table.rows && id in x.table.rows
            && (Next(x, Save(r.started, false)).table == x.table
                <==> AdminForm.Stale(seen, r.table.rows[id].link, withExpiry) == AdminForm.Same(x.table.rows[id].link))
  {
    hide Next;
    hide RequestsOk;
    hide Conserved;
    hide LastAnswer;
    hide AtWrite;
    hide Passed;
    hide AdminForm.Submit;
    hide AdminForm.Untouched;
    hide AdminForm.Stale;
    hide AdminForm.Same;
    hide AdminForm.Printable;
    var p, seen := Next(w, Show(id, false)), w.table.rows[id].link;
    var form, r := AdminForm.Untouched(seen, withExpiry), Exec(p, before);
    NextConserves(w, Show(id, false));
    NextRequestsOk(w, Show(id, false));
    RunRequestsOk(p, before);
    hide Exec;
    WrittenIsPosted(r, id, a, form, b);
    RunToWrite(r, id, a, form, b);
    AdminForm.StaleSubmit(seen, r.table.rows[id].link, withExpiry, AtCheck(r, id, a).now);
    StaleWritesTo(seen, r.table.rows[id].link, withExpiry);
    RowsHaveTheirIds(r);
    HarmlessSave(AtWrite(r, id, a, form, b), r.started);
  }

  lemma StaleWritesTo(seen: Link, l: Link, withExpiry: bool)
    ensures AdminForm.Stale(seen, l, withExpiry).id == l.id
  {
  }

  /** While nobody deletes or edits the link between the handler's read and its write, and no other link takes
      its id, that is so exactly if the page was stale in no field that it prints when it was posted. */
  lemma FreshPageIsHarmless(w: World, id: string, before: seq<Step>, a: seq<Step>, b: seq<Step>, withExpiry: bool)
    requires RequestsOk(w) && Conserved(w) && id in w.table.rows && AdminForm.Printable(w.table.rows[id].link)
    requires var r, form := Exec(Next(w, Show(id, false)), before), AdminForm.Untouched(w.table.rows[id].link, withExpiry);
             var between := a + ([Validate(r.started, form)] + b);
             && Passed(r, id, a, form, b)
             && (id in r.table.rows ==> AdminForm.Printable(r.table.rows[id].link))
             && LastAnswer(Next(AtWrite(r, id, a, form, b), Save(r.started, false))) == Some(Saved)
             && NeverDisturbed(Next(r, Open(id, false)), between, id)
             && NeverTakenOver(Next(r, Open(id, false)), between, id)
    ensures var r, seen := Exec(Next(w, Show(id, false)), before), w.table.rows[id].link;
            var x := AtWrite(r, id, a, AdminForm.Untouched(seen, withExpiry), b);
            && id in r.table.rows
            && var l := r.table.rows[id].link;
               Next(x, Save(r.started, false)).table == x.table <==>
               && AllowedID(l.id) && l.payee != "" && l.amount >= 0
               && seen.id == l.id && Text.TrimSpace(seen.payee) == l.payee && seen.amount == l.amount
               && AdminForm.Kept(seen.description) == l.description
               && (withExpiry ==> AdminForm.SameSecond(seen.expiresOn, l.expiresOn))
  {
    hide Next;
    hide RequestsOk;
    hide Conserved;
    hide LastAnswer;
    hide AtWrite;
    hide AdminForm.Submit;
    hide AdminForm.Untouched;
    hide AdminForm.Stale;
    hide AdminForm.Same;
    hide AdminForm.Printable;
    hide AllowedID;
    hide Text.TrimSpace;
    hide AdminForm.Kept;
    hide AdminForm.SameSecond;
    hide NeverDisturbed;
    hide NeverTakenOver;
    hide SameButAccess;
    var p, seen := Next(w, Show(id, false)), w.table.rows[id].link;
    var form, r := AdminForm.Untouched(seen, withExpiry), Exec(p, before);
    NextConserves(w, Show(id, false));
    NextRequestsOk(w, Show(id, false));
    RunRequestsOk(p, before);
    PageIsHarmless(w, id, before, a, b, withExpiry);
    WrittenIsPosted(r, id, a, form, b);
    hide Passed;
    hide Exec;
    var l, now := r.table.rows[id].link, AtCheck(r, id, a).now;
    AdminForm.StaleSubmit(seen, l, withExpiry, now);
    AdminForm.StaleEdit(seen, l, withExpiry, now);
    StaysToWrite(r, id, a, form, b);
    SameIgnoresAccess(r.table.rows[id], AtWrite(r, id, a, form, b).table.rows[id]);
  }

  /** Undisturbed and not taken over, the link is the same at the write as at the read but for its last access. */
  lemma StaysToWrite(r: World, id: string, a: seq<Step>, form: AdminForm.Posted, b: seq<Step>)
    requires RequestsOk(r) && Conserved(r) && id in r.table.rows
    requires var between := a + ([Validate(r.started, form)] + b);
             && NeverDisturbed(Next(r, Open(id, false)), between, id)
             && NeverTakenOver(Next(r, Open(id, false)), between, id)
    requires id in AtWrite(r, id, a, form, b).table.rows
    ensures SameButAccess(r.table.rows[id], AtWrite(r, id, a, form, b).table.rows[id])
  {
    hide Next;
    hide RequestsOk;
    hide Conserved;
    hide AtWrite;
    hide NeverDisturbed;
    hide SameButAccess;
    hide NextHolder;
    var v, between := Next(r, Open(id, false)), a + ([Validate(r.started, form)] + b);
    OpenBegins(r, id);
    RunToWrite(r, id, a, form, b);
    hide Exec;
    LinkStaysOrGoes(v, between, id);
    RunIsUnder(v, between, id, r.table.rows[id].serial);
    NobodyMoves(v, between, id, r.table.rows[id].serial);
  }

  lemma {:induction false} NobodyMoves(w: World, steps: seq<Step>, id: string, serial: nat)
    requires NeverTakenOver(w, steps, id)
    ensures Holder(w, steps, id, serial) == serial
    decreases |steps|
  {
    hide Next;
    hide Mover;
    if steps != [] {
      NobodyMoves(Next(w, steps[0]), steps[1..], id, serial);
    }
  }

  lemma SameIgnoresAccess(r: Row, s: Row)
    requires SameButAccess(r, s)
    ensures AdminForm.Same(s.link) == AdminForm.Same(r.link)
  {
  }

  /** Saving an untouched form of the link that its handler reads succeeds and leaves the table as it is,
      whatever else runs, as long as nobody deletes or edits the link and it does not expire meanwhile. */
  lemma SaveUntouched(r: World, id: string, a: seq<Step>, b: seq<Step>, withExpiry: bool)
    requires RequestsOk(r) && Conserved(r) && id in r.table.rows && AdminForm.Printable(r.table.rows[id].link)
    requires var l := r.table.rows[id].link;
             && AllowedID(id) && l.payee != "" && Text.Trimmed(l.payee) && l.amount >= 0
             && (l.description.Some? ==> !Text.Blank(l.description.value))
    requires var l, form := r.table.rows[id].link, AdminForm.Untouched(r.table.rows[id].link, withExpiry);
             && Passed(r, id, a, form, b)
             && NeverDisturbed(Next(r, Open(id, false)), a + ([Validate(r.started, form)] + b), id)
             && !ExpiredBy(l, AtWrite(r, id, a, form, b).now)
    ensures var x := AtWrite(r, id, a, AdminForm.Untouched(r.table.rows[id].link, withExpiry), b);
            var y := Next(x, Save(r.started, false));
            LastAnswer(y) == Some(Saved) && y.table == x.table
  {
    hide Next;
    hide RequestsOk;
    hide Conserved;
    hide LastAnswer;
    hide AtWrite;
    hide AllowedID;
    hide Text.Trimmed;
    hide Text.Blank;
    hide AdminForm.Submit;
    hide AdminForm.Untouched;
    hide AdminForm.Printable;
    hide NeverDisturbed;
    hide SameButAccess;
    var l, form := r.table.rows[id].link, AdminForm.Untouched(r.table.rows[id].link, withExpiry);
    var v, between := Next(r, Open(id, false)), a + ([Validate(r.started, form)] + b);
    RowsHaveTheirIds(r);
    OpenBegins(r, id);
    WrittenIsPosted(r, id, a, form, b);
    hide Passed;
    RunToWrite(r, id, a, form, b);
    hide Exec;
    LiveLinkStays(v, between, id);
    AdminForm.UntouchedEdit(l, withExpiry, AtCheck(r, id, a).now);
    var x := AtWrite(r, id, a, form, b);
    SameIgnoresAccess(r.table.rows[id], x.table.rows[id]);
    SaveSame(x, r.started, id);
  }

  lemma SaveSame(x: World, req: nat, id: string)
    requires RequestsOk(x) && req in x.pending && x.pending[req].Saving? && id in x.table.rows
    requires x.pending[req].arg == AdminForm.Same(x.table.rows[id].link)
    ensures var y := Next(x, Save(req, false)); LastAnswer(y) == Some(Saved) && y.table == x.table
  {
    hide Next;
    hide LastAnswer;
    hide Update;
    hide PendingOk;
    hide EventOk;
    hide AdminForm.Same;
    SaveAnswer(x, req, false);
    AdminForm.SameChangesNothing(x.table, id);
  }

  // ---- Lost updates ----

  /** Two admins open the same link, one saves a change, and the other then saves the form as it was. */
  function Overtaken(w: World, id: string, form: AdminForm.Posted): seq<Step>
    requires id in w.table.rows
  {
    [Show(id, false), Open(id, false), Open(id, false), Validate(w.started + 2, form), Save(w.started + 2, false),
     Validate(w.started + 1, AdminForm.Untouched(w.table.rows[id].link, true)), Save(w.started + 1, false)]
  }

  lemma TwoOpened(w: World, id: string) returns (x: World)
    requires id in w.table.rows
    ensures x == Exec(w, [Show(id, false), Open(id, false), Open(id, false)])
    ensures x.table == w.table && x.now == w.now && w.started + 1 in x.pending && w.started + 2 in x.pending
    ensures var p := Editing(w.table.rows[id].serial, w.table.rows[id].link);
            x.pending[w.started + 1] == p && x.pending[w.started + 2] == p
  {
    ExecThree(w, [Show(id, false), Open(id, false), Open(id, false)]);
    hide Exec;
    hide Next;
    var w1 := Next(w, Show(id, false));
    NextIs(w, Show(id, false));
    var w2 := Next(w1, Open(id, false));
    NextIs(w1, Open(id, false));
    x := Next(w2, Open(id, false));
    NextIs(w2, Open(id, false));
  }

  /** Checking and writing of one edit leave the others where they are. */
  lemma CheckAndSave(w: World, req: nat, form: AdminForm.Posted, arg: UpdateParams) returns (x: World)
    requires req in w.pending && w.pending[req].Editing?
    requires AdminForm.Submit(w.pending[req].link, form, w.now) == Ok(arg)
    requires arg.id in w.table.rows && arg.newId == arg.id
    ensures x == Exec(w, [Validate(req, form), Save(req, false)])
    ensures LastAnswer(x) == Some(Saved) && x.table == Update(w.table, arg).0 && x.now == w.now
    ensures forall other :: other in w.pending && other != req ==> other in x.pending && x.pending[other] == w.pending[other]
  {
    hide Update;
    hide AdminForm.Submit;
    ExecTwo(w, [Validate(req, form), Save(req, false)]);
    hide Exec;
    hide Next;
    var v := Next(w, Validate(req, form));
    NextIs(w, Validate(req, form));
    UpdateSucceeds(w.table, arg);
    x := Next(v, Save(req, false));
    NextIs(v, Save(req, false));
  }

  lemma EditedBack(t: Table, id: string, arg: UpdateParams)
    requires Links.Valid(t) && id in t.rows && arg.id == id && arg.newId == id
    ensures var u := Update(t, arg).0;
            && id in u.rows && u.rows[id].link == Edited(t.rows[id].link, arg)
            && Update(u, AdminForm.Same(t.rows[id].link)).0 == t
  {
    var row, same := t.rows[id], AdminForm.Same(t.rows[id].link);
    var u := Update(t, arg).0;
    assert u.rows == t.rows[id := row.(link := Edited(row.link, arg))];
    assert Edited(Edited(row.link, arg), same) == row.link;
    assert (u.rows - {id})[id := row] == t.rows;
  }

  /** The lost update. Whatever the first admin changes is undone, both are told that their edit is saved, and
      the second edit's log is empty: its page was fresh and its row is the one shown, read and written. */
  lemma LostUpdate(w: World, id: string, form: AdminForm.Posted, arg: UpdateParams)
    requires Conserved(w) && id in w.table.rows
    requires AdminForm.Submit(w.table.rows[id].link, form, w.now) == Ok(arg) && arg.newId == id
    requires var l := w.table.rows[id].link;
             AdminForm.Submit(l, AdminForm.Untouched(l, true), w.now) == Ok(AdminForm.Same(l))
    ensures var l, x, y := w.table.rows[id].link, Exec(w, Overtaken(w, id, form)[..5]), Exec(w, Overtaken(w, id, form));
            && LastAnswer(x) == Some(Saved) && id in x.table.rows && x.table.rows[id].link == Edited(l, arg)
            && LastAnswer(y) == Some(Saved) && y.table == w.table
            && AdminForm.Changes(l, AdminForm.Same(l)) == []
  {
    hide AdminForm.Submit;
    hide AdminForm.Untouched;
    hide Update;
    hide Next;
    hide Exec;
    hide LastAnswer;
    hide Edited;
    var l, steps := w.table.rows[id].link, Overtaken(w, id, form);
    RowsHaveTheirIds(w);
    SubmitKeepsId(l, form, w.now);
    var v := TwoOpened(w, id);
    var x := CheckAndSave(v, w.started + 2, form, arg);
    EditedBack(w.table, id, arg);
    var y := CheckAndSave(x, w.started + 1, AdminForm.Untouched(l, true), AdminForm.Same(l));
    assert steps[..3] == [Show(id, false), Open(id, false), Open(id, false)];
    assert steps[3..5] == [Validate(w.started + 2, form), Save(w.started + 2, false)];
    assert steps[5..] == [Validate(w.started + 1, AdminForm.Untouched(l, true)), Save(w.started + 1, false)];
    assert steps[..5] == steps[..3] + steps[3..5] && steps == steps[..5] + steps[5..];
    ExecConcat(w, steps[..3], steps[3..5]);
    ExecConcat(w, steps[..5], steps[5..]);
  }

  lemma SubmitKeepsId(l: Link, form: AdminForm.Posted, now: Time)
    requires AdminForm.Submit(l, form, now).Ok?
    ensures AdminForm.Submit(l, form, now).value.id == l.id
  {
    hide AdminForm.Submit;
    hide AllowedID;
    AdminForm.AcceptedEdit(l, form, now);
  }

  /** The log of an edit, at its write: it compares with the link that the handler read, and leads from the link
      that is overwritten to the result exactly if the fields that it leaves out have stayed the same. */
  lemma LogOfSave(w: World, req: nat)
    requires RequestsOk(w) && req in w.pending && w.pending[req].Saving?
    requires LastAnswer(Next(w, Save(req, false))) == Some(Saved)
    ensures var p, v := w.pending[req], Next(w, Save(req, false));
            && p.arg.id in w.table.rows && p.arg.newId in v.table.rows
            && var log := AdminForm.Changes(p.link, p.arg);
               var b, read := AdminForm.FieldsOf(w.table.rows[p.arg.id].link), AdminForm.FieldsOf(p.link);
               var after := AdminForm.FieldsOf(v.table.rows[p.arg.newId].link);
               && (AdminForm.ApplyAll(b, log, false) == after <==> AdminForm.AgreeElsewhere(b, read, after))
               && (AdminForm.ApplyAll(after, log, true) == b <==> b == read)
               && (log == [] <==> after == read)
  {
    hide Next;
    hide AllowedID;
    hide Links.Valid;
    hide EventOk;
    hide AdminForm.Changes;
    hide AdminForm.ApplyAll;
    hide AdminForm.AgreeElsewhere;
    var p := w.pending[req];
    SaveOutcome(w, req, false);
    AdminForm.LogAtTheWrite(w.table.rows[p.arg.id].link, p.link, p.arg);
    SameFields(w.table.rows[p.arg.id].link, p.link, p.arg);
  }

  lemma SameFields(before: Link, read: Link, arg: UpdateParams)
    ensures AdminForm.FieldsOf(Edited(before, arg)) == AdminForm.FieldsOf(Edited(read, arg))
  {
  }
}
