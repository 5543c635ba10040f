/** The admin pages as a whole: requests that the route table dispatches and the gate lets through are what
    drives edits and deletes of links (internal/web/web.go, admin.go and authn.go together). */
module AdminPages {
  import opened Wrappers
  import opened Links
  import opened Session
  import A = Authn
  import AdminForm
  import LinkIds
  import R = Runs
  import Site
  import Visits = Serving

  // ---- Dispatch ----

  /** The authority that the route table asks for on top of ROLE_ADMIN. */
  function AuthorityOf(handler: LinkIds.Handler): string {
    match handler
    case AdminUpdate => "UPDATE"
    case AdminDelete => "DELETE"
    case AdminDeleteMany => "DELETE"
    case _ => ""
  }

  predicate IsRoute(r: LinkIds.Route, verb: string, path: string) {
    r in LinkIds.ADMIN && LinkIds.Wins(r, verb, path)
  }

  ghost function Dispatch(verb: string, path: string): Option<LinkIds.Route> {
    if exists r :: IsRoute(r, verb, path) then
      var r :| IsRoute(r, verb, path);
      Some(r)
    else None
  }

  /** The id in the path. */
  function IdOf(r: LinkIds.Route, path: string): string {
    if path == "" then "" else
    match LinkIds.PathId(r.pattern, LinkIds.Segments(path[1..])) case None => "" case Some(id) => id
  }

  /** What a handler does first: the list and malformed bulk deletes leave the table alone. */
  function Work(handler: LinkIds.Handler, id: string, ids: seq<string>, down: bool): Option<R.Step> {
    match handler
    case AdminSingle => Some(R.Show(id, down))
    case AdminUpdate => Some(R.Open(id, down))
    case AdminDelete => Some(R.Remove([id], down))
    case AdminDeleteMany => if 1 <= |ids| <= Site.MAX_DELETE_MANY then Some(R.Remove(ids, down)) else None
    case _ => None
  }

  // ---- Runs ----

  /** `ids` is the body of a bulk delete, `form` that of an edit. */
  datatype Act =
    | Tick(d: nat)
    | Account(account: A.Step)
    | Public(step: R.Step)
    | Ask(r: A.Request, path: string, ids: seq<string>, form: AdminForm.Posted, faults: (bool, bool), down: bool)

  /** A request that got through the gate and began an edit: its record, its path and its form. */
  datatype Owner = Owner(entry: A.Entry, path: string, form: AdminForm.Posted)

  datatype Whole = Whole(realm: A.Realm, site: R.World, owners: map<nat, Owner>)

  predicate IsAccount(s: A.Step) {
    s.SetUser? || s.DropUser? || s.LogIn?
  }

  /** Everything but the clock and what begins behind the gate. */
  predicate IsPublic(s: R.Step) {
    !s.Tick? && !s.Show? && !s.Open? && !s.Remove?
  }

  /** What an act is to the accounts and the gate. */
  ghost function RealmStep(a: Act): seq<A.Step> {
    match a
    case Tick(d) => [A.Tick(d)]
    case Account(s) => if IsAccount(s) then [s] else []
    case Public(_) => []
    case Ask(r, path, _, _, faults, _) =>
      match Dispatch(r.verb, path)
      case None => []
      case Some(route) => [A.Ask(r, AuthorityOf(route.handler), faults)]
  }

  ghost function Passes(h: Hmac, bcrypt: A.Bcrypt, w: Whole, a: Act): A.Verdict
    requires a.Ask? && Dispatch(a.r.verb, a.path).Some?
  {
    A.Gate(h, bcrypt, w.realm.users, a.faults, a.r, w.realm.now, AuthorityOf(Dispatch(a.r.verb, a.path).value.handler))
  }

  ghost function EntryOf(h: Hmac, bcrypt: A.Bcrypt, w: Whole, a: Act): A.Entry
    requires a.Ask? && Dispatch(a.r.verb, a.path).Some? && Passes(h, bcrypt, w, a).Handled?
  {
    A.Entry(a.r, AuthorityOf(Dispatch(a.r.verb, a.path).value.handler), Passes(h, bcrypt, w, a).principal,
            w.realm.users, w.realm.now, w.realm.logins)
  }

  /** What an act does to the links. */
  ghost function SiteStep(h: Hmac, bcrypt: A.Bcrypt, w: Whole, a: Act): Option<R.Step> {
    match a
    case Tick(d) => Some(R.Tick(d))
    case Account(_) => None
    case Public(s) =>
      if s.Validate? then
        // the form that is checked is the one that came with the request
        if s.req in w.owners then Some(R.Validate(s.req, w.owners[s.req].form)) else None
      else if IsPublic(s) then Some(s) else None
    case Ask(r, path, ids, _, faults, down) =>
      if Dispatch(r.verb, path).None? || !Passes(h, bcrypt, w, a).Handled? then None
      else
        var route := Dispatch(r.verb, path).value;
        Work(route.handler, IdOf(route, path), ids, down)
  }

  ghost function Next(h: Hmac, bcrypt: A.Bcrypt, w: Whole, a: Act): Whole {
    var s := SiteStep(h, bcrypt, w, a);
    var site := if s.None? then w.site else R.Next(w.site, s.value);
    var owners := if a.Ask? && s.Some? && s.value.Open?
                  then w.owners[w.site.started := Owner(EntryOf(h, bcrypt, w, a), a.path, a.form)] else w.owners;
    Whole(A.Exec(h, bcrypt, w.realm, RealmStep(a)), site, owners)
  }

  ghost function Exec(h: Hmac, bcrypt: A.Bcrypt, w: Whole, acts: seq<Act>): Whole {
    if acts == [] then w else Next(h, bcrypt, Exec(h, bcrypt, w, acts[..|acts| - 1]), acts[|acts| - 1])
  }

  ghost function RealmSteps(acts: seq<Act>): seq<A.Step> {
    if acts == [] then [] else RealmSteps(acts[..|acts| - 1]) + RealmStep(acts[|acts| - 1])
  }

  function Start(now: Time, users: A.Users): Whole {
    Whole(A.Realm(now, users, [], []), R.Init(now), map[])
  }

  // ---- Both halves of a run ----

  lemma {:induction false} RealmConcat(h: Hmac, bcrypt: A.Bcrypt, w: A.Realm, a: seq<A.Step>, b: seq<A.Step>)
    ensures A.Exec(h, bcrypt, w, a + b) == A.Exec(h, bcrypt, A.Exec(h, bcrypt, w, a), b)
    decreases |a|
  {
    hide A.Next;
    if a == [] {
      assert a + b == b;
    } else {
      RealmConcat(h, bcrypt, A.Next(h, bcrypt, w, a[0]), a[1..], b);
      assert (a + b)[1..] == a[1..] + b;
    }
  }

  /** To accounts and gate the run is one of theirs. */
  lemma {:induction false} RealmOfRun(h: Hmac, bcrypt: A.Bcrypt, w: Whole, acts: seq<Act>)
    ensures Exec(h, bcrypt, w, acts).realm == A.Exec(h, bcrypt, w.realm, RealmSteps(acts))
  {
    hide A.Next;
    hide RealmStep;
    hide SiteStep;
    if acts != [] {
      var front, last := acts[..|acts| - 1], acts[|acts| - 1];
      RealmOfRun(h, bcrypt, w, front);
      RealmConcat(h, bcrypt, w.realm, RealmSteps(front), RealmStep(last));
    }
  }

  lemma OneRealmStep(h: Hmac, bcrypt: A.Bcrypt, w: A.Realm, s: A.Step)
    ensures A.Exec(h, bcrypt, w, [s]) == A.Next(h, bcrypt, w, s)
  {
    hide A.Next;
    assert A.Exec(h, bcrypt, w, [s]) == A.Exec(h, bcrypt, A.Next(h, bcrypt, w, s), [s][1..]);
  }

  lemma GateEnters(h: Hmac, bcrypt: A.Bcrypt, w: A.Realm, r: A.Request, authority: string, faults: (bool, bool))
    requires A.Gate(h, bcrypt, w.users, faults, r, w.now, authority).Handled?
    ensures var p := A.Gate(h, bcrypt, w.users, faults, r, w.now, authority).principal;
            A.Next(h, bcrypt, w, A.Ask(r, authority, faults)).entries
            == w.entries + [A.Entry(r, authority, p, w.users, w.now, w.logins)]
  {
    hide A.Gate;
  }

  /** A request that gets through is put on record. */
  lemma AskIsEntered(h: Hmac, bcrypt: A.Bcrypt, w: Whole, a: Act)
    requires a.Ask? && Dispatch(a.r.verb, a.path).Some? && Passes(h, bcrypt, w, a).Handled?
    ensures Next(h, bcrypt, w, a).realm.entries == w.realm.entries + [EntryOf(h, bcrypt, w, a)]
  {
    hide A.Gate;
    hide A.Exec;
    hide A.Next;
    hide SiteStep;
    hide Dispatch;
    hide AuthorityOf;
    var authority := AuthorityOf(Dispatch(a.r.verb, a.path).value.handler);
    var s := A.Ask(a.r, authority, a.faults);
    assert RealmStep(a) == [s];
    OneRealmStep(h, bcrypt, w.realm, s);
    GateEnters(h, bcrypt, w.realm, a.r, authority, a.faults);
  }

  lemma EntriesStay(h: Hmac, bcrypt: A.Bcrypt, w: A.Realm, s: A.Step)
    ensures w.entries <= A.Next(h, bcrypt, w, s).entries
  {
    hide A.Gate;
    hide A.Login;
    hide New;
  }

  lemma RealmStepShort(a: Act)
    ensures |RealmStep(a)| <= 1
  {
  }

  lemma EntriesGrow(h: Hmac, bcrypt: A.Bcrypt, w: Whole, a: Act)
    ensures w.realm.entries <= Next(h, bcrypt, w, a).realm.entries
  {
    hide A.Next;
    hide SiteStep;
    hide RealmStep;
    hide EntryOf;
    RealmStepShort(a);
    var steps := RealmStep(a);
    if steps != [] {
      EntriesStay(h, bcrypt, w.realm, steps[0]);
      OneRealmStep(h, bcrypt, w.realm, steps[0]);
      assert steps == [steps[0]];
    }
  }

  // ---- Edits belong to admins ----

  /** The path leads to adminUpdate with this id. */
  ghost predicate AsksToEdit(verb: string, path: string, id: string) {
    && Dispatch(verb, path).Some?
    && Dispatch(verb, path).value.handler == LinkIds.AdminUpdate && IdOf(Dispatch(verb, path).value, path) == id
  }

  /** The path leads to adminDelete with this id, or to adminDeleteMany, with the id in the body. */
  ghost predicate AsksToDelete(verb: string, path: string, ids: seq<string>, id: string) {
    && Dispatch(verb, path).Some?
    && match Dispatch(verb, path).value.handler
       case AdminDelete => IdOf(Dispatch(verb, path).value, path) == id
       case AdminDeleteMany => id in ids
       case _ => false
  }

  predicate IsEdit(p: R.Pending) {
    p.Editing? || p.Saving?
  }

  /** The owner's request is on record with UPDATE and asked to edit this very link; what will be written is
      what its form asks for. */
  ghost predicate Owns(o: Owner, p: R.Pending, entries: seq<A.Entry>)
    requires IsEdit(p)
  {
    && o.entry in entries && o.entry.authority == "UPDATE"
    && AsksToEdit(o.entry.r.verb, o.path, p.link.id)
    && (p.Saving? ==> p.arg.id == p.link.id && AdminForm.Submit(p.link, o.form, p.at) == Ok(p.arg))
  }

  /** An edit that is on its way was begun by a request that got through to adminUpdate. */
  ghost predicate Owned(w: Whole) {
    forall req :: req in w.site.pending && IsEdit(w.site.pending[req]) ==>
      req in w.owners && Owns(w.owners[req], w.site.pending[req], w.realm.entries)
  }

  /** Open begins an edit, Validate moves it on, and nothing else does. */
  lemma EditsBegin(w: R.World, s: R.Step, req: nat)
    requires Visits.RequestsOk(w) && req in R.Next(w, s).pending && IsEdit(R.Next(w, s).pending[req])
    ensures var p := R.Next(w, s).pending[req];
            || (req < w.started && req in w.pending && p == w.pending[req])
            || (s.Open? && req == w.started && p.Editing? && p.link.id == s.id)
            || (req < w.started && s.Validate? && s.req == req && req in w.pending && w.pending[req].Editing?
                && p.Saving? && p.link == w.pending[req].link && AdminForm.Submit(p.link, s.form, p.at) == Ok(p.arg))
  {
    hide Update;
    hide AdminForm.Submit;
    hide LinkIds.AllowedID;
    hide Visits.EventOk;
  }

  lemma ArgKeepsId(l: Link, form: AdminForm.Posted, at: Time, arg: UpdateParams)
    requires AdminForm.Submit(l, form, at) == Ok(arg)
    ensures arg.id == l.id
  {
    hide AdminForm.Submit;
    hide LinkIds.AllowedID;
    AdminForm.AcceptedEdit(l, form, at);
  }

  lemma OpenIsUpdate(h: Hmac, bcrypt: A.Bcrypt, w: Whole, a: Act)
    requires SiteStep(h, bcrypt, w, a).Some? && SiteStep(h, bcrypt, w, a).value.Open?
    ensures a.Ask? && Dispatch(a.r.verb, a.path).Some? && Passes(h, bcrypt, w, a).Handled?
    ensures EntryOf(h, bcrypt, w, a).authority == "UPDATE" && EntryOf(h, bcrypt, w, a).r == a.r
    ensures AsksToEdit(a.r.verb, a.path, SiteStep(h, bcrypt, w, a).value.id)
  {
    hide A.Gate;
    hide Dispatch;
    hide IdOf;
  }

  lemma RemoveIsDelete(h: Hmac, bcrypt: A.Bcrypt, w: Whole, a: Act)
    requires SiteStep(h, bcrypt, w, a).Some? && SiteStep(h, bcrypt, w, a).value.Remove?
    ensures a.Ask? && Dispatch(a.r.verb, a.path).Some? && Passes(h, bcrypt, w, a).Handled?
    ensures EntryOf(h, bcrypt, w, a).authority == "DELETE" && EntryOf(h, bcrypt, w, a).r == a.r
    ensures forall id :: id in SiteStep(h, bcrypt, w, a).value.ids ==> AsksToDelete(a.r.verb, a.path, a.ids, id)
  {
    hide A.Gate;
    hide Dispatch;
    hide IdOf;
  }

  lemma ValidateIsOwners(h: Hmac, bcrypt: A.Bcrypt, w: Whole, a: Act)
    requires SiteStep(h, bcrypt, w, a).Some? && SiteStep(h, bcrypt, w, a).value.Validate?
    ensures var s := SiteStep(h, bcrypt, w, a).value;
            !a.Ask? && s.req in w.owners && s.form == w.owners[s.req].form
  {
    hide Dispatch;
    hide IdOf;
  }

  lemma SaveIsPublic(h: Hmac, bcrypt: A.Bcrypt, w: Whole, a: Act)
    requires SiteStep(h, bcrypt, w, a).Some? && SiteStep(h, bcrypt, w, a).value.Save?
    ensures a == Public(SiteStep(h, bcrypt, w, a).value)
  {
    hide Dispatch;
    hide IdOf;
  }

  lemma NextOwned(h: Hmac, bcrypt: A.Bcrypt, w: Whole, a: Act)
    requires Owned(w) && Visits.RequestsOk(w.site)
    ensures Owned(Next(h, bcrypt, w, a))
  {
    hide R.Next;
    hide SiteStep;
    hide EntryOf;
    hide A.Exec;
    hide RealmStep;
    hide Passes;
    hide AsksToEdit;
    hide AdminForm.Submit;
    hide Visits.RequestsOk;
    var v, s := Next(h, bcrypt, w, a), SiteStep(h, bcrypt, w, a);
    EntriesGrow(h, bcrypt, w, a);
    if s.Some? && s.value.Open? {
      OpenIsUpdate(h, bcrypt, w, a);
      AskIsEntered(h, bcrypt, w, a);
      assert EntryOf(h, bcrypt, w, a) in v.realm.entries;
    }
    if s.Some? && s.value.Validate? {
      ValidateIsOwners(h, bcrypt, w, a);
    }
    forall req | req in v.site.pending && IsEdit(v.site.pending[req])
      ensures req in v.owners && Owns(v.owners[req], v.site.pending[req], v.realm.entries)
    {
      if s.Some? {
        EditsBegin(w.site, s.value, req);
        var p := v.site.pending[req];
        if p.Saving? && s.value.Validate? && s.value.req == req
           && AdminForm.Submit(p.link, s.value.form, p.at) == Ok(p.arg) {
          ArgKeepsId(p.link, s.value.form, p.at, p.arg);
        }
      }
    }
  }

  lemma NextSite(h: Hmac, bcrypt: A.Bcrypt, w: Whole, a: Act)
    requires R.Conserved(w.site) && Visits.RequestsOk(w.site)
    ensures R.Conserved(Next(h, bcrypt, w, a).site) && Visits.RequestsOk(Next(h, bcrypt, w, a).site)
  {
    hide R.Next;
    hide SiteStep;
    hide RealmStep;
    hide R.Conserved;
    hide Visits.RequestsOk;
    var s := SiteStep(h, bcrypt, w, a);
    if s.Some? {
      R.NextConserves(w.site, s.value);
      Visits.NextRequestsOk(w.site, s.value);
    }
  }

  /** Over every run each edit on its way belongs to a request that got through for that link. */
  lemma {:induction false} RunOwned(h: Hmac, bcrypt: A.Bcrypt, now: Time, users: A.Users, acts: seq<Act>)
    ensures var w := Exec(h, bcrypt, Start(now, users), acts);
            Owned(w) && R.Conserved(w.site) && Visits.RequestsOk(w.site)
  {
    hide Next;
    if acts != [] {
      var front, last := acts[..|acts| - 1], acts[|acts| - 1];
      RunOwned(h, bcrypt, now, users, front);
      hide Owned;
      hide R.Conserved;
      hide Visits.RequestsOk;
      NextOwned(h, bcrypt, Exec(h, bcrypt, Start(now, users), front), last);
      NextSite(h, bcrypt, Exec(h, bcrypt, Start(now, users), front), last);
    }
  }

  // ---- Only admins change links ----

  /** Why a link is not under its id as it was before an act: a sweep found it expired; an edit was saved that
      a request with UPDATE asked for, of this link, and as its form says; or a request with DELETE named it. */
  ghost predicate Explained(h: Hmac, bcrypt: A.Bcrypt, w: Whole, a: Act, v: Whole, id: string)
    requires id in w.site.table.rows
  {
    || (a.Public? && a.step.Sweep?
        && var expiresOn := w.site.table.rows[id].link.expiresOn; expiresOn.Some? && expiresOn.value < w.site.now)
    || (a.Public? && a.step.Save? && a.step.req in w.site.pending && a.step.req in w.owners
        && var p, o := w.site.pending[a.step.req], w.owners[a.step.req];
           p.Saving? && p.link.id == id && Owns(o, p, w.realm.entries) && A.Rightful(h, bcrypt, o.entry))
    || (a.Ask? && AsksToDelete(a.r.verb, a.path, a.ids, id)
        && exists e :: v.realm.entries == w.realm.entries + [e] && e.r == a.r && e.authority == "DELETE"
                       && A.Rightful(h, bcrypt, e))
  }

  /** What is taken for granted about hashes and clients, of the requests of a run. */
  ghost predicate Granted(h: Hmac, bcrypt: A.Bcrypt, now: Time, users: A.Users, acts: seq<Act>) {
    var w, steps := A.Realm(now, users, [], []), RealmSteps(acts);
    && A.Exec(h, bcrypt, w, steps).now + 43_200_000_000_000 < A.Rfc3339.END
    && A.Honest(h, bcrypt, w, steps)
    && CollisionFree(h, A.Hashed(h, bcrypt, w, steps))
    && A.TagsTell(h, A.Passwords(h, bcrypt, w, steps))
  }

  lemma AllRightful(h: Hmac, bcrypt: A.Bcrypt, now: Time, users: A.Users, acts: seq<Act>)
    requires 0 <= now && forall name :: name in users ==> users[name].username == name
    requires Granted(h, bcrypt, now, users, acts)
    ensures forall e :: e in Exec(h, bcrypt, Start(now, users), acts).realm.entries ==> A.Rightful(h, bcrypt, e)
  {
    hide A.Rightful;
    hide A.Exec;
    hide A.Honest;
    hide A.Hashed;
    hide A.Passwords;
    hide Exec;
    hide RealmSteps;
    RealmOfRun(h, bcrypt, Start(now, users), acts);
    forall e | e in Exec(h, bcrypt, Start(now, users), acts).realm.entries ensures A.Rightful(h, bcrypt, e) {
      A.OnlyTheRightfulGetIn(h, bcrypt, now, users, RealmSteps(acts), e);
    }
  }

  lemma StepExplained(h: Hmac, bcrypt: A.Bcrypt, w: Whole, a: Act, id: string)
    requires Owned(w) && R.Conserved(w.site) && id in w.site.table.rows
    requires forall e :: e in Next(h, bcrypt, w, a).realm.entries ==> A.Rightful(h, bcrypt, e)
    ensures var v := Next(h, bcrypt, w, a);
            || (id in v.site.table.rows && Visits.SameButAccess(w.site.table.rows[id], v.site.table.rows[id]))
            || Explained(h, bcrypt, w, a, v, id)
  {
    hide R.Next;
    hide SiteStep;
    hide RealmStep;
    hide EntryOf;
    hide Passes;
    hide AsksToEdit;
    hide AsksToDelete;
    hide AdminForm.Submit;
    hide A.Exec;
    hide A.Rightful;
    var v, s := Next(h, bcrypt, w, a), SiteStep(h, bcrypt, w, a);
    if s.Some? {
      if !Visits.Disturbs(w.site, s.value, id) {
        if id in v.site.table.rows {
          Visits.NextStaysOrGoes(w.site, s.value, id);
        } else {
          Visits.SweepTakes(w.site, s.value, id);
          SweepIsPublic(h, bcrypt, w, a);
        }
      } else if s.value.Save? {
        SaveIsPublic(h, bcrypt, w, a);
        EntriesGrow(h, bcrypt, w, a);
        assert Owns(w.owners[s.value.req], w.site.pending[s.value.req], w.realm.entries);
      } else {
        RemoveIsDelete(h, bcrypt, w, a);
        AskIsEntered(h, bcrypt, w, a);
      }
    }
  }

  lemma SweepIsPublic(h: Hmac, bcrypt: A.Bcrypt, w: Whole, a: Act)
    requires SiteStep(h, bcrypt, w, a).Some? && SiteStep(h, bcrypt, w, a).value.Sweep?
    ensures a == Public(SiteStep(h, bcrypt, w, a).value)
  {
    hide Dispatch;
    hide IdOf;
  }

  /** In every run of the whole site, a link changes in more than its last access, or goes before it has
      expired, only by what a request asked for that the gate let through: to edit this very link, for a user
      with UPDATE, or to delete it, for a user with DELETE. */
  lemma OnlyAdminsChangeLinks(h: Hmac, bcrypt: A.Bcrypt, now: Time, users: A.Users, acts: seq<Act>, a: Act, id: string)
    requires 0 <= now && forall name :: name in users ==> users[name].username == name
    requires Granted(h, bcrypt, now, users, acts + [a])
    requires id in Exec(h, bcrypt, Start(now, users), acts).site.table.rows
    ensures var w := Exec(h, bcrypt, Start(now, users), acts);
            var v := Exec(h, bcrypt, Start(now, users), acts + [a]);
            || (id in v.site.table.rows && Visits.SameButAccess(w.site.table.rows[id], v.site.table.rows[id]))
            || Explained(h, bcrypt, w, a, v, id)
  {
    hide Next;
    hide Granted;
    hide A.Rightful;
    hide Explained;
    var w := Exec(h, bcrypt, Start(now, users), acts);
    assert (acts + [a])[..|acts|] == acts;
    AllRightful(h, bcrypt, now, users, acts + [a]);
    RunOwned(h, bcrypt, now, users, acts);
    hide Exec;
    StepExplained(h, bcrypt, w, a, id);
  }

  /** Of all steps only one shows a form. */
  lemma ShowsForm(w: R.World, s: R.Step, e: R.Event)
    requires e in R.Next(w, s).log && e !in w.log && e.answer.Shown?
    ensures s.Show? && e.id == s.id && s.id in w.table.rows && e.answer.seen == w.table.rows[s.id].link
  {
    hide AdminForm.Submit;
    hide Update;
    hide Create;
    hide Touch;
    hide DeleteAll;
    hide ExpiredIds;
  }

  lemma ShowIsSingle(h: Hmac, bcrypt: A.Bcrypt, w: Whole, a: Act)
    requires SiteStep(h, bcrypt, w, a).Some? && SiteStep(h, bcrypt, w, a).value.Show?
    ensures a.Ask? && Dispatch(a.r.verb, a.path).Some? && Passes(h, bcrypt, w, a).Handled?
    ensures EntryOf(h, bcrypt, w, a).r == a.r
    ensures var route := Dispatch(a.r.verb, a.path).value;
            route.handler == LinkIds.AdminSingle && IdOf(route, a.path) == SiteStep(h, bcrypt, w, a).value.id
  {
    hide A.Gate;
    hide Dispatch;
    hide IdOf;
  }

  /** In every run of the whole site, the form of a link is only ever shown to a request for it that the gate
      let through. */
  lemma OnlyAdminsSeeForms(h: Hmac, bcrypt: A.Bcrypt, now: Time, users: A.Users, acts: seq<Act>, a: Act, e: R.Event)
    requires 0 <= now && forall name :: name in users ==> users[name].username == name
    requires Granted(h, bcrypt, now, users, acts + [a])
    requires e in Exec(h, bcrypt, Start(now, users), acts + [a]).site.log && e.answer.Shown?
    requires e !in Exec(h, bcrypt, Start(now, users), acts).site.log
    ensures a.Ask? && Dispatch(a.r.verb, a.path).Some?
    ensures var route := Dispatch(a.r.verb, a.path).value;
            route.handler == LinkIds.AdminSingle && IdOf(route, a.path) == e.id
    ensures exists entry :: entry in Exec(h, bcrypt, Start(now, users), acts + [a]).realm.entries
                            && entry.r == a.r && A.Rightful(h, bcrypt, entry)
  {
    hide Granted;
    hide A.Rightful;
    hide A.Exec;
    hide R.Next;
    hide SiteStep;
    hide RealmStep;
    hide EntryOf;
    hide Passes;
    hide Dispatch;
    hide IdOf;
    var w := Exec(h, bcrypt, Start(now, users), acts);
    assert (acts + [a])[..|acts|] == acts;
    AllRightful(h, bcrypt, now, users, acts + [a]);
    assert Exec(h, bcrypt, Start(now, users), acts + [a]) == Next(h, bcrypt, w, a);
    hide Exec;
    var s := SiteStep(h, bcrypt, w, a);
    ShowsForm(w.site, s.value, e);
    ShowIsSingle(h, bcrypt, w, a);
    AskIsEntered(h, bcrypt, w, a);
    assert EntryOf(h, bcrypt, w, a) in Next(h, bcrypt, w, a).realm.entries;
  }

  /** The three kinds of request go through these routes, under every id. */
  lemma AdminRequests(id: string)
    requires LinkIds.ValidID(id)
    ensures Dispatch("GET", "/admin/" + id) == Some(LinkIds.SINGLE) && IdOf(LinkIds.SINGLE, "/admin/" + id) == id
    ensures Dispatch("POST", "/admin/" + id) == Some(LinkIds.UPDATE) && IdOf(LinkIds.UPDATE, "/admin/" + id) == id
    ensures Dispatch("DELETE", "/admin/" + id) == Some(LinkIds.DELETE) && IdOf(LinkIds.DELETE, "/admin/" + id) == id
  {
    hide LinkIds.Wins;
    hide LinkIds.Segments;
    hide LinkIds.PathId;
    LinkIds.AdminRoutes(id);
    LinkIds.ValidIdHasNoSlash(id);
    LinkIds.PathIds(id);
    InAdmin();
    hide LinkIds.ADMIN;
    var path := "/admin/" + id;
    Unique("GET", path, LinkIds.SINGLE);
    Unique("POST", path, LinkIds.UPDATE);
    Unique("DELETE", path, LinkIds.DELETE);
  }

  /** What a request to a link's admin page does, once it gets through with the authority that it takes. */
  lemma AdminsDo(h: Hmac, bcrypt: A.Bcrypt, w: Whole, a: Act, id: string)
    requires a.Ask? && LinkIds.ValidID(id) && a.path == "/admin/" + id && a.r.verb in ["GET", "POST", "DELETE"]
    ensures var authority := if a.r.verb == "POST" then "UPDATE" else if a.r.verb == "DELETE" then "DELETE" else "";
            var step := if a.r.verb == "POST" then R.Open(id, a.down)
                        else if a.r.verb == "DELETE" then R.Remove([id], a.down) else R.Show(id, a.down);
            var verdict := A.Gate(h, bcrypt, w.realm.users, a.faults, a.r, w.realm.now, authority);
            var v := Next(h, bcrypt, w, a);
            && v.site == (if verdict.Handled? then R.Next(w.site, step) else w.site)
            && v.owners ==
               if verdict.Handled? && a.r.verb == "POST" then
                 var e := A.Entry(a.r, "UPDATE", verdict.principal, w.realm.users, w.realm.now, w.realm.logins);
                 w.owners[w.site.started := Owner(e, a.path, a.form)]
               else w.owners
  {
    hide A.Gate;
    hide R.Next;
    hide Dispatch;
    hide IdOf;
    hide RealmStep;
    hide LinkIds.ValidID;
    AdminRequests(id);
  }

  /** The clock is everyone's; accounts change and logins happen beside the links, and public requests beside the
      accounts. */
  lemma OthersDo(h: Hmac, bcrypt: A.Bcrypt, w: Whole, a: Act)
    requires !a.Ask?
    ensures var v := Next(h, bcrypt, w, a);
            && v.owners == w.owners
            && (a.Tick? ==> v.site == R.Next(w.site, R.Tick(a.d)) && v.realm == A.Next(h, bcrypt, w.realm, A.Tick(a.d)))
            && (a.Account? ==> v.site == w.site)
            && (a.Account? && (a.account.SetUser? || a.account.DropUser? || a.account.LogIn?) ==>
                  v.realm == A.Next(h, bcrypt, w.realm, a.account))
            && (a.Public? ==> v.realm == w.realm)
    ensures a.Public? && !a.step.Tick? && !a.step.Show? && !a.step.Open? && !a.step.Remove? && !a.step.Validate? ==>
            Next(h, bcrypt, w, a).site == R.Next(w.site, a.step)
  {
    hide A.Next;
    hide R.Next;
    match a
    case Tick(d) => OneRealmStep(h, bcrypt, w.realm, A.Tick(d));
    case Account(s) => OneRealmStep(h, bcrypt, w.realm, s);
    case Public(_) =>
  }

  /** And what one that names many links in its body does. */
  lemma BulkDeleteDoes(h: Hmac, bcrypt: A.Bcrypt, w: Whole, a: Act)
    requires a.Ask? && a.path in ["/admin", "/admin/"] && a.r.verb == "DELETE"
    ensures var verdict := A.Gate(h, bcrypt, w.realm.users, a.faults, a.r, w.realm.now, "DELETE");
            var v := Next(h, bcrypt, w, a);
            && v.site == (if verdict.Handled? && 1 <= |a.ids| <= 1000 then R.Next(w.site, R.Remove(a.ids, a.down))
                          else w.site)
            && v.owners == w.owners
  {
    hide A.Gate;
    hide R.Next;
    hide Dispatch;
    hide RealmStep;
    hide EntryOf;
    BulkRequests();
  }

  lemma BulkRequests()
    ensures Dispatch("DELETE", "/admin").Some? && Dispatch("DELETE", "/admin").value.handler == LinkIds.AdminDeleteMany
    ensures Dispatch("DELETE", "/admin/").Some? && Dispatch("DELETE", "/admin/").value.handler == LinkIds.AdminDeleteMany
  {
    hide LinkIds.Wins;
    LinkIds.AdminListRoutes();
    LinkIds.InAdminList();
    hide LinkIds.ADMIN;
    Unique("DELETE", "/admin", LinkIds.Route("DELETE", [LinkIds.Lit("admin")], LinkIds.AdminDeleteMany));
    Unique("DELETE", "/admin/", LinkIds.Route("DELETE", [LinkIds.Lit("admin"), LinkIds.Lit("")], LinkIds.AdminDeleteMany));
  }

  lemma InAdmin()
    ensures LinkIds.SINGLE in LinkIds.ADMIN && LinkIds.UPDATE in LinkIds.ADMIN && LinkIds.DELETE in LinkIds.ADMIN
  {
    assert LinkIds.ADMIN[2] == LinkIds.SINGLE && LinkIds.ADMIN[3] == LinkIds.UPDATE && LinkIds.ADMIN[4] == LinkIds.DELETE;
  }

  lemma Unique(verb: string, path: string, r: LinkIds.Route)
    requires IsRoute(r, verb, path)
    ensures Dispatch(verb, path) == Some(r)
  {
    forall s | IsRoute(s, verb, path) ensures s == r {
      LinkIds.OneWinner(r, s, verb, path);
    }
    hide LinkIds.Wins;
  }
}
