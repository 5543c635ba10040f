/** Who gets to the admin pages (internal/web/authn.go, internal/auth/auth.go). */
module Authn {
  import opened Wrappers
  import opened Text
  import opened Session
  import Base64Url
  import Json
  import Rfc3339
  import Unicode

  type Time = Rfc3339.Time

  datatype User = User(username: string, password: string, enabled: bool, authorities: seq<string>)

  type Users = map<string, User>

  /** Whether bcrypt accepts a password for a hash. */
  type Bcrypt = (string, string) -> bool

  datatype Principal = Principal(name: string, authorities: seq<string>, session: Option<Session>)

  /** `sameSite` is what the cross-origin check of net/http says about an unsafe request. */
  datatype Request = Request(
    verb: string,
    sameSite: bool,
    cookie: Option<string>,
    basic: Option<(string, string)>,
    csrfHeader: string,
    csrfField: string)

  datatype AuthError = BadCredentials | DbDown

  datatype Verdict =
    | CrossOrigin | Challenge | ServerError | LoginRequired | Forbidden | BadToken
    | Handled(principal: Principal)

  const ROLE_ADMIN := "ROLE_ADMIN"
  const BCRYPT_PREFIX := "{bcrypt}"
  const SESSION_TTL := 43_200_000_000_000

  predicate Has(p: Principal, authority: string) {
    authority in p.authorities
  }

  predicate IsSafeMethod(verb: string) {
    verb == "GET" || verb == "HEAD" || verb == "OPTIONS"
  }

  predicate CheckPassword(bcrypt: Bcrypt, stored: string, password: string) {
    && |stored| >= |BCRYPT_PREFIX| && stored[..|BCRYPT_PREFIX|] == BCRYPT_PREFIX
    && bcrypt(stored[|BCRYPT_PREFIX|..], password)
  }

  /** auth.Login */
  function Login(bcrypt: Bcrypt, users: Users, down: bool, name: string, password: string): Result<User, AuthError> {
    if down then Err(DbDown)
    else if name !in users then Err(BadCredentials)
    else
      var u := users[name];
      if !CheckPassword(bcrypt, u.password, password) || !u.enabled then Err(BadCredentials) else Ok(u)
  }

  function SessionUser(h: Hmac, users: Users, down: bool, r: Request, now: Time): Result<Option<Principal>, AuthError> {
    if r.cookie.None? then Ok(None) else
    match Decode(h, r.cookie.value, now)
    case None => Ok(None)
    case Some(s) =>
      if down then Err(DbDown)
      else if s.username !in users then Ok(None)
      else
        var u := users[s.username];
        if !u.enabled || PasswordTag(h, u.password) != s.password then Ok(None)
        else Ok(Some(Principal(u.username, u.authorities, Some(s))))
  }

  /** The session comes first; the credentials of the request are only looked at without one. The
      database can fail in either of two queries. */
  function Authenticate(h: Hmac, bcrypt: Bcrypt, users: Users, down: (bool, bool), r: Request, now: Time)
    : Result<Option<Principal>, AuthError>
  {
    var p :- SessionUser(h, users, down.0, r, now);
    if p.Some? then Ok(p)
    else if r.basic.None? then Ok(None)
    else
      var u :- Login(bcrypt, users, down.1, r.basic.value.0, r.basic.value.1);
      Ok(Some(Principal(u.username, u.authorities, None)))
  }

  function Token(r: Request): string {
    if r.csrfHeader == "" then r.csrfField else r.csrfHeader
  }

  /** The gate in front of every admin handler; "" asks for no authority beyond ROLE_ADMIN. */
  function Gate(h: Hmac, bcrypt: Bcrypt, users: Users, down: (bool, bool), r: Request, now: Time, authority: string)
    : Verdict
  {
    if !r.sameSite then CrossOrigin else
    match Authenticate(h, bcrypt, users, down, r, now)
    case Err(BadCredentials) => Challenge
    case Err(DbDown) => ServerError
    case Ok(None) => LoginRequired
    case Ok(Some(p)) =>
      if !Has(p, ROLE_ADMIN) || (authority != "" && !Has(p, authority)) then Forbidden
      else if p.session.Some? && !IsSafeMethod(r.verb) && !CheckCSRFToken(h, p.session.value, Token(r)) then BadToken
      else Handled(p)
  }

  // ---- Runs ----

  /** A login that succeeded: when, with which stored hash, and the session it started. */
  datatype LoginRecord = LoginRecord(name: string, hash: string, at: Time, session: Session)

  /** A handler that ran, with what was true at that moment. */
  datatype Entry = Entry(
    r: Request,
    authority: string,
    principal: Principal,
    users: Users,
    now: Time,
    logins: seq<LoginRecord>)

  datatype Realm = Realm(now: Time, users: Users, logins: seq<LoginRecord>, entries: seq<Entry>)

  datatype Step =
    | Tick(d: nat)
    | SetUser(user: User)                                                     // created or changed from outside
    | DropUser(name: string)
    | LogIn(name: string, password: string, sameSite: bool, nonce: seq<byte>, down: bool)
    | Ask(r: Request, authority: string, faults: (bool, bool))                 // an admin route is requested

  function Next(h: Hmac, bcrypt: Bcrypt, w: Realm, s: Step): Realm {
    match s
    case Tick(d) => w.(now := w.now + d)
    case SetUser(u) => w.(users := w.users[u.username := u])
    case DropUser(name) => w.(users := w.users - {name})
    case LogIn(name, password, sameSite, nonce, down) =>
      if !sameSite then w else
      (match Login(bcrypt, w.users, down, name, password)
       case Err(_) => w
       case Ok(u) =>
         var session := New(h, u.username, u.password, w.now + SESSION_TTL, nonce);
         w.(logins := w.logins + [LoginRecord(u.username, u.password, w.now, session)]))
    case Ask(r, authority, faults) =>
      match Gate(h, bcrypt, w.users, faults, r, w.now, authority)
      case Handled(p) => w.(entries := w.entries + [Entry(r, authority, p, w.users, w.now, w.logins)])
      case _ => w
  }

  function Exec(h: Hmac, bcrypt: Bcrypt, w: Realm, steps: seq<Step>): Realm
    decreases |steps|
  {
    if steps == [] then w else Exec(h, bcrypt, Next(h, bcrypt, w, steps[0]), steps[1..])
  }

  // ---- What is taken for granted about the hash ----

  function SessionMessage(body: string): seq<byte> { Message("session", body) }

  function CsrfMessage(nonce: string): seq<byte> { Message("csrf", nonce) }

  /** The messages whose hashes clients have been given: in cookies, and as CSRF tokens in pages. Password
      tags are no use as signatures, being half as long. */
  function GivenOut(logins: seq<LoginRecord>): set<seq<byte>> {
    (set l | l in logins :: SessionMessage(Body(l.session))) + (set l | l in logins :: CsrfMessage(l.session.nonce))
  }

  /** Clients cannot compute hashes: if a cookie's signature is right, it is a hash that was given out. */
  ghost predicate NotForged(h: Hmac, logins: seq<LoginRecord>, r: Request) {
    forall body, sig :: r.cookie.Some? && Cut(r.cookie.value, '.') == Some((body, sig))
                        && Base64Url.Decode(sig) == Some(h(SessionMessage(body)))
                        ==> exists m :: m in GivenOut(logins) && h(m) == h(SessionMessage(body))
  }

  function CookieMessage(r: Request): set<seq<byte>> {
    if r.cookie.None? then {} else
    match Cut(r.cookie.value, '.')
    case None => {}
    case Some((body, _)) => {SessionMessage(body)}
  }

  /** The messages that a run hashes for cookies and CSRF tokens. */
  function Hashed(h: Hmac, bcrypt: Bcrypt, w: Realm, steps: seq<Step>): set<seq<byte>>
    decreases |steps|
  {
    if steps == [] then {}
    else (if steps[0].Ask? then GivenOut(w.logins) + CookieMessage(steps[0].r) else {})
         + Hashed(h, bcrypt, Next(h, bcrypt, w, steps[0]), steps[1..])
  }

  function PasswordsAt(w: Realm): set<string> {
    (set l | l in w.logins :: l.hash) + (set name | name in w.users :: w.users[name].password)
  }

  /** The stored password hashes that a run compares tags of. */
  function Passwords(h: Hmac, bcrypt: Bcrypt, w: Realm, steps: seq<Step>): set<string>
    decreases |steps|
  {
    if steps == [] then {}
    else (if steps[0].Ask? then PasswordsAt(w) else {}) + Passwords(h, bcrypt, Next(h, bcrypt, w, steps[0]), steps[1..])
  }

  /** The first 16 bytes of their hashes tell these stored passwords apart. */
  ghost predicate TagsTell(h: Hmac, passwords: set<string>) {
    forall a, b ::
      (a in passwords && b in passwords && h(Message("password", a))[..16] == h(Message("password", b))[..16]) ==> a == b
  }

  ghost predicate Honest(h: Hmac, bcrypt: Bcrypt, w: Realm, steps: seq<Step>)
    decreases |steps|
  {
    steps == [] ||
    (&& (steps[0].Ask? ==> NotForged(h, w.logins, steps[0].r))
     && Honest(h, bcrypt, Next(h, bcrypt, w, steps[0]), steps[1..]))
  }

  // ---- What holds of every handler that ran ----

  /** The principal's user at that moment: there, enabled, and with every authority that the route asks for. */
  predicate Authorized(e: Entry) {
    && e.principal.name in e.users
    && var u := e.users[e.principal.name];
       && u.enabled && u.authorities == e.principal.authorities
       && "ROLE_ADMIN" in u.authorities && (e.authority != "" ==> e.authority in u.authorities)
  }

  /** The session was started by a login of that user not twelve hours before, since when the stored
      password has not changed; and an unsafe request carries its CSRF token. */
  ghost predicate BySession(h: Hmac, e: Entry, s: Session) {
    && e.now < s.expires
    && (exists l :: l in e.logins && l.session == s && l.name == e.principal.name == s.username
                    && e.now < l.at + 43_200_000_000_000
                    && e.principal.name in e.users && e.users[e.principal.name].password == l.hash)
    && (e.r.verb !in ["GET", "HEAD", "OPTIONS"] ==>
          Base64Url.Decode(if e.r.csrfHeader != "" then e.r.csrfHeader else e.r.csrfField)
          == Some(h(Message("csrf", s.nonce))))
  }

  /** Stored behind its prefix is a hash that bcrypt accepts the password for. */
  ghost predicate IsPassword(bcrypt: Bcrypt, stored: string, password: string) {
    exists hash :: stored == "{bcrypt}" + hash && bcrypt(hash, password)
  }

  ghost predicate ByPassword(bcrypt: Bcrypt, e: Entry) {
    && e.r.basic.Some? && e.principal.name == e.r.basic.value.0 && e.principal.name in e.users
    && IsPassword(bcrypt, e.users[e.principal.name].password, e.r.basic.value.1)
  }

  ghost predicate Rightful(h: Hmac, bcrypt: Bcrypt, e: Entry) {
    && e.r.sameSite && Authorized(e)
    && match e.principal.session
       case Some(s) => BySession(h, e, s)
       case None => ByPassword(bcrypt, e)
  }

  /** A login started its session as Signer.New does, while times can be printed. */
  ghost predicate LoginOk(h: Hmac, l: LoginRecord) {
    && 0 <= l.at && l.at + 43_200_000_000_000 < Rfc3339.END
    && l.session.username == l.name && l.session.password == Base64Url.Encode(h(Message("password", l.hash))[..16])
    && l.session.expires == Rfc3339.Truncate(l.at + 43_200_000_000_000)
  }

  ghost predicate Good(h: Hmac, w: Realm) {
    && 0 <= w.now
    && (forall name :: name in w.users ==> w.users[name].username == name)
    && (forall l :: l in w.logins ==> LoginOk(h, l))
  }

  lemma LoginFields(h: Hmac, l: LoginRecord)
    requires LoginOk(h, l)
    ensures l.session.username == l.name && l.session.password == PasswordTag(h, l.hash)
    ensures Encodable(l.session.expires) && l.session.expires <= l.at + 43_200_000_000_000
  {
    hide PasswordTag;
    hide Message;
    hide Base64Url.Encode;
    TagsCompare(h, l.hash, l.hash);
    Rfc3339.TruncateBounds(l.at + 43_200_000_000_000);
  }

  /** What Decode accepts carries a right signature, and is what the signed part says. */
  lemma DecodeChecks(h: Hmac, value: string, now: Time)
    requires Decode(h, value, now).Some?
    ensures Cut(value, '.').Some?
    ensures var (body, sig) := Cut(value, '.').value;
            && Base64Url.Decode(sig) == Some(h(SessionMessage(body)))
            && Base64Url.Decode(body).Some?
            && Unmarshal(Base64Url.Decode(body).value) == Decode(h, value, now)
            && now < Decode(h, value, now).value.expires
  {
    hide Cut;
    hide Message;
    hide Base64Url.Decode;
    hide Unmarshal;
  }

  lemma BodySays(s: Session)
    requires Encodable(s.expires)
    ensures Base64Url.Decode(Body(s)) == Some(Unicode.Encode(Json.Print(SessionJson(s), true)))
    ensures Unmarshal(Unicode.Encode(Json.Print(SessionJson(s), true))) == Some(s)
  {
    Base64Url.DecodeEncoded(Unicode.Encode(Json.Print(SessionJson(s), true)));
    UnmarshalMarshalled(s);
  }

  lemma SessionMessages(body: string, other: string)
    ensures SessionMessage(body) == SessionMessage(other) <==> body == other
    ensures SessionMessage(body) != CsrfMessage(other)
  {
    hide Message;
    MessageInjective("session", body, "session", other);
    MessageInjective("session", body, "csrf", other);
    assert |"session"| != |"csrf"|;
  }

  /** The signed part of an accepted cookie was signed as a session, not as anything else. */
  lemma SignedAsSession(h: Hmac, logins: seq<LoginRecord>, body: string, ms: set<seq<byte>>) returns (l: LoginRecord)
    requires exists m :: m in GivenOut(logins) && h(m) == h(SessionMessage(body))
    requires CollisionFree(h, ms) && GivenOut(logins) <= ms && SessionMessage(body) in ms
    ensures l in logins && Body(l.session) == body
  {
    hide SessionMessage;
    hide CsrfMessage;
    hide Body;
    forall other ensures SessionMessage(body) == SessionMessage(other) <==> body == other
                 ensures SessionMessage(body) != CsrfMessage(other)
    {
      SessionMessages(body, other);
    }
    l :| l in logins && SessionMessage(body) == SessionMessage(Body(l.session));
  }

  /** An accepted cookie holds the session of one of the logins. */
  lemma CookieOfLogin(h: Hmac, w: Realm, r: Request, ms: set<seq<byte>>) returns (l: LoginRecord)
    requires Good(h, w) && r.cookie.Some? && Decode(h, r.cookie.value, w.now).Some?
    requires NotForged(h, w.logins, r)
    requires CollisionFree(h, ms) && GivenOut(w.logins) <= ms && CookieMessage(r) <= ms
    ensures l in w.logins && l.session == Decode(h, r.cookie.value, w.now).value && w.now < l.session.expires
  {
    hide Decode;
    hide SessionMessage;
    hide Base64Url.Decode;
    hide Unmarshal;
    hide Body;
    hide GivenOut;
    hide CollisionFree;
    hide LoginOk;
    DecodeChecks(h, r.cookie.value, w.now);
    var (body, sig) := Cut(r.cookie.value, '.').value;
    l := SignedAsSession(h, w.logins, body, ms);
    LoginFields(h, l);
    BodySays(l.session);
  }

  lemma TokenGate(h: Hmac, s: Session, r: Request)
    ensures CheckCSRFToken(h, s, Token(r)) <==>
            Base64Url.Decode(if r.csrfHeader != "" then r.csrfHeader else r.csrfField) == Some(h(Message("csrf", s.nonce)))
    ensures IsSafeMethod(r.verb) <==> r.verb in ["GET", "HEAD", "OPTIONS"]
  {
    TokenPasses(h, s, Token(r));
    hide CheckCSRFToken;
    hide Message;
  }

  lemma TokenOf(r: Request)
    ensures Token(r) == if r.csrfHeader != "" then r.csrfHeader else r.csrfField
  {
  }

  lemma SessionGetsIn(h: Hmac, bcrypt: Bcrypt, w: Realm, s: Step, ms: set<seq<byte>>, passwords: set<string>)
    requires Good(h, w) && s.Ask? && NotForged(h, w.logins, s.r)
    requires CollisionFree(h, ms) && GivenOut(w.logins) <= ms && CookieMessage(s.r) <= ms
    requires TagsTell(h, passwords) && PasswordsAt(w) <= passwords
    requires var v := Gate(h, bcrypt, w.users, s.faults, s.r, w.now, s.authority);
             v.Handled? && v.principal.session.Some?
    ensures var p := Gate(h, bcrypt, w.users, s.faults, s.r, w.now, s.authority).principal;
            Rightful(h, bcrypt, Entry(s.r, s.authority, p, w.users, w.now, w.logins))
  {
    hide Message;
    hide IsSafeMethod;
    hide Token;
    hide Base64Url.Decode;
    hide Base64Url.Encode;
    hide Decode;
    hide PasswordTag;
    hide CheckCSRFToken;
    hide CheckPassword;
    hide NotForged;
    hide CollisionFree;
    hide GivenOut;
    hide CookieMessage;
    hide LoginOk;
    var p := Gate(h, bcrypt, w.users, s.faults, s.r, w.now, s.authority).principal;
    assert SessionUser(h, w.users, s.faults.0, s.r, w.now) == Ok(Some(p));
    var l := CookieOfLogin(h, w, s.r, ms);
    LoginFields(h, l);
    var u := w.users[p.name];
    assert PasswordTag(h, u.password) == PasswordTag(h, l.hash);
    TagsCompare(h, u.password, l.hash);
    TokenGate(h, l.session, s.r);
    assert u.password in PasswordsAt(w) && l.hash in PasswordsAt(w);
    assert u.password == l.hash;
  }

  lemma PasswordGetsIn(h: Hmac, bcrypt: Bcrypt, w: Realm, s: Step)
    requires Good(h, w) && s.Ask?
    requires var v := Gate(h, bcrypt, w.users, s.faults, s.r, w.now, s.authority);
             v.Handled? && v.principal.session.None?
    ensures var p := Gate(h, bcrypt, w.users, s.faults, s.r, w.now, s.authority).principal;
            Rightful(h, bcrypt, Entry(s.r, s.authority, p, w.users, w.now, w.logins))
  {
    hide Decode;
    hide PasswordTag;
    hide CheckCSRFToken;
    hide CheckPassword;
    hide IsPassword;
    if s.r.basic.Some? && s.r.basic.value.0 in w.users {
      PasswordChecks(bcrypt, w.users[s.r.basic.value.0].password, s.r.basic.value.1);
    }
    hide LoginOk;
  }

  /** A login succeeds exactly if the database answers, the user exists and is enabled, and the password is
      theirs; it fails with bad credentials in every other case but the first. */
  lemma LoginSucceeds(bcrypt: Bcrypt, users: Users, down: bool, name: string, password: string)
    ensures var r := Login(bcrypt, users, down, name, password);
            && (r.Ok? <==> !down && name in users && users[name].enabled
                           && IsPassword(bcrypt, users[name].password, password))
            && (r.Ok? ==> r.value == users[name])
            && (r == Err(DbDown) <==> down)
  {
    if !down && name in users {
      PasswordChecks(bcrypt, users[name].password, password);
    }
    hide CheckPassword;
    hide IsPassword;
  }

  lemma PasswordChecks(bcrypt: Bcrypt, stored: string, password: string)
    ensures CheckPassword(bcrypt, stored, password) <==> IsPassword(bcrypt, stored, password)
  {
    forall hash ensures ("{bcrypt}" + hash)[..8] == "{bcrypt}" && ("{bcrypt}" + hash)[8..] == hash {
    }
    if |stored| >= 8 && stored[..8] == "{bcrypt}" {
      assert stored == "{bcrypt}" + stored[8..];
    }
  }

  lemma LoginIsOk(h: Hmac, u: User, at: Time, nonce: seq<byte>)
    requires 0 <= at && at + 43_200_000_000_000 < Rfc3339.END
    ensures LoginOk(h, LoginRecord(u.username, u.password, at, New(h, u.username, u.password, at + SESSION_TTL, nonce)))
  {
    hide PasswordTag;
    hide Message;
    TagsCompare(h, u.password, u.password);
    hide Rfc3339.Truncate;
    hide Base64Url.Encode;
  }

  ghost predicate Starts(h: Hmac, w: Realm, s: Step, l: LoginRecord)
    requires s.LogIn? && s.name in w.users
  {
    && LoginOk(h, l) && l.name == s.name && l.hash == w.users[s.name].password && l.at == w.now
    && Base64Url.Decode(l.session.nonce) == Some(s.nonce)
  }

  lemma LogInNext(h: Hmac, bcrypt: Bcrypt, w: Realm, s: Step)
    requires s.LogIn?
    ensures var r := Login(bcrypt, w.users, s.down, s.name, s.password);
            if s.sameSite && r.Ok? then
              Next(h, bcrypt, w, s) == w.(logins := w.logins + [RecordOf(h, r.value, w.now, s.nonce)])
            else Next(h, bcrypt, w, s) == w
  {
    hide Gate;
    hide Login;
    hide New;
  }

  function RecordOf(h: Hmac, u: User, at: Time, nonce: seq<byte>): LoginRecord {
    LoginRecord(u.username, u.password, at, New(h, u.username, u.password, at + SESSION_TTL, nonce))
  }

  lemma RecordStarts(h: Hmac, w: Realm, s: Step, u: User)
    requires s.LogIn? && s.name in w.users && u == w.users[s.name] && u.username == s.name
    requires 0 <= w.now && w.now + 43_200_000_000_000 < Rfc3339.END
    ensures Starts(h, w, s, RecordOf(h, u, w.now, s.nonce))
  {
    hide LoginOk;
    hide New;
    hide Message;
    hide Base64Url.Decode;
    assert RecordOf(h, u, w.now, s.nonce).session == New(h, u.username, u.password, w.now + SESSION_TTL, s.nonce);
    assert LoginOk(h, RecordOf(h, u, w.now, s.nonce)) by {
      LoginIsOk(h, u, w.now, s.nonce);
    }
    assert Base64Url.Decode(RecordOf(h, u, w.now, s.nonce).session.nonce) == Some(s.nonce) by {
      NewSays(h, u.username, u.password, w.now + SESSION_TTL, s.nonce);
    }
  }

  /** A login from the site's own form that succeeds starts a session with the nonce that was drawn, and any
      other changes nothing. */
  lemma LogInStep(h: Hmac, bcrypt: Bcrypt, w: Realm, s: Step)
    requires s.LogIn? && 0 <= w.now && w.now + 43_200_000_000_000 < Rfc3339.END
    requires s.name in w.users ==> w.users[s.name].username == s.name
    ensures if s.sameSite && !s.down && s.name in w.users && w.users[s.name].enabled
               && IsPassword(bcrypt, w.users[s.name].password, s.password)
            then exists l :: Starts(h, w, s, l) && Next(h, bcrypt, w, s) == w.(logins := w.logins + [l])
            else Next(h, bcrypt, w, s) == w
  {
    hide Next;
    hide Starts;
    hide IsPassword;
    hide Login;
    hide RecordOf;
    LoginSucceeds(bcrypt, w.users, s.down, s.name, s.password);
    LogInNext(h, bcrypt, w, s);
    if s.name in w.users {
      RecordStarts(h, w, s, w.users[s.name]);
    }
  }

  /** A request is put on record, with what is true at that moment, exactly if the gate lets it through. */
  lemma AskStep(h: Hmac, bcrypt: Bcrypt, w: Realm, s: Step)
    requires s.Ask?
    ensures var v := Gate(h, bcrypt, w.users, s.faults, s.r, w.now, s.authority);
            Next(h, bcrypt, w, s).(entries := w.entries) == w
            && Next(h, bcrypt, w, s).entries == w.entries
               + if v.Handled? then [Entry(s.r, s.authority, v.principal, w.users, w.now, w.logins)] else []
  {
    hide Gate;
  }

  lemma GoodClock(h: Hmac, w: Realm)
    requires Good(h, w)
    ensures 0 <= w.now
  {
  }

  lemma LoginKeepsGood(h: Hmac, w: Realm, l: LoginRecord)
    requires Good(h, w) && LoginOk(h, l)
    ensures Good(h, w.(logins := w.logins + [l]))
  {
    hide LoginOk;
  }

  lemma EntryKeepsGood(h: Hmac, w: Realm, e: Entry)
    requires Good(h, w)
    ensures Good(h, w.(entries := w.entries + [e]))
  {
    hide LoginOk;
  }

  lemma OthersKeepGood(h: Hmac, w: Realm, d: nat, u: User, name: string)
    requires Good(h, w)
    ensures Good(h, w.(now := w.now + d))
    ensures Good(h, w.(users := w.users[u.username := u]))
    ensures Good(h, w.(users := w.users - {name}))
  {
    hide LoginOk;
  }

  lemma NextGood(h: Hmac, bcrypt: Bcrypt, w: Realm, s: Step)
    requires Good(h, w) && w.now + 43_200_000_000_000 < Rfc3339.END
    ensures Good(h, Next(h, bcrypt, w, s))
  {
    hide Gate;
    hide New;
    hide LoginOk;
    hide Login;
    hide Good;
    GoodClock(h, w);
    match s
    case Tick(d) => OthersKeepGood(h, w, d, User("", "", false, []), "");
    case SetUser(u) => OthersKeepGood(h, w, 0, u, "");
    case DropUser(name) => OthersKeepGood(h, w, 0, User("", "", false, []), name);
    case LogIn(name, password, sameSite, nonce, down) =>
      var r := Login(bcrypt, w.users, down, name, password);
      if sameSite && r.Ok? {
        var u := r.value;
        LoginIsOk(h, u, w.now, nonce);
        var session := New(h, u.username, u.password, w.now + SESSION_TTL, nonce);
        LoginKeepsGood(h, w, LoginRecord(u.username, u.password, w.now, session));
      }
    case Ask(r, authority, faults) =>
      var v := Gate(h, bcrypt, w.users, faults, r, w.now, authority);
      if v.Handled? {
        EntryKeepsGood(h, w, Entry(r, authority, v.principal, w.users, w.now, w.logins));
      }
  }

  lemma NextEntries(h: Hmac, bcrypt: Bcrypt, w: Realm, s: Step, e: Entry)
    requires e in Next(h, bcrypt, w, s).entries && e !in w.entries
    ensures s.Ask?
    ensures var v := Gate(h, bcrypt, w.users, s.faults, s.r, w.now, s.authority);
            v.Handled? && e == Entry(s.r, s.authority, v.principal, w.users, w.now, w.logins)
  {
    hide Gate;
    hide New;
    hide Login;
  }

  lemma ClockOnly(h: Hmac, bcrypt: Bcrypt, w: Realm, s: Step)
    ensures w.now <= Next(h, bcrypt, w, s).now
  {
    hide Gate;
    hide New;
    hide Login;
  }

  lemma {:induction false} ClockRuns(h: Hmac, bcrypt: Bcrypt, w: Realm, steps: seq<Step>)
    ensures w.now <= Exec(h, bcrypt, w, steps).now
    decreases |steps|
  {
    hide Next;
    if steps != [] {
      ClockOnly(h, bcrypt, w, steps[0]);
      ClockRuns(h, bcrypt, Next(h, bcrypt, w, steps[0]), steps[1..]);
    }
  }

  lemma {:induction false} RunRightful(h: Hmac, bcrypt: Bcrypt, w: Realm, steps: seq<Step>,
                                       ms: set<seq<byte>>, passwords: set<string>)
    requires Good(h, w) && Exec(h, bcrypt, w, steps).now + 43_200_000_000_000 < Rfc3339.END
    requires Honest(h, bcrypt, w, steps)
    requires CollisionFree(h, ms) && Hashed(h, bcrypt, w, steps) <= ms
    requires TagsTell(h, passwords) && Passwords(h, bcrypt, w, steps) <= passwords
    ensures forall e :: e in Exec(h, bcrypt, w, steps).entries && e !in w.entries ==> Rightful(h, bcrypt, e)
    decreases |steps|
  {
    hide Next;
    hide Rightful;
    hide Gate;
    hide CollisionFree;
    hide TagsTell;
    hide NotForged;
    hide GivenOut;
    hide CookieMessage;
    hide PasswordsAt;
    hide Good;
    if steps != [] {
      var s, v := steps[0], Next(h, bcrypt, w, steps[0]);
      ClockRuns(h, bcrypt, w, steps);
      NextGood(h, bcrypt, w, s);
      RunRightful(h, bcrypt, v, steps[1..], ms, passwords);
      forall e | e in v.entries && e !in w.entries ensures Rightful(h, bcrypt, e) {
        NextEntries(h, bcrypt, w, s, e);
        if e.principal.session.Some? {
          SessionGetsIn(h, bcrypt, w, s, ms, passwords);
        } else {
          PasswordGetsIn(h, bcrypt, w, s);
        }
      }
    }
  }

  /** In every run that starts before anyone has logged in, an admin handler runs only for an enabled
      user who has ROLE_ADMIN and the route's authority at that moment, and who either sends the password
      or the cookie of a login that has not expired and that the password has not changed since. */
  lemma OnlyTheRightfulGetIn(h: Hmac, bcrypt: Bcrypt, now: Time, users: Users, steps: seq<Step>, e: Entry)
    requires 0 <= now && forall name :: name in users ==> users[name].username == name
    requires var w := Realm(now, users, [], []);
             && Exec(h, bcrypt, w, steps).now + 43_200_000_000_000 < Rfc3339.END
             && Honest(h, bcrypt, w, steps)
             && CollisionFree(h, Hashed(h, bcrypt, w, steps))
             && TagsTell(h, Passwords(h, bcrypt, w, steps))
             && e in Exec(h, bcrypt, w, steps).entries
    ensures Rightful(h, bcrypt, e)
  {
    hide Next;
    hide Rightful;
    hide Honest;
    hide Hashed;
    hide Passwords;
    hide CollisionFree;
    hide TagsTell;
    var w := Realm(now, users, [], []);
    RunRightful(h, bcrypt, w, steps, Hashed(h, bcrypt, w, steps), Passwords(h, bcrypt, w, steps));
  }

  lemma OwnTokenPasses(h: Hmac, s: Session)
    ensures CheckCSRFToken(h, s, CSRFToken(h, s))
  {
    Base64Url.DecodeEncoded(Mac(h, "csrf", s.nonce));
  }

  /** And they do get in: the cookie of a login is good for the whole of its time while the user is
      enabled, authorized and keeps the password. */
  lemma TheRightfulGetIn(h: Hmac, bcrypt: Bcrypt, users: Users, l: LoginRecord,
                         r: Request, authority: string, now: Time, down: bool)
    requires LoginOk(h, l) && l.session.nonce != "" && l.name != "" && now < l.session.expires
    requires l.name in users && users[l.name] == User(l.name, l.hash, true, users[l.name].authorities)
    requires "ROLE_ADMIN" in users[l.name].authorities && (authority != "" ==> authority in users[l.name].authorities)
    requires r.sameSite && r.cookie == Some(Encode(h, l.session))
    requires r.verb in ["GET", "HEAD", "OPTIONS"]
             || (if r.csrfHeader != "" then r.csrfHeader else r.csrfField) == CSRFToken(h, l.session)
    ensures Gate(h, bcrypt, users, (false, down), r, now, authority)
            == Handled(Principal(l.name, users[l.name].authorities, Some(l.session)))
  {
    hide Message;
    hide IsSafeMethod;
    hide Token;
    hide Base64Url.Decode;
    hide Base64Url.Encode;
    hide Decode;
    hide Encode;
    hide PasswordTag;
    hide CSRFToken;
    hide CheckCSRFToken;
    hide Encodable;
    LoginFields(h, l);
    SessionRoundTrip(h, l.session, now);
    OwnTokenPasses(h, l.session);
    TokenGate(h, l.session, r);
    TokenOf(r);
  }

  /** So do users without a session who send their password, whatever cookie they send along that no
      longer works. */
  lemma PasswordIsEnough(h: Hmac, bcrypt: Bcrypt, users: Users, name: string, password: string,
                         r: Request, authority: string, now: Time)
    requires name in users && users[name] == User(name, users[name].password, true, users[name].authorities)
    requires IsPassword(bcrypt, users[name].password, password)
    requires "ROLE_ADMIN" in users[name].authorities && (authority != "" ==> authority in users[name].authorities)
    requires r.sameSite && r.basic == Some((name, password))
    requires r.cookie.Some? ==> Decode(h, r.cookie.value, now) == None
    ensures Gate(h, bcrypt, users, (false, false), r, now, authority)
            == Handled(Principal(name, users[name].authorities, None))
  {
    hide Decode;
    PasswordChecks(bcrypt, users[name].password, password);
    hide CheckPassword;
    hide IsPassword;
    hide CheckCSRFToken;
  }

  /** Changing the password ends a session: its cookie is worth nothing once the stored hash is another one. */
  lemma PasswordChangeEnds(h: Hmac, users: Users, r: Request, now: Time,
                           name: string, hash: string, expires: Time, nonce: seq<byte>)
    requires Encodable(Rfc3339.Truncate(expires)) && name in users && users[name].password != hash
    requires TagsTell(h, {users[name].password, hash})
    requires r.cookie == Some(Encode(h, New(h, name, hash, expires, nonce)))
    ensures SessionUser(h, users, false, r, now) == Ok(None)
  {
    hide Decode;
    hide Encode;
    hide PasswordTag;
    hide Message;
    SessionRoundTrip(h, New(h, name, hash, expires, nonce), now);
    TagsCompare(h, users[name].password, hash);
  }

  /** The session that a request is made in: it decodes, its user is there and enabled, and has the password
      hash whose tag it carries. */
  ghost predicate InSession(h: Hmac, users: Users, r: Request, now: Time) {
    && r.cookie.Some? && Decode(h, r.cookie.value, now).Some?
    && var s := Decode(h, r.cookie.value, now).value;
       && s.username in users && users[s.username].enabled
       && s.password == Base64Url.Encode(h(Message("password", users[s.username].password))[..16])
  }

  /** What the gate answers in each case. A request in a session is judged by it, any other by its password. */
  lemma GateAnswers(h: Hmac, bcrypt: Bcrypt, users: Users, down: (bool, bool), r: Request, now: Time, authority: string)
    ensures var s := if r.cookie.Some? then Decode(h, r.cookie.value, now) else None;
            var verdict := Gate(h, bcrypt, users, down, r, now, authority);
            if !r.sameSite then verdict == CrossOrigin
            else if s.Some? && down.0 then verdict == ServerError
            else if !InSession(h, users, r, now) && r.basic.None? then verdict == LoginRequired
            else if !InSession(h, users, r, now) && down.1 then verdict == ServerError
            else if !InSession(h, users, r, now) && !(r.basic.value.0 in users && users[r.basic.value.0].enabled
                     && IsPassword(bcrypt, users[r.basic.value.0].password, r.basic.value.1)) then verdict == Challenge
            else
              var u := if InSession(h, users, r, now) then users[s.value.username] else users[r.basic.value.0];
              if "ROLE_ADMIN" !in u.authorities || (authority != "" && authority !in u.authorities) then verdict == Forbidden
              else if InSession(h, users, r, now) && r.verb !in ["GET", "HEAD", "OPTIONS"]
                   && Base64Url.Decode(if r.csrfHeader != "" then r.csrfHeader else r.csrfField)
                      != Some(h(Message("csrf", s.value.nonce))) then verdict == BadToken
              else verdict == Handled(Principal(u.username, u.authorities, if InSession(h, users, r, now) then s else None))
  {
    hide Decode;
    hide PasswordTag;
    hide CheckPassword;
    hide CheckCSRFToken;
    hide IsPassword;
    hide Message;
    hide Base64Url.Decode;
    hide Base64Url.Encode;
    hide Token;
    hide IsSafeMethod;
    var s := if r.cookie.Some? then Decode(h, r.cookie.value, now) else None;
    if s.Some? {
      TokenGate(h, s.value, r);
      if s.value.username in users {
        TagsCompare(h, users[s.value.username].password, "");
      }
    }
    if r.basic.Some? {
      LoginSucceeds(bcrypt, users, down.1, r.basic.value.0, r.basic.value.1);
    }
    hide Login;
  }
}
