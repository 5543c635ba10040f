/** Signed session cookies and CSRF tokens (internal/auth/session.go). */
module Session {
  import opened Wrappers
  import opened Text
  import opened Json
  import Base64Url
  import Rfc3339
  import Unicode

  datatype Session = Session(username: string, expires: Rfc3339.Time, nonce: string, password: string)

  /** HMAC-SHA256 under the secret key, of which only the length of the result is known. */
  type Hmac = h: seq<byte> -> seq<byte> | forall m :: |h(m)| == 32
    ghost witness (m: seq<byte>) => seq(32, i => 0)

  const NUL: char := 0 as char

  /** What is hashed for a purpose and a value. */
  function Message(purpose: string, value: string): seq<byte> {
    Unicode.Encode(purpose) + [0] + Unicode.Encode(value)
  }

  function Mac(h: Hmac, purpose: string, value: string): seq<byte> {
    h(Message(purpose, value))
  }

  /** The running hash object that mac writes its message to in three pieces. */
  class Hasher {
    var written: seq<byte>

    constructor ()
      ensures written == []
    {
      written := [];
    }

    method Write(b: seq<byte>)
      modifies this
      ensures written == old(written) + b
    {
      written := written + b;
    }
  }

  method MacSteps(h: Hmac, purpose: string, value: string) returns (sum: seq<byte>)
    ensures sum == Mac(h, purpose, value)
  {
    hide Unicode.Encode;
    var m := new Hasher();
    m.Write(Unicode.Encode(purpose));
    m.Write([0]);
    m.Write(Unicode.Encode(value));
    assert m.written == Message(purpose, value);
    sum := h(m.written);
  }

  /** PasswordTag keeps the first 16 bytes. */
  function PasswordTag(h: Hmac, passwordHash: string): string {
    Base64Url.Encode(Mac(h, "password", passwordHash)[..16])
  }

  /** Signer.New, with the random nonce as an argument. */
  function New(h: Hmac, username: string, passwordHash: string, expires: Rfc3339.Time, nonce: seq<byte>): Session {
    Session(username, Rfc3339.Truncate(expires), Base64Url.Encode(nonce), PasswordTag(h, passwordHash))
  }

  function SessionJson(s: Session): Json {
    Obj(Member("u", Str(s.username),
        Member("e", Str(Rfc3339.Format(s.expires, true)),
        Member("n", Str(s.nonce),
        Member("p", Str(s.password), NoMembers)))))
  }

  /** The part of a cookie before the dot. */
  function Body(s: Session): string {
    Base64Url.Encode(Unicode.Encode(Print(SessionJson(s), true)))
  }

  function Sign(h: Hmac, body: string): string {
    body + "." + Base64Url.Encode(Mac(h, "session", body))
  }

  function Encode(h: Hmac, s: Session): string {
    Sign(h, Body(s))
  }

  const ZERO := Session("", 0, "", "")

  predicate IsKey(key: string, name: char) {
    |key| == 1 && (key[0] == name || (key[0] as int == name as int - 32))
  }

  /** One member of the object: keys match in either case, null changes nothing, unknown members are
      skipped, and a value of the wrong kind is an error. */
  function SetField(s: Session, key: string, v: Json): Option<Session> {
    if !(IsKey(key, 'u') || IsKey(key, 'e') || IsKey(key, 'n') || IsKey(key, 'p')) then Some(s)
    else if v.Null? then Some(s)
    else if !v.Str? then None
    else if IsKey(key, 'u') then Some(s.(username := v.text))
    else if IsKey(key, 'n') then Some(s.(nonce := v.text))
    else if IsKey(key, 'p') then Some(s.(password := v.text))
    else
      var t :- Rfc3339.Parse(v.text);
      Some(s.(expires := t))
  }

  function SetFields(s: Session, m: Members): Option<Session>
    decreases m
  {
    match m
    case NoMembers => Some(s)
    case Member(key, v, others) =>
      var next :- SetField(s, key, v);
      SetFields(next, others)
  }

  function Unmarshal(payload: seq<byte>): Option<Session> {
    var text :- Unicode.Decode(payload);
    var v :- Parse(text);
    match v
    case Null => Some(ZERO)
    case Obj(members) => SetFields(ZERO, members)
    case _ => None
  }

  /** None stands for ErrInvalidSession. */
  function Decode(h: Hmac, value: string, now: Rfc3339.Time): Option<Session> {
    var (body, sig) :- Cut(value, '.');
    var got :- Base64Url.Decode(sig);
    if got != Mac(h, "session", body) then None else
    var payload :- Base64Url.Decode(body);
    var s :- Unmarshal(payload);
    if s.username == "" || s.nonce == "" || now >= s.expires then None else Some(s)
  }

  function CSRFToken(h: Hmac, s: Session): string {
    Base64Url.Encode(Mac(h, "csrf", s.nonce))
  }

  predicate CheckCSRFToken(h: Hmac, s: Session, token: string) {
    Base64Url.Decode(token) == Some(Mac(h, "csrf", s.nonce))
  }

  // ---- Round trip ----

  lemma SessionJsonWellFormed(s: Session)
    ensures WellFormed(SessionJson(s))
  {
    var p := Member("p", Str(s.password), NoMembers);
    var n := Member("n", Str(s.nonce), p);
    var e := Member("e", Str(Rfc3339.Format(s.expires, true)), n);
    NoMembersWellFormed();
    hide WellFormedMembers;
    MemberWellFormed("p", p.value, NoMembers);
    MemberWellFormed("n", n.value, p);
    MemberWellFormed("e", e.value, n);
    MemberWellFormed("u", Str(s.username), e);
  }

  predicate Encodable(t: Rfc3339.Time) { 0 <= t < Rfc3339.END }

  lemma SetOneField(s: Session, text: string)
    ensures SetField(s, "u", Str(text)) == Some(s.(username := text))
    ensures SetField(s, "n", Str(text)) == Some(s.(nonce := text))
    ensures SetField(s, "p", Str(text)) == Some(s.(password := text))
    ensures SetField(s, "e", Str(text)) ==
            match Rfc3339.Parse(text) case None => None case Some(t) => Some(s.(expires := t))
  {
    hide Rfc3339.Parse;
  }

  lemma SetMore(s: Session, m: Members, next: Session)
    requires m.Member? && SetField(s, m.key, m.value) == Some(next)
    ensures SetFields(s, m) == SetFields(next, m.others)
    ensures SetFields(s, NoMembers) == Some(s) && SetFields(next, NoMembers) == Some(next)
  {
    hide SetField;
  }

  lemma SetAllFields(s: Session)
    requires Encodable(s.expires)
    ensures SetFields(ZERO, SessionJson(s).members) == Some(s)
  {
    hide Rfc3339.Parse;
    hide Rfc3339.Format;
    hide SetField;
    hide SetFields;
    var expires := Rfc3339.Format(s.expires, true);
    Rfc3339.RoundTrip(s.expires, true);
    var p := Member("p", Str(s.password), NoMembers);
    var n := Member("n", Str(s.nonce), p);
    var e := Member("e", Str(expires), n);
    var s1 := ZERO.(username := s.username);
    var s2 := s1.(expires := s.expires);
    var s3 := s2.(nonce := s.nonce);
    SetOneField(ZERO, s.username);
    SetOneField(s1, expires);
    SetOneField(s2, s.nonce);
    SetOneField(s3, s.password);
    SetMore(ZERO, Member("u", Str(s.username), e), s1);
    SetMore(s1, e, s2);
    SetMore(s2, n, s3);
    SetMore(s3, p, s);
  }

  lemma UnmarshalMarshalled(s: Session)
    requires Encodable(s.expires)
    ensures Unmarshal(Unicode.Encode(Print(SessionJson(s), true))) == Some(s)
  {
    var v := SessionJson(s);
    SessionJsonWellFormed(s);
    SetAllFields(s);
    Unicode.DecodeEncoded(Print(v, true));
    ParseText(v, true);
    hide Parse;
  }

  lemma DecodeSigned(h: Hmac, body: string, now: Rfc3339.Time)
    requires '.' !in body
    ensures Cut(Sign(h, body), '.').Some?
    ensures Decode(h, Sign(h, body), now) ==
            match Base64Url.Decode(body)
            case None => None
            case Some(payload) =>
              match Unmarshal(payload)
              case None => None
              case Some(s) => if s.username == "" || s.nonce == "" || now >= s.expires then None else Some(s)
  {
    var mac := Mac(h, "session", body);
    hide Unmarshal;
    CutAt(body, '.', Base64Url.Encode(mac));
    Base64Url.DecodeEncoded(mac);
    hide Base64Url.Decode;
    hide Base64Url.Encode;
  }

  lemma BodyHasNoDot(s: Session)
    ensures '.' !in Body(s)
  {
    Base64Url.EncodeAlphabet(Unicode.Encode(Print(SessionJson(s), true)));
  }

  /** A cookie gives its session back, exactly while it lasts and if it names a user and a nonce. */
  lemma SessionRoundTrip(h: Hmac, s: Session, now: Rfc3339.Time)
    requires Encodable(s.expires)
    ensures Decode(h, Encode(h, s), now) ==
            if s.username != "" && s.nonce != "" && now < s.expires then Some(s) else None
  {
    var payload := Unicode.Encode(Print(SessionJson(s), true));
    BodyHasNoDot(s);
    DecodeSigned(h, Body(s), now);
    Base64Url.DecodeEncoded(payload);
    UnmarshalMarshalled(s);
    hide Decode;
    hide Unmarshal;
    hide Sign;
  }

  /** What New writes into a session. */
  lemma NewSays(h: Hmac, username: string, passwordHash: string, expires: Rfc3339.Time, nonce: seq<byte>)
    ensures var s := New(h, username, passwordHash, expires, nonce);
            && s.username == username && s.expires <= expires < s.expires + 1_000_000_000
            && Base64Url.Decode(s.nonce) == Some(nonce)
            && Base64Url.Decode(s.password) == Some(h(Message("password", passwordHash))[..16])
  {
    Rfc3339.TruncateBounds(expires);
    Base64Url.DecodeEncoded(nonce);
    Base64Url.DecodeEncoded(h(Message("password", passwordHash))[..16]);
    hide Message;
    hide Base64Url.Encode;
    hide Base64Url.Decode;
    hide Rfc3339.Truncate;
  }

  /** Sessions that New starts for a named user are accepted until their whole-second expiry. */
  lemma NewSessionLasts(h: Hmac, username: string, passwordHash: string, expires: Rfc3339.Time,
                        nonce: seq<byte>, now: Rfc3339.Time)
    requires username != "" && nonce != [] && Encodable(expires)
    ensures var s := New(h, username, passwordHash, expires, nonce);
            && Decode(h, Encode(h, s), now) == (if now < Rfc3339.Truncate(expires) then Some(s) else None)
            && CheckCSRFToken(h, s, CSRFToken(h, s))
  {
    hide Decode;
    hide Encode;
    hide PasswordTag;
    var s := New(h, username, passwordHash, expires, nonce);
    Rfc3339.TruncateBounds(expires);
    Base64Url.EncodeAlphabet(nonce);
    Base64Url.DecodeEncoded(Mac(h, "csrf", s.nonce));
    assert Encodable(s.expires) by {
      assert 0 <= Rfc3339.Secs(expires);
    }
    SessionRoundTrip(h, s, now);
  }

  /** How one member of a cookie's JSON is taken: keys in either case, others skipped, null ignored. */
  lemma FieldRules(s: Session, key: string, v: Json)
    ensures key !in ["u", "U", "e", "E", "n", "N", "p", "P"] || v.Null? ==> SetField(s, key, v) == Some(s)
    ensures key in ["u", "U", "e", "E", "n", "N", "p", "P"] && !v.Null? && !v.Str? ==> SetField(s, key, v) == None
    ensures v.Str? ==> SetField(s, "U", v) == SetField(s, "u", v) == Some(s.(username := v.text))
    ensures v.Str? ==> SetField(s, "N", v) == SetField(s, "n", v) == Some(s.(nonce := v.text))
    ensures v.Str? ==> SetField(s, "P", v) == SetField(s, "p", v) == Some(s.(password := v.text))
    ensures SetField(s, "E", v) == SetField(s, "e", v)
  {
    hide Rfc3339.Parse;
    assert IsKey(key, 'u') <==> key == "u" || key == "U";
    assert IsKey(key, 'e') <==> key == "e" || key == "E";
    assert IsKey(key, 'n') <==> key == "n" || key == "N";
    assert IsKey(key, 'p') <==> key == "p" || key == "P";
  }

  predicate HasKey(m: Members, names: set<string>) {
    m.Member? && (m.key in names || HasKey(m.others, names))
  }

  lemma FieldLeaves(s: Session, key: string, v: Json)
    requires SetField(s, key, v).Some?
    ensures key !in {"u", "U"} ==> SetField(s, key, v).value.username == s.username
    ensures key !in {"e", "E"} ==> SetField(s, key, v).value.expires == s.expires
    ensures key !in {"n", "N"} ==> SetField(s, key, v).value.nonce == s.nonce
    ensures key !in {"p", "P"} ==> SetField(s, key, v).value.password == s.password
  {
    hide Rfc3339.Parse;
    assert IsKey(key, 'u') ==> key == "u" || key == "U";
    assert IsKey(key, 'e') ==> key == "e" || key == "E";
    assert IsKey(key, 'n') ==> key == "n" || key == "N";
    assert IsKey(key, 'p') ==> key == "p" || key == "P";
  }

  lemma {:induction false} FieldsLeave(s: Session, m: Members)
    requires SetFields(s, m).Some?
    ensures !HasKey(m, {"u", "U"}) ==> SetFields(s, m).value.username == s.username
    ensures !HasKey(m, {"e", "E"}) ==> SetFields(s, m).value.expires == s.expires
    ensures !HasKey(m, {"n", "N"}) ==> SetFields(s, m).value.nonce == s.nonce
    ensures !HasKey(m, {"p", "P"}) ==> SetFields(s, m).value.password == s.password
    decreases m
  {
    hide SetField;
    if m.Member? {
      FieldLeaves(s, m.key, m.value);
      FieldsLeave(SetField(s, m.key, m.value).value, m.others);
    }
  }

  /** What a cookie's JSON does not say is empty, and its expiry the zero time, so that it is refused. */
  lemma MissingFields(m: Members)
    requires WellFormed(Obj(m)) && Unmarshal(Unicode.Encode(Print(Obj(m), true))).Some?
    ensures var s := Unmarshal(Unicode.Encode(Print(Obj(m), true))).value;
            && (!HasKey(m, {"u", "U"}) ==> s.username == "")
            && (!HasKey(m, {"e", "E"}) ==> s.expires == 0)
            && (!HasKey(m, {"n", "N"}) ==> s.nonce == "")
            && (!HasKey(m, {"p", "P"}) ==> s.password == "")
  {
    hide SetFields;
    hide HasKey;
    hide WellFormed;
    Unicode.DecodeEncoded(Print(Obj(m), true));
    ParseText(Obj(m), true);
    hide Parse;
    FieldsLeave(ZERO, m);
  }

  /** A token passes exactly if it decodes to what the session's own token says. */
  lemma TokenPasses(h: Hmac, s: Session, token: string)
    ensures CheckCSRFToken(h, s, token) <==>
            Base64Url.Decode(token).Some? && Base64Url.Encode(Base64Url.Decode(token).value) == CSRFToken(h, s)
    ensures CheckCSRFToken(h, s, token) ==> token != ""
    ensures CheckCSRFToken(h, s, token) <==> Base64Url.Decode(token) == Some(h(Message("csrf", s.nonce)))
  {
    hide Message;
    hide Base64Url.Encode;
    Base64Url.DecodeEncoded(h(Message("csrf", s.nonce)));
    if Base64Url.Decode(token).Some? {
      Base64Url.DecodeEncoded(Base64Url.Decode(token).value);
    }
    EmptyDecodes();
    hide Base64Url.Decode;
  }

  lemma EmptyDecodes()
    ensures Base64Url.Decode("") == Some([])
  {
  }

  /** Tags are the same exactly if the first 16 bytes of the hashes are. */
  lemma TagsCompare(h: Hmac, a: string, b: string)
    ensures PasswordTag(h, a) == PasswordTag(h, b) <==>
            h(Message("password", a))[..16] == h(Message("password", b))[..16]
    ensures PasswordTag(h, a) == Base64Url.Encode(h(Message("password", a))[..16])
  {
    hide Message;
    hide Base64Url.Encode;
    hide Base64Url.Decode;
    Base64Url.DecodeEncoded(h(Message("password", a))[..16]);
    Base64Url.DecodeEncoded(h(Message("password", b))[..16]);
  }

  // ---- One tag per purpose and value ----

  lemma {:induction false} EncodeHasNoNul(s: string)
    requires NUL !in s
    ensures 0 !in Unicode.Encode(s)
  {
    if s != "" {
      assert s[0] in s;
      EncodeHasNoNul(s[1..]);
      assert 0 !in Unicode.EncodeChar(s[0]);
    }
  }

  function FirstZero(s: seq<byte>): nat {
    if s == [] || s[0] == 0 then 0 else 1 + FirstZero(s[1..])
  }

  lemma {:induction false} FirstZeroAt(a: seq<byte>, b: seq<byte>)
    requires 0 !in a
    ensures FirstZero(a + [0] + b) == |a|
  {
    var s := a + [0] + b;
    if a != [] {
      assert s[0] == a[0] && a[0] in a;
      FirstZeroAt(a[1..], b);
      assert s[1..] == a[1..] + [0] + b;
    }
  }

  lemma SplitAtNul(a: seq<byte>, b: seq<byte>, c: seq<byte>, d: seq<byte>)
    requires 0 !in a && 0 !in c && a + [0] + b == c + [0] + d
    ensures a == c && b == d
  {
    FirstZeroAt(a, b);
    FirstZeroAt(c, d);
    var s := a + [0] + b;
    assert a == s[..|a|] && c == s[..|c|];
    assert b == s[|a| + 1..] && d == s[|c| + 1..];
  }

  /** The NUL byte keeps purposes and values apart. */
  lemma MessageInjective(purpose: string, value: string, purpose': string, value': string)
    requires NUL !in purpose && NUL !in purpose'
    ensures Message(purpose, value) == Message(purpose', value') <==> purpose == purpose' && value == value'
  {
    hide Unicode.Encode;
    EncodeHasNoNul(purpose);
    EncodeHasNoNul(purpose');
    if Message(purpose, value) == Message(purpose', value') {
      SplitAtNul(Unicode.Encode(purpose), Unicode.Encode(value), Unicode.Encode(purpose'), Unicode.Encode(value'));
      Unicode.DecodeEncoded(purpose);
      Unicode.DecodeEncoded(purpose');
      Unicode.DecodeEncoded(value);
      Unicode.DecodeEncoded(value');
    }
  }

  /** No two of these messages have the same hash. */
  ghost predicate CollisionFree(h: Hmac, messages: set<seq<byte>>) {
    forall a, b :: a in messages && b in messages && h(a) == h(b) ==> a == b
  }

  /** A tag is good for one purpose and one value only. */
  lemma TagsAreApart(h: Hmac, purpose: string, value: string, purpose': string, value': string)
    requires NUL !in purpose && NUL !in purpose'
    requires CollisionFree(h, {Message(purpose, value), Message(purpose', value')})
    ensures Mac(h, purpose, value) == Mac(h, purpose', value') <==> purpose == purpose' && value == value'
  {
    hide Message;
    MessageInjective(purpose, value, purpose', value');
  }

  /** The CSRF token of one session passes for another exactly when they have the same nonce. */
  lemma CsrfTokenOfOther(h: Hmac, s: Session, t: Session)
    requires CollisionFree(h, {Message("csrf", s.nonce), Message("csrf", t.nonce)})
    ensures CheckCSRFToken(h, t, CSRFToken(h, s)) <==> s.nonce == t.nonce
  {
    hide Message;
    Base64Url.DecodeEncoded(Mac(h, "csrf", s.nonce));
    TagsAreApart(h, "csrf", s.nonce, "csrf", t.nonce);
  }

  /** The CSRF token of one login passes for another exactly when the two drew the same nonce. */
  lemma TokensOfLogins(h: Hmac, a: string, hash: string, expires: Rfc3339.Time, nonce: seq<byte>,
                       b: string, hash': string, expires': Rfc3339.Time, nonce': seq<byte>)
    requires var s, t := New(h, a, hash, expires, nonce), New(h, b, hash', expires', nonce');
             CollisionFree(h, {Message("csrf", s.nonce), Message("csrf", t.nonce)})
    ensures var s, t := New(h, a, hash, expires, nonce), New(h, b, hash', expires', nonce');
            CheckCSRFToken(h, t, CSRFToken(h, s)) <==> nonce == nonce'
  {
    hide New;
    hide Message;
    hide CheckCSRFToken;
    hide CSRFToken;
    hide CollisionFree;
    hide Base64Url.Decode;
    NewSays(h, a, hash, expires, nonce);
    NewSays(h, b, hash', expires', nonce');
    CsrfTokenOfOther(h, New(h, a, hash, expires, nonce), New(h, b, hash', expires', nonce'));
    NonceOf(h, a, hash, expires, nonce, b, hash', expires');
  }

  lemma NonceOf(h: Hmac, a: string, hash: string, expires: Rfc3339.Time, nonce: seq<byte>,
                b: string, hash': string, expires': Rfc3339.Time)
    ensures New(h, a, hash, expires, nonce).nonce == New(h, b, hash', expires', nonce).nonce
  {
  }

  /** A signature is worth nothing on a changed body: it is accepted exactly where it was made. */
  lemma SignatureBindsBody(h: Hmac, body: string, other: string, now: Rfc3339.Time)
    requires '.' !in body && '.' !in other
    requires CollisionFree(h, {Message("session", body), Message("session", other)})
    ensures other != body ==> Decode(h, other + "." + Base64Url.Encode(Mac(h, "session", body)), now) == None
  {
    hide Message;
    hide Unmarshal;
    hide Base64Url.Decode;
    hide Base64Url.Encode;
    hide Cut;
    hide CollisionFree;
    var sig := Base64Url.Encode(Mac(h, "session", body));
    CutAt(other, '.', sig);
    Base64Url.DecodeEncoded(Mac(h, "session", body));
    TagsAreApart(h, "session", body, "session", other);
    hide Mac;
  }
}
