/** Link ids: how they are made (internal/linkid), what admins may choose and what the route table does
    with them (internal/web). */
module LinkIds {
  import opened Wrappers
  import opened Text

  // ---- Generated ids ----

  predicate IsLower(c: char) { 'a' <= c <= 'z' }

  /** Three to eight lower-case letters: the rule for every word of the lists. */
  predicate IsWord(w: string) {
    3 <= |w| <= 8 && forall c :: c in w ==> IsLower(c)
  }

  function Pick(words: seq<string>, i: nat): string
    requires i < |words|
  {
    words[i]
  }

  /** linkid.New, with the random indices as arguments. */
  function New(adjectives: seq<string>, nouns: seq<string>, verbs: seq<string>, i: nat, j: nat, k: nat): string
    requires i < |adjectives| && j < |nouns| && k < |verbs|
  {
    Pick(adjectives, i) + "-" + Pick(nouns, j) + "-" + Pick(verbs, k)
  }

  // ---- The rule for ids that admins choose ----

  predicate IsIdChar(c: char) {
    'A' <= c <= 'Z' || 'a' <= c <= 'z' || '0' <= c <= '9' || c == '_' || c == '-'
  }

  /** ^[A-Za-z0-9_-]{1,64}$ */
  predicate ValidID(id: string) {
    1 <= |id| <= 64 && forall c :: c in id ==> IsIdChar(c)
  }

  const RESERVED := ["admin", "api", "lang", "login", "logout", "theme"]

  function LowerChar(c: char): char {
    if 'A' <= c <= 'Z' then (c as int + 32) as char else c
  }

  /** strings.ToLower, on the ASCII characters that an id can have. */
  function ToLower(s: string): (r: string)
    ensures |r| == |s| && forall i :: 0 <= i < |s| ==> r[i] == LowerChar(s[i])
  {
    seq(|s|, i requires 0 <= i < |s| => LowerChar(s[i]))
  }

  predicate AllowedID(id: string) {
    ValidID(id) && ToLower(id) !in RESERVED
  }

  /** The two texts are the same but for the case of letters. */
  predicate SameButCase(s: string, t: string) {
    |s| == |t| && forall i :: 0 <= i < |s| ==>
      s[i] == t[i] || ('A' <= s[i] <= 'Z' && s[i] as int + 32 == t[i] as int)
  }

  /** What an admin may choose: up to 64 letters, digits, hyphens and underscores, except the six reserved words,
      in any case. */
  lemma AllowedMeans(id: string)
    ensures AllowedID(id) <==>
            && 1 <= |id| <= 64
            && (forall c :: c in id ==> 'A' <= c <= 'Z' || 'a' <= c <= 'z' || '0' <= c <= '9' || c in "_-")
            && (forall word :: word in ["admin", "api", "lang", "login", "logout", "theme"] ==> !SameButCase(id, word))
  {
    ReservedMeans(id);
    hide SameButCase;
    hide ToLower;
  }

  /** Whether lower case makes a text one of the reserved words. */
  lemma ReservedMeans(id: string)
    ensures ToLower(id) in RESERVED <==>
            exists word :: word in ["admin", "api", "lang", "login", "logout", "theme"] && SameButCase(id, word)
  {
    forall word | word in ["admin", "api", "lang", "login", "logout", "theme"]
      ensures SameButCase(id, word) <==> ToLower(id) == word
    {
      assert IsLowerWord(word);
      LowerIs(id, word);
    }
    hide SameButCase;
    hide ToLower;
  }

  predicate IsLowerWord(word: string) {
    forall i :: 0 <= i < |word| ==> 'a' <= word[i] <= 'z'
  }

  lemma LowerIs(id: string, word: string)
    requires IsLowerWord(word)
    ensures SameButCase(id, word) <==> ToLower(id) == word
  {
    if SameButCase(id, word) {
      forall i | 0 <= i < |id| ensures ToLower(id)[i] == word[i] {
      }
    }
    if ToLower(id) == word {
      forall i | 0 <= i < |id|
        ensures id[i] == word[i] || ('A' <= id[i] <= 'Z' && id[i] as int + 32 == word[i] as int)
      {
        assert LowerChar(id[i]) == word[i];
      }
    }
  }

  /** Every generated id passes the rule for renames and is not reserved. */
  lemma GeneratedIdAllowed(a: string, n: string, v: string)
    requires IsWord(a) && IsWord(n) && IsWord(v)
    ensures AllowedID(a + "-" + n + "-" + v)
  {
    var id := a + "-" + n + "-" + v;
    forall c | c in id ensures IsIdChar(c) {
      assert c in a || c in n || c in v || c == '-';
    }
    assert ToLower(id)[|a|] == '-';
    forall r | r in RESERVED ensures '-' !in r {
    }
  }

  /** Different words give different ids. */
  lemma GeneratedIdInjective(a: string, n: string, v: string, a': string, n': string, v': string)
    requires IsWord(a) && IsWord(n) && IsWord(v) && IsWord(a') && IsWord(n') && IsWord(v')
    ensures a + "-" + n + "-" + v == a' + "-" + n' + "-" + v' <==> a == a' && n == n' && v == v'
  {
    var rest, rest' := n + "-" + v, n' + "-" + v';
    assert a + "-" + n + "-" + v == a + "-" + rest;
    assert a' + "-" + n' + "-" + v' == a' + "-" + rest';
    CutAt(a, '-', rest);
    CutAt(a', '-', rest');
    CutAt(n, '-', v);
    CutAt(n', '-', v');
  }

  /** What New draws from any word lists that keep the rule. */
  lemma NewIdAllowed(adjectives: seq<string>, nouns: seq<string>, verbs: seq<string>, i: nat, j: nat, k: nat)
    requires i < |adjectives| && j < |nouns| && k < |verbs|
    requires forall w :: w in adjectives + nouns + verbs ==> 3 <= |w| <= 8 && forall c :: c in w ==> 'a' <= c <= 'z'
    ensures AllowedID(New(adjectives, nouns, verbs, i, j, k))
    ensures New(adjectives, nouns, verbs, i, j, k) == adjectives[i] + "-" + nouns[j] + "-" + verbs[k]
    ensures forall a, n, v :: IsWord(a) && IsWord(n) && IsWord(v)
                              && New(adjectives, nouns, verbs, i, j, k) == a + "-" + n + "-" + v ==>
                              a == adjectives[i] && n == nouns[j] && v == verbs[k]
  {
    forall w | w in adjectives + nouns + verbs ensures IsWord(w) {
    }
    assert adjectives[i] in adjectives + nouns + verbs && nouns[j] in adjectives + nouns + verbs;
    assert verbs[k] in adjectives + nouns + verbs;
    GeneratedIdAllowed(adjectives[i], nouns[j], verbs[k]);
    hide AllowedID;
    hide IsWord;
    forall a, n, v | IsWord(a) && IsWord(n) && IsWord(v)
                     && New(adjectives, nouns, verbs, i, j, k) == a + "-" + n + "-" + v
      ensures a == adjectives[i] && n == nouns[j] && v == verbs[k]
    {
      GeneratedIdInjective(adjectives[i], nouns[j], verbs[k], a, n, v);
    }
  }

  // ---- The route table ----

  datatype Handler =
    | AdminList | AdminSingle | AdminUpdate | AdminDelete | AdminDeleteMany
    | Index | LoginForm | Login | LogoutForm | Logout | SetLang | SetTheme | CreateLink
    | Preview | Redirect | QR | StaticFile

  datatype Segment = Lit(text: string) | Id

  datatype Route = Route(verb: string, pattern: seq<Segment>, handler: Handler)

  /** A path segment of "" is what {$} stands for. */
  const ADMIN: seq<Route> := [
    Route("GET", [Lit("admin")], AdminList),
    Route("GET", [Lit("admin"), Lit("")], AdminList),
    Route("GET", [Lit("admin"), Id], AdminSingle),
    Route("POST", [Lit("admin"), Id], AdminUpdate),
    Route("DELETE", [Lit("admin"), Id], AdminDelete),
    Route("DELETE", [Lit("admin")], AdminDeleteMany),
    Route("DELETE", [Lit("admin"), Lit("")], AdminDeleteMany)]

  const SITE: seq<Route> := [
    Route("GET", [Lit("")], Index),
    Route("GET", [Lit("login")], LoginForm),
    Route("POST", [Lit("login")], Login),
    Route("GET", [Lit("logout")], LogoutForm),
    Route("POST", [Lit("logout")], Logout),
    Route("GET", [Lit("lang")], SetLang),
    Route("GET", [Lit("theme")], SetTheme),
    Route("POST", [Lit("api"), Lit("create")], CreateLink),
    Route("GET", [Id], Preview),
    Route("GET", [Id, Lit("redir")], Redirect),
    Route("GET", [Id, Lit("qr")], QR)]

  /** The files below internal/web/static. */
  const FILES: seq<(string, string)> := [
    ("css", "swosh.css"), ("img", "apple-touch-icon.png"), ("img", "icon.svg"), ("img", "icons.svg"),
    ("img", "notfound.svg"), ("img", "og.png"), ("img", "og.svg"), ("img", "swish-logo-dark.png"),
    ("img", "swish-logo-light.png"), ("js", "admin.js"), ("js", "preview.js"), ("js", "swosh.js"), ("js", "time.js")]

  function FileRoutes(files: seq<(string, string)>): (r: seq<Route>)
    ensures |r| == |files|
    ensures forall i :: 0 <= i < |files| ==> r[i] == Route("GET", [Lit(files[i].0), Lit(files[i].1)], StaticFile)
  {
    seq(|files|, i requires 0 <= i < |files| => Route("GET", [Lit(files[i].0), Lit(files[i].1)], StaticFile))
  }

  /** The segments of a path behind its leading slash. */
  function Segments(s: string): (r: seq<string>)
    ensures r != []
    decreases |s|
  {
    match Cut(s, '/')
    case None => [s]
    case Some((before, after)) =>
      CutLength(s, '/');
      [before] + Segments(after)
  }

  /** The mux that a path is handed to. */
  function Mux(path: string): seq<Route> {
    if UnderAdmin(path) then ADMIN else SITE + FileRoutes(FILES)
  }

  predicate MatchesSegment(p: Segment, s: string) {
    match p
    case Lit(text) => s == text
    case Id => s != ""
  }

  predicate Matches(r: Route, verb: string, segs: seq<string>) {
    && (r.verb == verb || (r.verb == "GET" && verb == "HEAD"))
    && |r.pattern| == |segs|
    && forall i :: 0 <= i < |segs| ==> MatchesSegment(r.pattern[i], segs[i])
  }

  /** `r` matches a proper part of what `s` matches: the precedence rule of ServeMux. */
  predicate MoreSpecific(r: Route, s: Route) {
    && |r.pattern| == |s.pattern|
    && (forall i :: 0 <= i < |r.pattern| ==> r.pattern[i] == s.pattern[i] || s.pattern[i].Id?)
    && r.pattern != s.pattern
  }

  /** The route that a request goes to: it matches, and it beats every other one that does. */
  predicate Wins(r: Route, verb: string, path: string) {
    && path != "" && path[0] == '/'
    && var routes, segs := Mux(path), Segments(path[1..]);
       && r in routes && Matches(r, verb, segs)
       && forall s :: s in routes && s != r && Matches(s, verb, segs) ==> MoreSpecific(r, s)
  }

  lemma SpecificOneWay(r: Route, s: Route)
    requires MoreSpecific(r, s)
    ensures !MoreSpecific(s, r)
  {
    assert exists i :: 0 <= i < |r.pattern| && r.pattern[i] != s.pattern[i];
  }

  /** No request goes two ways. */
  lemma OneWinner(r: Route, s: Route, verb: string, path: string)
    requires Wins(r, verb, path) && Wins(s, verb, path)
    ensures r == s
  {
    forall x, y | MoreSpecific(x, y) ensures !MoreSpecific(y, x) {
      SpecificOneWay(x, y);
    }
  }

  lemma SegmentsOf(id: string, tail: string)
    requires '/' !in id && '/' !in tail
    ensures Segments(id) == [id]
    ensures Segments(id + "/" + tail) == [id, tail]
  {
    CutNone(id, '/');
    CutNone(tail, '/');
    CutAt(id, '/', tail);
  }

  lemma ValidIdHasNoSlash(id: string)
    requires ValidID(id)
    ensures '/' !in id
  {
  }

  predicate UnderAdmin(path: string) {
    path == "/admin" || (|path| >= 7 && path[..7] == "/admin/")
  }

  lemma AdminSegment(path: string)
    ensures UnderAdmin(path) ==> Segments(path[1..])[0] == "admin"
  {
    if path == "/admin" {
      CutNone("admin", '/');
      assert path[1..] == "admin";
    } else if UnderAdmin(path) {
      CutAt("admin", '/', path[7..]);
      assert path[1..] == "admin" + "/" + path[7..];
    }
  }

  lemma NotUnderAdmin(id: string, tail: string)
    requires ValidID(id) && id != "admin"
    requires tail == "" || tail[0] == '/'
    ensures Mux("/" + id + tail) == SITE + FileRoutes(FILES)
  {
    var path := "/" + id + tail;
    ValidIdHasNoSlash(id);
    AdminSegment(path);
    assert path[1..] == id + tail;
    if tail == "" {
      CutNone(id, '/');
      assert id + tail == id;
    } else {
      CutAt(id, '/', tail[1..]);
      assert id + tail == id + "/" + tail[1..];
    }
  }

  const PREVIEW := Route("GET", [Id], Preview)
  const REDIRECT := Route("GET", [Id, Lit("redir")], Redirect)
  const QRCODE := Route("GET", [Id, Lit("qr")], QR)

  /** The public pages of a link are found under its id. The preview is hidden by a page of the site for
      just five of the ids that the syntax rule lets through; the reserved list blocks these, in any
      case, and also "api", which no page hides. */
  lemma PublicRoutes(id: string)
    requires ValidID(id)
    ensures Wins(PREVIEW, "GET", "/" + id) <==> id !in ["admin", "lang", "login", "logout", "theme"]
    ensures Wins(REDIRECT, "GET", "/" + id + "/redir") <==> id != "admin"
    ensures Wins(QRCODE, "GET", "/" + id + "/qr") <==> id != "admin"
  {
    hide MoreSpecific;
    hide Matches;
    hide SITE;
    hide FileRoutes;
    hide Segments;
    ValidIdHasNoSlash(id);
    SegmentsOf(id, "redir");
    SegmentsOf(id, "qr");
    if id == "admin" {
      AdminHidesPublic();
    } else {
      NotUnderAdmin(id, "");
      NotUnderAdmin(id, "/redir");
      NotUnderAdmin(id, "/qr");
      hide Mux;
      hide ValidID;
      assert "/" + id + "" == "/" + id;
      assert ("/" + id)[1..] == id && ("/" + id + "/redir")[1..] == id + "/" + "redir";
      assert ("/" + id + "/qr")[1..] == id + "/" + "qr";
      SiteOneSegment(id);
      SiteTwoSegments(id);
    }
  }

  /** Every route of the admin pages starts with that segment. */
  lemma AdminStarts(r: Route)
    requires r in ADMIN
    ensures r.pattern != [] && r.pattern[0] == Lit("admin")
  {
  }

  lemma UnderAdminMux(tail: string)
    requires tail == "" || tail[0] == '/'
    ensures Mux("/admin" + tail) == ADMIN
  {
    hide ADMIN;
    hide SITE;
    var path := "/admin" + tail;
    if tail != "" {
      assert path[..6] == "/admin" && path[6] == '/';
      assert path[..7] == path[..6] + [path[6]] == "/admin/";
    }
  }

  lemma AdminHidesPublic()
    ensures PREVIEW !in ADMIN && REDIRECT !in ADMIN && QRCODE !in ADMIN
    ensures Mux("/" + "admin") == Mux("/" + "admin" + "/redir") == Mux("/" + "admin" + "/qr") == ADMIN
  {
    hide ADMIN;
    hide Mux;
    forall r | r in ADMIN ensures r.pattern != [] && r.pattern[0] == Lit("admin") {
      AdminStarts(r);
    }
    UnderAdminMux("");
    UnderAdminMux("/redir");
    UnderAdminMux("/qr");
    assert "/" + "admin" == "/admin" == "/admin" + "";
  }

  lemma MatchesOne(r: Route, verb: string, a: string)
    ensures Matches(r, verb, [a]) <==>
            && (r.verb == verb || (r.verb == "GET" && verb == "HEAD"))
            && |r.pattern| == 1 && MatchesSegment(r.pattern[0], a)
  {
    assert [a][0] == a;
  }

  /** The pages of one segment besides the preview. */
  lemma SitePages(s: Route, id: string)
    requires id != "" && s in SITE && s != PREVIEW && Matches(s, "GET", [id])
    ensures id in ["lang", "login", "logout", "theme"]
  {
    MatchesOne(s, "GET", id);
    hide Matches;
  }

  lemma PageOf(id: string) returns (page: Route)
    requires id in ["lang", "login", "logout", "theme"]
    ensures page in SITE && page != PREVIEW && Matches(page, "GET", [id]) && !MoreSpecific(PREVIEW, page)
  {
    page := Route("GET", [Lit(id)], if id == "lang" then SetLang else if id == "login" then LoginForm
                                    else if id == "logout" then LogoutForm else SetTheme);
    assert page == SITE[if id == "lang" then 5 else if id == "login" then 1 else if id == "logout" then 3 else 6];
    MatchesOne(page, "GET", id);
    hide Matches;
  }

  lemma SiteOneSegment(id: string)
    requires id != ""
    ensures var routes := SITE + FileRoutes(FILES);
            && PREVIEW in routes && Matches(PREVIEW, "GET", [id])
            && ((forall s :: s in routes && s != PREVIEW && Matches(s, "GET", [id]) ==> MoreSpecific(PREVIEW, s))
                <==> id !in ["lang", "login", "logout", "theme"])
  {
    hide Matches;
    hide MoreSpecific;
    hide FILES;
    assert PREVIEW in SITE by { assert SITE[8] == PREVIEW; }
    hide SITE;
    var routes := SITE + FileRoutes(FILES);
    MatchesOne(PREVIEW, "GET", id);
    forall s | s in routes && s != PREVIEW && Matches(s, "GET", [id])
      ensures id in ["lang", "login", "logout", "theme"]
    {
      MatchesOne(s, "GET", id);
      SitePages(s, id);
    }
    if id in ["lang", "login", "logout", "theme"] {
      var page := PageOf(id);
      assert page in routes;
    }
  }

  lemma MatchesTwo(r: Route, verb: string, a: string, b: string)
    ensures Matches(r, verb, [a, b]) <==>
            && (r.verb == verb || (r.verb == "GET" && verb == "HEAD"))
            && |r.pattern| == 2 && MatchesSegment(r.pattern[0], a) && MatchesSegment(r.pattern[1], b)
  {
    var segs := [a, b];
    assert segs[0] == a && segs[1] == b;
  }

  lemma SiteTwoSegments(id: string)
    requires id != ""
    ensures var routes := SITE + FileRoutes(FILES);
            && REDIRECT in routes && Matches(REDIRECT, "GET", [id, "redir"])
            && QRCODE in routes && Matches(QRCODE, "GET", [id, "qr"])
            && (forall s :: s in routes && Matches(s, "GET", [id, "redir"]) ==> s == REDIRECT)
            && (forall s :: s in routes && Matches(s, "GET", [id, "qr"]) ==> s == QRCODE)
  {
    hide Matches;
    hide FILES;
    var routes := SITE + FileRoutes(FILES);
    assert SITE[9] == REDIRECT && REDIRECT in SITE && SITE[10] == QRCODE && QRCODE in SITE;
    MatchesTwo(REDIRECT, "GET", id, "redir");
    MatchesTwo(QRCODE, "GET", id, "qr");
    forall s | s in routes
      ensures Matches(s, "GET", [id, "redir"]) ==> s == REDIRECT
      ensures Matches(s, "GET", [id, "qr"]) ==> s == QRCODE
    {
      MatchesTwo(s, "GET", id, "redir");
      MatchesTwo(s, "GET", id, "qr");
      if s !in SITE {
        var i :| 0 <= i < |FILES| && FileRoutes(FILES)[i] == s;
        FileNames(i);
      }
    }
  }

  /** No static file is called redir or qr: each has an extension. */
  lemma FileNames(i: nat)
    requires i < |FILES|
    ensures FILES[i].1 !in ["redir", "qr"]
  {
    assert forall j :: 0 <= j < |FILES| ==> '.' in FILES[j].1;
  }

  const SINGLE := Route("GET", [Lit("admin"), Id], AdminSingle)
  const UPDATE := Route("POST", [Lit("admin"), Id], AdminUpdate)
  const DELETE := Route("DELETE", [Lit("admin"), Id], AdminDelete)

  /** The admin pages find every link under its id, whatever the id is. */
  lemma AdminRoutes(id: string)
    requires ValidID(id)
    ensures Wins(SINGLE, "GET", "/admin/" + id)
    ensures Wins(UPDATE, "POST", "/admin/" + id)
    ensures Wins(DELETE, "DELETE", "/admin/" + id)
  {
    var path := "/admin/" + id;
    ValidIdHasNoSlash(id);
    SegmentsOf("admin", id);
    assert path[..7] == "/admin/" && path[1..] == "admin" + "/" + id;
    AdminTwoSegments(id);
    hide ADMIN;
    hide Segments;
    hide MoreSpecific;
    hide Matches;
  }

  lemma AdminTwoSegments(id: string)
    requires id != ""
    ensures SINGLE in ADMIN && UPDATE in ADMIN && DELETE in ADMIN
    ensures forall s :: s in ADMIN ==>
              && (Matches(s, "GET", ["admin", id]) <==> s == SINGLE)
              && (Matches(s, "POST", ["admin", id]) <==> s == UPDATE)
              && (Matches(s, "DELETE", ["admin", id]) <==> s == DELETE)
  {
    assert ADMIN[2] == SINGLE && ADMIN[3] == UPDATE && ADMIN[4] == DELETE;
    forall s | s in ADMIN
      ensures Matches(s, "GET", ["admin", id]) <==> s == SINGLE
      ensures Matches(s, "POST", ["admin", id]) <==> s == UPDATE
      ensures Matches(s, "DELETE", ["admin", id]) <==> s == DELETE
    {
      MatchesTwo(s, "GET", "admin", id);
      MatchesTwo(s, "POST", "admin", id);
      MatchesTwo(s, "DELETE", "admin", id);
      hide Matches;
    }
  }

  // ---- The other pages ----

  /** One page for each verb and name; besides them only the preview has one segment. */
  lemma OnePage(w: string, r: Route, s: Route)
    requires r in SITE && s in SITE && r.pattern == [Lit(w)] && r.verb in ["GET", "POST"] && Matches(s, r.verb, [w])
    ensures s == r || s == PREVIEW
  {
    MatchesOne(s, r.verb, w);
    hide Matches;
  }

  lemma PageWins(r: Route, w: string)
    requires r in SITE && r.pattern == [Lit(w)] && r.verb in ["GET", "POST"] && '/' !in w && w != "admin"
    ensures Wins(r, r.verb, "/" + w)
  {
    hide SITE;
    hide FILES;
    hide Matches;
    var path := "/" + w;
    CutNone(w, '/');
    assert path[1..] == w && Segments(w) == [w];
    AdminSegment(path);
    MatchesOne(r, r.verb, w);
    forall s | s in SITE + FileRoutes(FILES) && s != r && Matches(s, r.verb, [w]) ensures MoreSpecific(r, s) {
      MatchesOne(s, r.verb, w);
      OnePage(w, r, s);
    }
  }

  lemma ApiRoute(s: Route)
    requires s in SITE + FileRoutes(FILES) && Matches(s, "POST", ["api", "create"])
    ensures s == Route("POST", [Lit("api"), Lit("create")], CreateLink)
  {
    MatchesTwo(s, "POST", "api", "create");
    hide Matches;
    hide FILES;
  }

  lemma ApiSegments()
    ensures Mux("/api/create") == SITE + FileRoutes(FILES) && Segments("/api/create"[1..]) == ["api", "create"]
  {
    hide SITE;
    hide FILES;
    SegmentsOf("api", "create");
    assert "/api/create"[1..] == "api" + "/" + "create";
    AdminSegment("/api/create");
    hide Segments;
  }

  lemma ApiWins(r: Route)
    requires r in SITE && r.verb == "POST" && r.pattern == [Lit("api"), Lit("create")]
    ensures Wins(r, "POST", "/api/create")
  {
    hide SITE;
    hide FILES;
    hide Matches;
    hide MoreSpecific;
    hide Mux;
    hide Segments;
    ApiSegments();
    MatchesTwo(r, "POST", "api", "create");
    forall s | s in SITE + FileRoutes(FILES) && Matches(s, "POST", ["api", "create"]) ensures s == r {
      ApiRoute(s);
      ApiRoute(r);
    }
  }

  lemma InSite()
    ensures Route("GET", [Lit("")], Index) in SITE
    ensures Route("GET", [Lit("login")], LoginForm) in SITE
    ensures Route("POST", [Lit("login")], Login) in SITE
    ensures Route("GET", [Lit("logout")], LogoutForm) in SITE
    ensures Route("POST", [Lit("logout")], Logout) in SITE
    ensures Route("GET", [Lit("lang")], SetLang) in SITE
    ensures Route("GET", [Lit("theme")], SetTheme) in SITE
    ensures Route("POST", [Lit("api"), Lit("create")], CreateLink) in SITE
  {
    assert SITE[0] in SITE;
    assert SITE[1] in SITE;
    assert SITE[2] in SITE;
    assert SITE[3] in SITE;
    assert SITE[4] in SITE;
    assert SITE[5] in SITE;
    assert SITE[6] in SITE;
    assert SITE[7] in SITE;
  }

  /** The pages of the site that are no links. */
  lemma SiteRoutes()
    ensures Wins(Route("GET", [Lit("")], Index), "GET", "/" + "")
    ensures Wins(Route("GET", [Lit("login")], LoginForm), "GET", "/" + "login")
    ensures Wins(Route("POST", [Lit("login")], Login), "POST", "/" + "login")
    ensures Wins(Route("GET", [Lit("logout")], LogoutForm), "GET", "/" + "logout")
    ensures Wins(Route("POST", [Lit("logout")], Logout), "POST", "/" + "logout")
    ensures Wins(Route("GET", [Lit("lang")], SetLang), "GET", "/" + "lang")
    ensures Wins(Route("GET", [Lit("theme")], SetTheme), "GET", "/" + "theme")
    ensures Wins(Route("POST", [Lit("api"), Lit("create")], CreateLink), "POST", "/api/create")
  {
    hide Wins;
    hide SITE;
    InSite();
    PageWins(Route("GET", [Lit("")], Index), "");
    PageWins(Route("GET", [Lit("login")], LoginForm), "login");
    PageWins(Route("POST", [Lit("login")], Login), "login");
    PageWins(Route("GET", [Lit("logout")], LogoutForm), "logout");
    PageWins(Route("POST", [Lit("logout")], Logout), "logout");
    PageWins(Route("GET", [Lit("lang")], SetLang), "lang");
    PageWins(Route("GET", [Lit("theme")], SetTheme), "theme");
    ApiWins(Route("POST", [Lit("api"), Lit("create")], CreateLink));
  }

  lemma AdminListMatches(s: Route, verb: string)
    requires s in ADMIN && verb in ["GET", "DELETE"]
    ensures Matches(s, verb, ["admin"]) <==>
            s == Route(verb, [Lit("admin")], if verb == "GET" then AdminList else AdminDeleteMany)
    ensures Matches(s, verb, ["admin", ""]) <==>
            s == Route(verb, [Lit("admin"), Lit("")], if verb == "GET" then AdminList else AdminDeleteMany)
  {
    MatchesOne(s, verb, "admin");
    MatchesTwo(s, verb, "admin", "");
    hide Matches;
  }

  lemma AdminListSegments()
    ensures Mux("/admin") == Mux("/admin/") == ADMIN
    ensures Segments("/admin"[1..]) == ["admin"] && Segments("/admin/"[1..]) == ["admin", ""]
  {
    hide ADMIN;
    SegmentsOf("admin", "");
    assert "/admin"[1..] == "admin" && "/admin/"[1..] == "admin" + "/" + "";
    hide Segments;
    UnderAdminMux("");
    UnderAdminMux("/");
    assert "/admin" + "" == "/admin" && "/admin" + "/" == "/admin/";
  }

  lemma AdminListWins(verb: string, handler: Handler)
    requires verb in ["GET", "DELETE"] && handler == if verb == "GET" then AdminList else AdminDeleteMany
    ensures Wins(Route(verb, [Lit("admin")], handler), verb, "/admin")
    ensures Wins(Route(verb, [Lit("admin"), Lit("")], handler), verb, "/admin/")
  {
    hide Matches;
    hide MoreSpecific;
    hide Mux;
    hide Segments;
    hide ADMIN;
    AdminListSegments();
    InAdminList();
    forall s | s in ADMIN
      ensures Matches(s, verb, ["admin"]) <==> s == Route(verb, [Lit("admin")], handler)
      ensures Matches(s, verb, ["admin", ""]) <==> s == Route(verb, [Lit("admin"), Lit("")], handler)
    {
      AdminListMatches(s, verb);
    }
  }

  /** The list of links, and deleting many of them. */
  lemma AdminListRoutes()
    ensures Wins(Route("GET", [Lit("admin")], AdminList), "GET", "/admin")
    ensures Wins(Route("GET", [Lit("admin"), Lit("")], AdminList), "GET", "/admin/")
    ensures Wins(Route("DELETE", [Lit("admin")], AdminDeleteMany), "DELETE", "/admin")
    ensures Wins(Route("DELETE", [Lit("admin"), Lit("")], AdminDeleteMany), "DELETE", "/admin/")
  {
    hide Wins;
    AdminListWins("GET", AdminList);
    AdminListWins("DELETE", AdminDeleteMany);
  }

  lemma InAdminList()
    ensures Route("GET", [Lit("admin")], AdminList) in ADMIN
    ensures Route("GET", [Lit("admin"), Lit("")], AdminList) in ADMIN
    ensures Route("DELETE", [Lit("admin")], AdminDeleteMany) in ADMIN
    ensures Route("DELETE", [Lit("admin"), Lit("")], AdminDeleteMany) in ADMIN
  {
    assert ADMIN[0] in ADMIN && ADMIN[1] in ADMIN && ADMIN[5] in ADMIN && ADMIN[6] in ADMIN;
  }

  /** The path segment that stands where the pattern has {id}. */
  function PathId(pattern: seq<Segment>, segs: seq<string>): Option<string> {
    if pattern == [] || segs == [] then None
    else if pattern[0].Id? then Some(segs[0])
    else PathId(pattern[1..], segs[1..])
  }

  /** The request goes to this route, and the route's handler sees this id. */
  predicate Dispatches(r: Route, verb: string, path: string, id: string) {
    Wins(r, verb, path) && PathId(r.pattern, Segments(path[1..])) == Some(id)
  }

  lemma PathSegments(id: string)
    requires '/' !in id
    ensures Segments(("/" + id)[1..]) == [id]
    ensures Segments(("/" + id + "/redir")[1..]) == [id, "redir"]
    ensures Segments(("/" + id + "/qr")[1..]) == [id, "qr"]
    ensures Segments(("/admin/" + id)[1..]) == ["admin", id]
  {
    hide Segments;
    SegmentsOf(id, "redir");
    SegmentsOf(id, "qr");
    SegmentsOf("admin", id);
    assert ("/" + id)[1..] == id;
    assert ("/" + id + "/redir")[1..] == id + "/" + "redir";
    assert ("/" + id + "/qr")[1..] == id + "/" + "qr";
    assert ("/admin/" + id)[1..] == "admin" + "/" + id;
  }

  lemma PathIdShort(first: Segment, second: Segment, a: string, b: string)
    ensures PathId([Id], [a]) == Some(a)
    ensures first.Id? ==> PathId([first, second], [a, b]) == Some(a)
    ensures first.Lit? && second.Id? ==> PathId([first, second], [a, b]) == Some(b)
  {
    assert [first, second][1..] == [second] && [a, b][1..] == [b];
  }

  lemma PathIds(id: string)
    requires '/' !in id
    ensures PathId(PREVIEW.pattern, Segments(("/" + id)[1..])) == Some(id)
    ensures PathId(REDIRECT.pattern, Segments(("/" + id + "/redir")[1..])) == Some(id)
    ensures PathId(QRCODE.pattern, Segments(("/" + id + "/qr")[1..])) == Some(id)
    ensures PathId(SINGLE.pattern, Segments(("/admin/" + id)[1..])) == Some(id)
  {
    hide Segments;
    hide PathId;
    PathSegments(id);
    PathIdShort(Id, Lit("redir"), id, "redir");
    PathIdShort(Id, Lit("qr"), id, "qr");
    PathIdShort(Lit("admin"), Id, "admin", id);
  }

  /** An id that an admin may choose leads to its link from every kind of page. */
  lemma AllowedIdIsReachable(id: string)
    requires AllowedID(id)
    ensures Dispatches(PREVIEW, "GET", "/" + id, id)
    ensures Dispatches(REDIRECT, "GET", "/" + id + "/redir", id)
    ensures Dispatches(QRCODE, "GET", "/" + id + "/qr", id)
    ensures Dispatches(SINGLE, "GET", "/admin/" + id, id)
    ensures Dispatches(UPDATE, "POST", "/admin/" + id, id)
    ensures Dispatches(DELETE, "DELETE", "/admin/" + id, id)
  {
    hide Wins;
    hide Segments;
    hide PathId;
    PublicRoutes(id);
    AdminRoutes(id);
    AllowedIsNotReserved(id);
    ValidIdHasNoSlash(id);
    PathIds(id);
    hide AllowedID;
  }

  lemma AllowedIsNotReserved(id: string)
    requires AllowedID(id)
    ensures id !in RESERVED
  {
    ReservedIsLower(id);
  }

  lemma ReservedIsLower(id: string)
    ensures id in RESERVED ==> ToLower(id) == id
  {
    if id in RESERVED {
      assert forall c :: c in id ==> LowerChar(c) == c;
    }
  }
}
