/** JSON text (RFC 8259) as encoding/json writes and reads it. */
module Json {
  import opened Wrappers
  import opened Text
  import Decimal
  import Unicode

  /** A number is kept as it is spelled, so that nothing is rounded. */
  datatype Json =
    | Null
    | Bool(flag: bool)
    | Num(lit: string)
    | Str(text: string)
    | Arr(items: Items)
    | Obj(members: Members)

  datatype Items = NoItems | Item(first: Json, others: Items)

  datatype Members = NoMembers | Member(key: string, value: Json, others: Members)

  // ---- Strings (section 7) ----

  function UnicodeEscape(n: Unicode.unit16): string {
    ['\\', 'u', HexChar(n / 0x1000, false), HexChar(n / 0x100 % 0x10, false),
      HexChar(n / 0x10 % 0x10, false), HexChar(n % 0x10, false)]
  }

  predicate IsHtml(c: char) { c == '<' || c == '>' || c == '&' }

  predicate NeedsEscape(c: char, html: bool) {
    || c == '"' || c == '\\' || c as int < 0x20 || (html && IsHtml(c))
    || c as int == 0x2028 || c as int == 0x2029
  }

  function EscapeChar(c: char, html: bool): string {
    if !NeedsEscape(c, html) then [c]
    else if c == '"' then "\\\""
    else if c == '\\' then "\\\\"
    else if c as int == 0x08 then "\\b"
    else if c as int == 0x0c then "\\f"
    else if c == '\n' then "\\n"
    else if c == '\r' then "\\r"
    else if c == '\t' then "\\t"
    else UnicodeEscape(c as int)
  }

  function Escape(s: string, html: bool): string {
    if s == "" then "" else EscapeChar(s[0], html) + Escape(s[1..], html)
  }

  function Hex4(s: string): (r: Option<Unicode.unit16>) {
    if |s| < 4 then None else
    var a :- HexVal(s[0]);
    var b :- HexVal(s[1]);
    var c :- HexVal(s[2]);
    var d :- HexVal(s[3]);
    Some(((a * 0x10 + b) * 0x10 + c) * 0x10 + d)
  }

  const REPLACEMENT: char := 0xfffd as char

  /** Reads \uXXXX, and a second one when the two make a surrogate pair. A lone surrogate is read as
      the replacement character. */
  function ReadUnicode(s: string): (r: Option<(char, string)>)
    requires |s| >= 2
    ensures r.Some? ==> |r.value.1| < |s|
  {
    var n :- Hex4(s[2..]);
    if Unicode.IsScalar(n) then Some((n as char, s[6..])) else
    var low := if |s| >= 8 && s[6] == '\\' && s[7] == 'u' then Hex4(s[8..]) else None;
    if Unicode.IsHigh(n) && low.Some? && Unicode.IsLow(low.value)
    then Some((Unicode.Combine(n, low.value), s[12..]))
    else Some((REPLACEMENT, s[6..]))
  }

  /** The first character that the inside of a string literal spells. */
  function ReadChar(s: string): (r: Option<(char, string)>)
    requires s != ""
    ensures r.Some? ==> |r.value.1| < |s|
  {
    if s[0] as int < 0x20 then None
    else if s[0] != '\\' then Some((s[0], s[1..]))
    else if |s| == 1 then None
    else match s[1]
      case '"' => Some(('"', s[2..]))
      case '\\' => Some(('\\', s[2..]))
      case '/' => Some(('/', s[2..]))
      case 'b' => Some((0x08 as char, s[2..]))
      case 'f' => Some((0x0c as char, s[2..]))
      case 'n' => Some(('\n', s[2..]))
      case 'r' => Some(('\r', s[2..]))
      case 't' => Some(('\t', s[2..]))
      case 'u' => ReadUnicode(s)
      case _ => None
  }

  /** The text up to the closing quote, and what is behind it. */
  function ReadString(s: string): (r: Option<(string, string)>)
    ensures r.Some? ==> |r.value.1| < |s|
    decreases |s|
  {
    if s == "" then None
    else if s[0] == '"' then Some(("", s[1..]))
    else
      var (c, rest) :- ReadChar(s);
      var (text, end) :- ReadString(rest);
      Some(([c] + text, end))
  }

  lemma Hex4OfEscape(n: Unicode.unit16, rest: string)
    ensures |UnicodeEscape(n)| == 6 && Hex4((UnicodeEscape(n) + rest)[2..]) == Some(n)
  {
    var s := (UnicodeEscape(n) + rest)[2..];
    assert s[0] == HexChar(n / 0x1000, false) && s[1] == HexChar(n / 0x100 % 0x10, false);
    assert s[2] == HexChar(n / 0x10 % 0x10, false) && s[3] == HexChar(n % 0x10, false);
    assert n / 0x10 / 0x10 / 0x10 == n / 0x1000 && n / 0x10 / 0x10 == n / 0x100;
  }

  lemma ReadEscapedChar(c: char, html: bool, rest: string)
    ensures EscapeChar(c, html) != "" && EscapeChar(c, html)[0] != '"'
    ensures ReadChar(EscapeChar(c, html) + rest) == Some((c, rest))
  {
    var e := EscapeChar(c, html);
    var s := e + rest;
    assert s[|e|..] == rest;
    assert s[0] == e[0] && (|e| > 1 ==> s[1] == e[1]);
    if |e| == 6 {
      Hex4OfEscape(c as int, rest);
    }
  }

  /** Reading undoes escaping, whether or not HTML characters were escaped too. */
  lemma {:induction false} ReadEscaped(s: string, html: bool, rest: string)
    ensures ReadString(Escape(s, html) + "\"" + rest) == Some((s, rest))
  {
    hide EscapeChar;
    hide ReadChar;
    var tail := "\"" + rest;
    assert Escape(s, html) + "\"" + rest == Escape(s, html) + tail;
    if s == "" {
      assert "" + tail == tail;
    } else {
      var more := Escape(s[1..], html) + tail;
      assert Escape(s, html) + tail == EscapeChar(s[0], html) + more;
      ReadEscapedChar(s[0], html, more);
      ReadEscaped(s[1..], html, rest);
      assert more == Escape(s[1..], html) + "\"" + rest;
      assert [s[0]] + s[1..] == s;
    }
  }

  lemma UnitTail(n: Unicode.unit16, rest: string)
    ensures (UnicodeEscape(n) + rest)[6..] == rest
    ensures (UnicodeEscape(n) + rest)[0] == '\\' && (UnicodeEscape(n) + rest)[1] == 'u'
  {
  }

  /** An escaped UTF-16 unit is read as its character, two that make a pair as theirs, and a surrogate that has no
      partner as U+FFFD. */
  lemma EscapedUnits(n: Unicode.unit16, m: Unicode.unit16, rest: string)
    ensures Unicode.IsScalar(n) ==> ReadChar(UnicodeEscape(n) + rest) == Some((n as char, rest))
    ensures Unicode.IsHigh(n) && Unicode.IsLow(m) ==>
            ReadChar(UnicodeEscape(n) + (UnicodeEscape(m) + rest)) == Some((Unicode.Combine(n, m), rest))
    ensures !Unicode.IsScalar(n) && !(Unicode.IsHigh(n) && Unicode.IsLow(m)) ==>
            ReadChar(UnicodeEscape(n) + (UnicodeEscape(m) + rest)) == Some((0xfffd as char, UnicodeEscape(m) + rest))
    ensures !Unicode.IsScalar(n) && (|rest| < 2 || rest[..2] != "\\u") ==>
            ReadChar(UnicodeEscape(n) + rest) == Some((0xfffd as char, rest))
  {
    hide UnicodeEscape;
    hide Hex4;
    var more := UnicodeEscape(m) + rest;
    Hex4OfEscape(n, rest);
    Hex4OfEscape(n, more);
    Hex4OfEscape(m, rest);
    UnitTail(n, rest);
    UnitTail(n, more);
    UnitTail(m, rest);
    UnitBehind(n, rest);
    UnitBehind(n, more);
    UnitBehind(m, rest);
  }

  /** What ReadUnicode looks at behind one unit. */
  lemma UnitBehind(n: Unicode.unit16, rest: string)
    ensures var s := UnicodeEscape(n) + rest;
            && |s| == 6 + |rest|
            && (|rest| >= 2 ==> s[6] == rest[0] && s[7] == rest[1] && s[8..] == rest[2..])
            && (|rest| >= 6 ==> s[12..] == rest[6..])
  {
  }

  /** The characters that stay as they are. */
  lemma PlainChars(c: char, html: bool)
    ensures EscapeChar(c, html) == [c] <==>
            ' ' <= c && c !in "\"\\\U{2028}\U{2029}" && !(html && c in "<>&")
  {
    if NeedsEscape(c, html) {
      assert |EscapeChar(c, html)| >= 2;
    }
    assert "\U{2028}\U{2029}"[0] as int == 0x2028 && "\U{2028}\U{2029}"[1] as int == 0x2029;
  }

  lemma EscapeCharSafe(c: char, x: char)
    requires x in EscapeChar(c, true)
    ensures ' ' <= x && x !in "<>&"
  {
  }

  /** With HTML escaping on, a string literal cannot open a tag or an entity. */
  lemma {:induction false} EscapeHidesHtml(s: string)
    ensures forall c :: c in Escape(s, true) ==> ' ' <= c && c !in "<>&"
  {
    hide EscapeChar;
    if s != "" {
      EscapeHidesHtml(s[1..]);
      forall c | c in EscapeChar(s[0], true) ensures ' ' <= c && c !in "<>&" {
        EscapeCharSafe(s[0], c);
      }
    }
  }

  // ---- Numbers (section 6) ----

  predicate IsNumberChar(c: char) {
    Decimal.IsDigit(c) || c == '+' || c == '-' || c == '.' || c == 'e' || c == 'E'
  }

  function NumberSpan(s: string): (n: nat)
    ensures n <= |s|
  {
    if s != "" && IsNumberChar(s[0]) then 1 + NumberSpan(s[1..]) else 0
  }

  function DropDigits(s: string): (r: string)
    ensures |r| <= |s|
  {
    if s != "" && Decimal.IsDigit(s[0]) then DropDigits(s[1..]) else s
  }

  /** -? int frac? exp? */
  predicate ValidNumber(lit: string) {
    var body := if lit != "" && lit[0] == '-' then lit[1..] else lit;
    && body != "" && Decimal.IsDigit(body[0])
    && var frac := if body[0] == '0' then body[1..] else DropDigits(body);
       if frac != "" && frac[0] == '.' then
         var exp := DropDigits(frac[1..]);
         |exp| < |frac| - 1 && ValidExponent(exp)
       else ValidExponent(frac)
  }

  predicate ValidExponent(s: string) {
    s == "" || (
      && (s[0] == 'e' || s[0] == 'E')
      && var digits := if |s| > 1 && (s[1] == '+' || s[1] == '-') then s[2..] else s[1..];
         digits != "" && DropDigits(digits) == "")
  }

  lemma {:induction false} DropAllDigits(s: string)
    requires Decimal.AllDigits(s)
    ensures DropDigits(s) == ""
  {
    if s != "" {
      DropAllDigits(s[1..]);
    }
  }

  lemma PrintedIntIsNumber(n: int)
    ensures ValidNumber(Decimal.FormatInt(n))
    ensures forall c :: c in Decimal.FormatInt(n) ==> IsNumberChar(c)
  {
    var lit := Decimal.FormatInt(n);
    var digits := Decimal.FormatNat(if n < 0 then -n else n);
    assert n < 0 ==> lit[1..] == digits;
    assert Decimal.IsDigit(digits[0]);
    DropAllDigits(digits);
  }

  lemma {:induction false} NumberSpanOf(lit: string, rest: string)
    requires forall c :: c in lit ==> IsNumberChar(c)
    requires rest == "" || !IsNumberChar(rest[0])
    ensures NumberSpan(lit + rest) == |lit|
  {
    if lit == "" {
      assert lit + rest == rest;
    } else {
      assert lit[0] in lit;
      NumberSpanOf(lit[1..], rest);
      assert (lit + rest)[1..] == lit[1..] + rest;
    }
  }

  // ---- Values ----

  function Quote(s: string, html: bool): string {
    "\"" + Escape(s, html) + "\""
  }

  function Print(v: Json, html: bool): string {
    match v
    case Null => "null"
    case Bool(flag) => if flag then "true" else "false"
    case Num(lit) => lit
    case Str(text) => Quote(text, html)
    case Arr(items) => "[" + PrintItems(items, html) + "]"
    case Obj(members) => "{" + PrintMembers(members, html) + "}"
  }

  function PrintItems(items: Items, html: bool): string {
    match items
    case NoItems => ""
    case Item(first, others) =>
      Print(first, html) + (if others.NoItems? then "" else "," + PrintItems(others, html))
  }

  function PrintMembers(members: Members, html: bool): string {
    match members
    case NoMembers => ""
    case Member(key, value, others) =>
      Quote(key, html) + ":" + Print(value, html)
      + (if others.NoMembers? then "" else "," + PrintMembers(others, html))
  }

  function SkipSpace(s: string): (r: string)
    ensures |r| <= |s|
  {
    if s != "" && (s[0] == ' ' || s[0] == '\t' || s[0] == '\r' || s[0] == '\n') then SkipSpace(s[1..]) else s
  }

  function ParseWord(s: string, word: string, v: Json): (r: Option<(Json, string)>)
    requires word != ""
    ensures r.Some? ==> |r.value.1| < |s|
  {
    if |s| >= |word| && s[..|word|] == word then Some((v, s[|word|..])) else None
  }

  function ParseValue(s: string): (r: Option<(Json, string)>)
    ensures r.Some? ==> |r.value.1| < |s|
    decreases |s|, 1
  {
    var t := SkipSpace(s);
    if t == "" then None
    else if t[0] == '"' then
      var (text, rest) :- ReadString(t[1..]);
      Some((Str(text), rest))
    else if t[0] == '[' then
      var u := SkipSpace(t[1..]);
      if u != "" && u[0] == ']' then Some((Arr(NoItems), u[1..])) else
      var (items, rest) :- ParseItems(t[1..]);
      Some((Arr(items), rest))
    else if t[0] == '{' then
      var u := SkipSpace(t[1..]);
      if u != "" && u[0] == '}' then Some((Obj(NoMembers), u[1..])) else
      var (members, rest) :- ParseMembers(t[1..]);
      Some((Obj(members), rest))
    else if t[0] == 'n' then ParseWord(t, "null", Null)
    else if t[0] == 't' then ParseWord(t, "true", Bool(true))
    else if t[0] == 'f' then ParseWord(t, "false", Bool(false))
    else
      var n := NumberSpan(t);
      if ValidNumber(t[..n]) then Some((Num(t[..n]), t[n..])) else None
  }

  function ParseItems(s: string): (r: Option<(Items, string)>)
    ensures r.Some? ==> |r.value.1| < |s|
    decreases |s|, 2
  {
    var (first, rest) :- ParseValue(s);
    var t := SkipSpace(rest);
    if t == "" then None
    else if t[0] == ']' then Some((Item(first, NoItems), t[1..]))
    else if t[0] != ',' then None
    else
      var (others, end) :- ParseItems(t[1..]);
      Some((Item(first, others), end))
  }

  function ParseMembers(s: string): (r: Option<(Members, string)>)
    ensures r.Some? ==> |r.value.1| < |s|
    decreases |s|, 2
  {
    var t := SkipSpace(s);
    if t == "" || t[0] != '"' then None else
    var (key, colon) :- ReadString(t[1..]);
    var u := SkipSpace(colon);
    if u == "" || u[0] != ':' then None else
    var (value, rest) :- ParseValue(u[1..]);
    var w := SkipSpace(rest);
    if w == "" then None
    else if w[0] == '}' then Some((Member(key, value, NoMembers), w[1..]))
    else if w[0] != ',' then None
    else
      var (others, end) :- ParseMembers(w[1..]);
      Some((Member(key, value, others), end))
  }

  /** json.Unmarshal's reading of a whole text: one value and nothing else. */
  function Parse(s: string): Option<Json> {
    var (v, rest) :- ParseValue(s);
    if SkipSpace(rest) == "" then Some(v) else None
  }

  /** Every number in the value is spelled as JSON allows. */
  predicate WellFormed(v: Json) {
    match v
    case Num(lit) => ValidNumber(lit) && forall c :: c in lit ==> IsNumberChar(c)
    case Arr(items) => WellFormedItems(items)
    case Obj(members) => WellFormedMembers(members)
    case _ => true
  }

  predicate WellFormedItems(items: Items) {
    items.Item? ==> WellFormed(items.first) && WellFormedItems(items.others)
  }

  predicate WellFormedMembers(members: Members) {
    members.Member? ==> WellFormed(members.value) && WellFormedMembers(members.others)
  }

  lemma NoMembersWellFormed()
    ensures WellFormedMembers(NoMembers)
  {
  }

  lemma MemberWellFormed(key: string, value: Json, others: Members)
    requires WellFormed(value) && WellFormedMembers(others)
    ensures WellFormedMembers(Member(key, value, others)) && WellFormed(Obj(Member(key, value, others)))
  {
  }

  /** A number ends where this begins. */
  predicate Delimits(rest: string) {
    rest == "" || !IsNumberChar(rest[0])
  }

  lemma ParseQuoted(text: string, html: bool, rest: string)
    ensures ReadString((Quote(text, html) + rest)[1..]) == Some((text, rest))
  {
    ReadEscaped(text, html, rest);
    assert (Quote(text, html) + rest)[1..] == Escape(text, html) + "\"" + rest;
  }

  predicate NotSpace(c: char) {
    c != ' ' && c != '\t' && c != '\r' && c != '\n'
  }

  lemma ParseNumber(lit: string, rest: string)
    requires WellFormed(Num(lit)) && Delimits(rest)
    ensures ParseValue(lit + rest) == Some((Num(lit), rest))
  {
    var s := lit + rest;
    NumberSpanOf(lit, rest);
    assert lit[0] in lit && s[0] == lit[0];
    assert s[..|lit|] == lit && s[|lit|..] == rest;
    assert SkipSpace(s) == s;
  }

  lemma ParseSimple(v: Json, html: bool, rest: string)
    requires v.Null? || v.Bool? || v.Str?
    ensures ParseValue(Print(v, html) + rest) == Some((v, rest))
  {
    var w := Print(v, html);
    var s := w + rest;
    assert s[..|w|] == w && s[|w|..] == rest && s[0] == w[0];
    assert SkipSpace(s) == s;
    if v.Str? {
      ParseQuoted(v.text, html, rest);
    }
  }

  lemma ParseArray(body: string, items: Items, rest: string)
    requires ParseItems(body) == Some((items, rest))
    requires body != "" && NotSpace(body[0]) && body[0] != ']'
    ensures ParseValue("[" + body) == Some((Arr(items), rest))
  {
    var s := "[" + body;
    assert s[1..] == body && SkipSpace(s) == s && SkipSpace(body) == body;
  }

  lemma ParseObject(body: string, members: Members, rest: string)
    requires ParseMembers(body) == Some((members, rest))
    requires body != "" && body[0] == '"'
    ensures ParseValue("{" + body) == Some((Obj(members), rest))
  {
    var s := "{" + body;
    assert s[1..] == body && SkipSpace(s) == s && SkipSpace(body) == body;
  }

  lemma ParseEmpty(rest: string)
    ensures ParseValue("[]" + rest) == Some((Arr(NoItems), rest))
    ensures ParseValue("{}" + rest) == Some((Obj(NoMembers), rest))
  {
    var a, o := "[]" + rest, "{}" + rest;
    assert a[1..][1..] == rest && SkipSpace(a) == a && SkipSpace(a[1..]) == a[1..];
    assert o[1..][1..] == rest && SkipSpace(o) == o && SkipSpace(o[1..]) == o[1..];
  }

  /** No printed value starts with white space or a closing bracket. */
  lemma PrintStart(v: Json, html: bool)
    requires WellFormed(v)
    ensures Print(v, html) != "" && NotSpace(Print(v, html)[0])
    ensures Print(v, html)[0] != ']'
  {
    if v.Num? {
      assert v.lit[0] in v.lit;
    }
  }

  /** Parsing undoes printing for every JSON value, with either kind of escaping. */
  lemma {:induction false} ParsePrinted(v: Json, html: bool, rest: string)
    requires WellFormed(v) && Delimits(rest)
    ensures ParseValue(Print(v, html) + rest) == Some((v, rest))
    decreases v, 1
  {
    hide ParseValue;
    hide Quote;
    match v
    case Null => ParseSimple(v, html, rest);
    case Bool(_) => ParseSimple(v, html, rest);
    case Str(_) => ParseSimple(v, html, rest);
    case Num(lit) => ParseNumber(lit, rest);
    case Arr(items) => ParsePrintedArray(items, html, rest);
    case Obj(members) => ParsePrintedObject(members, html, rest);
  }

  lemma {:induction false} ParsePrintedArray(items: Items, html: bool, rest: string)
    requires WellFormedItems(items)
    ensures ParseValue(Print(Arr(items), html) + rest) == Some((Arr(items), rest))
    decreases items, 3
  {
    hide ParseValue;
    hide ParseItems;
    hide Quote;
    if items.NoItems? {
      ParseEmpty(rest);
      assert Print(Arr(items), html) + rest == "[]" + rest;
    } else {
      var body := PrintItems(items, html) + "]" + rest;
      ParsePrintedItems(items, html, rest);
      PrintStart(items.first, html);
      assert body[0] == Print(items.first, html)[0];
      ParseArray(body, items, rest);
      assert Print(Arr(items), html) + rest == "[" + body;
    }
  }

  lemma {:induction false} ParsePrintedObject(members: Members, html: bool, rest: string)
    requires WellFormedMembers(members)
    ensures ParseValue(Print(Obj(members), html) + rest) == Some((Obj(members), rest))
    decreases members, 3
  {
    hide ParseValue;
    hide ParseMembers;
    hide Escape;
    if members.NoMembers? {
      ParseEmpty(rest);
      assert Print(Obj(members), html) + rest == "{}" + rest;
    } else {
      var body := PrintMembers(members, html) + "}" + rest;
      ParsePrintedMembers(members, html, rest);
      assert body[0] == '"';
      ParseObject(body, members, rest);
      assert Print(Obj(members), html) + rest == "{" + body;
    }
  }

  lemma {:induction false} ParsePrintedItems(items: Items, html: bool, rest: string)
    requires items.Item? && WellFormedItems(items)
    ensures ParseItems(PrintItems(items, html) + "]" + rest) == Some((items, rest))
    decreases items, 2
  {
    hide Print;
    hide ParseValue;
    var tail := (if items.others.NoItems? then "" else "," + PrintItems(items.others, html)) + "]" + rest;
    assert PrintItems(items, html) + "]" + rest == Print(items.first, html) + tail;
    ParsePrinted(items.first, html, tail);
    assert SkipSpace(tail) == tail;
    if items.others.NoItems? {
      assert tail[1..] == rest;
    } else {
      ParsePrintedItems(items.others, html, rest);
      assert tail[1..] == PrintItems(items.others, html) + "]" + rest;
    }
  }

  /** The first member of a printed object. */
  lemma ParseKey(key: string, html: bool, value: Json, v: string, tail: string)
    requires ParseValue(v) == Some((value, tail))
    requires tail != "" && NotSpace(tail[0])
    ensures ParseMembers(Quote(key, html) + (":" + v)) ==
            if tail[0] == '}' then Some((Member(key, value, NoMembers), tail[1..]))
            else if tail[0] != ',' then None
            else match ParseMembers(tail[1..])
              case None => None
              case Some((others, end)) => Some((Member(key, value, others), end))
  {
    hide Escape;
    hide ParseValue;
    var colon := ":" + v;
    var s := Quote(key, html) + colon;
    ParseQuoted(key, html, colon);
    assert s[0] == '"' && SkipSpace(s) == s && SkipSpace(colon) == colon && colon[1..] == v;
    assert SkipSpace(tail) == tail;
  }

  lemma {:induction false} ParsePrintedMembers(members: Members, html: bool, rest: string)
    requires members.Member? && WellFormedMembers(members)
    ensures ParseMembers(PrintMembers(members, html) + "}" + rest) == Some((members, rest))
    decreases members, 2
  {
    hide Print;
    hide Quote;
    hide ParseMembers;
    hide ParseValue;
    var others := members.others;
    var tail := (if others.NoMembers? then "" else "," + PrintMembers(others, html)) + "}" + rest;
    var v := Print(members.value, html) + tail;
    assert PrintMembers(members, html) + "}" + rest == Quote(members.key, html) + (":" + v);
    ParsePrinted(members.value, html, tail);
    ParseKey(members.key, html, members.value, v, tail);
    if others.NoMembers? {
      assert tail[1..] == rest;
    } else {
      ParsePrintedMembers(others, html, rest);
      assert tail[1..] == PrintMembers(others, html) + "}" + rest;
    }
  }

  lemma ParseText(v: Json, html: bool)
    requires WellFormed(v)
    ensures Parse(Print(v, html)) == Some(v)
  {
    ParsePrinted(v, html, "");
    assert Print(v, html) + "" == Print(v, html);
  }

  lemma {:induction false} SkipAll(space: string, rest: string)
    requires forall c :: c in space ==> c in " \t\r\n"
    ensures SkipSpace(space + rest) == SkipSpace(rest)
  {
    if space == "" {
      assert space + rest == rest;
    } else {
      assert space[0] in space;
      SkipAll(space[1..], rest);
      assert (space + rest)[1..] == space[1..] + rest;
    }
  }

  lemma {:induction false} SkipsAll(rest: string)
    ensures SkipSpace(rest) == "" <==> forall c :: c in rest ==> c in " \t\r\n"
  {
    if rest != "" {
      SkipsAll(rest[1..]);
      assert rest == [rest[0]] + rest[1..];
      assert forall c :: c in rest[1..] ==> c in rest;
      if rest[0] in " \t\r\n" {
        assert SkipSpace(rest) == SkipSpace(rest[1..]);
      } else {
        assert rest[0] in rest;
      }
    }
  }

  lemma SkipTwice(s: string)
    ensures ParseValue(SkipSpace(s)) == ParseValue(s)
  {
    SkipIdempotent(s);
  }

  lemma {:induction false} SkipIdempotent(s: string)
    ensures SkipSpace(SkipSpace(s)) == SkipSpace(s)
  {
    if s != "" {
      SkipIdempotent(s[1..]);
    }
  }

  /** A text is one value with white space around it; anything else behind the value spoils it. */
  lemma ParseAround(space: string, v: Json, html: bool, rest: string)
    requires WellFormed(v) && Delimits(rest)
    requires forall c :: c in space ==> c in " \t\r\n"
    ensures Parse(space + Print(v, html) + rest) ==
            if forall c :: c in rest ==> c in " \t\r\n" then Some(v) else None
  {
    hide ParseValue;
    hide Print;
    hide WellFormed;
    hide Delimits;
    var t := Print(v, html) + rest;
    assert space + Print(v, html) + rest == space + t;
    SkipAll(space, t);
    SkipTwice(space + t);
    SkipTwice(t);
    ParsePrinted(v, html, rest);
    SkipsAll(rest);
  }

  /** A safe character only makes the pending run longer. */
  lemma SafeChar(s: string, start: nat, i: nat, html: bool)
    requires start <= i < |s| && !NeedsEscape(s[i], html)
    ensures EscapeChar(s[i], html) == [s[i]]
    ensures s[start..i + 1] == s[start..i] + [s[i]]
  {
  }

  /** encoding/json's appendString: runs of safe characters are copied in one piece. */
  method QuoteLoop(s: string, html: bool) returns (dst: string)
    ensures dst == Quote(s, html)
  {
    hide EscapeChar;
    dst := "\"";
    var start := 0;
    assert s[0..] == s;
    for i := 0 to |s|
      invariant start <= i
      invariant dst + s[start..i] + Escape(s[i..], html) == "\"" + Escape(s, html)
    {
      assert s[i..][1..] == s[i + 1..];
      if NeedsEscape(s[i], html) {
        dst := dst + s[start..i] + EscapeChar(s[i], html);
        start := i + 1;
      } else {
        SafeChar(s, start, i, html);
      }
    }
    dst := dst + s[start..] + "\"";
  }

  /** The encoder, which appends a value to its buffer. */
  method PrintTo(buf: string, v: Json, html: bool) returns (r: string)
    ensures r == buf + Print(v, html)
    decreases v, 1
  {
    match v
    case Arr(items) =>
      r := ItemsTo(buf + "[", items, html);
      r := r + "]";
    case Obj(members) =>
      r := MembersTo(buf + "{", members, html);
      r := r + "}";
    case Str(text) =>
      var q := QuoteLoop(text, html);
      r := buf + q;
    case _ =>
      r := buf + Print(v, html);
  }

  method ItemsTo(buf: string, items: Items, html: bool) returns (r: string)
    ensures r == buf + PrintItems(items, html)
    decreases items, 2
  {
    r := buf;
    match items
    case NoItems =>
    case Item(first, others) =>
      r := PrintTo(r, first, html);
      if others.Item? {
        r := ItemsTo(r + ",", others, html);
      }
  }

  method MembersTo(buf: string, members: Members, html: bool) returns (r: string)
    ensures r == buf + PrintMembers(members, html)
    decreases members, 2
  {
    hide Quote;
    r := buf;
    match members
    case NoMembers =>
    case Member(key, value, others) =>
      var q := QuoteLoop(key, html);
      r := PrintTo(r + q + ":", value, html);
      if others.Member? {
        r := MembersTo(r + ",", others, html);
      }
  }
}
