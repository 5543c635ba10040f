/** The swish://payment link (internal/swish/swish.go). */
module Swish {
  import opened Wrappers
  import opened Text
  import opened Json
  import Decimal
  import Percent
  import Unicode

  datatype Payment = Payment(
    payee: string,
    amount: int32,
    message: string,
    payeeEditable: bool,
    amountEditable: bool,
    messageEditable: bool)

  /** {"value": ..., "editable": ...} */
  function Field(value: Json, editable: bool): Json {
    Obj(Member("value", value, Member("editable", Bool(editable), NoMembers)))
  }

  function UriData(p: Payment): Json {
    Obj(Member("version", Num("1"),
        Member("payee", Field(Str(p.payee), p.payeeEditable),
        Member("amount", Field(Num(Decimal.FormatInt(p.amount)), p.amountEditable),
        Member("message", Field(Str(p.message), p.messageEditable), NoMembers)))))
  }

  const PREFIX := "swish://payment?data="

  /** The bytes of the payload: JSON in which <, > and & stay as they are. */
  function Payload(p: Payment): seq<byte> {
    Unicode.Encode(Print(UriData(p), false))
  }

  function URI(p: Payment): string {
    PREFIX + Percent.ReplaceAll(Percent.QueryEscape(Payload(p)), '+', "%20")
  }

  // ---- Reading a link back ----

  function Get(v: Json, key: string): Option<Json> {
    if v.Obj? then GetMember(v.members, key) else None
  }

  function GetMember(m: Members, key: string): Option<Json> {
    if m.NoMembers? then None
    else if m.key == key then Some(m.value)
    else GetMember(m.others, key)
  }

  function ReadField(v: Json, name: string): Option<(Json, bool)> {
    var field :- Get(v, name);
    var value :- Get(field, "value");
    var editable :- Get(field, "editable");
    if editable.Bool? then Some((value, editable.flag)) else None
  }

  /** Other versions are not read. */
  function ReadPayment(v: Json): Option<Payment> {
    var version :- Get(v, "version");
    if version != Num("1") then None else
    var (payee, payeeEditable) :- ReadField(v, "payee");
    var (amount, amountEditable) :- ReadField(v, "amount");
    var (message, messageEditable) :- ReadField(v, "message");
    if !payee.Str? || !amount.Num? || !message.Str? then None else
    var n :- Decimal.ParseInt(amount.lit, 32);
    Some(Payment(payee.text, n, message.text, payeeEditable, amountEditable, messageEditable))
  }

  function Before(s: string, at: char): string {
    match Cut(s, at) case None => s case Some((before, _)) => before
  }

  /** The value of the first query parameter, which the fragment or the next parameter ends. */
  function Data(uri: string): Option<string> {
    if |uri| < 21 || uri[..21] != "swish://payment?data=" then None
    else Some(Before(Before(uri[21..], '#'), '&'))
  }

  /** What an app makes of a link: find the data, unescape, read UTF-8, parse JSON, pick the fields. */
  function ReadURI(uri: string, form: bool): Option<Payment> {
    var data :- Data(uri);
    var bytes :- Percent.Unescape(data, form);
    var text :- Unicode.Decode(bytes);
    var v :- Parse(text);
    ReadPayment(v)
  }

  function AmountLit(p: Payment): string { Decimal.FormatInt(p.amount) }

  lemma UriDataWellFormed(p: Payment)
    ensures WellFormed(UriData(p))
  {
    PrintedIntIsNumber(p.amount);
    assert WellFormed(Num("1"));
    hide ValidNumber;
    hide WellFormedMembers;
    NoMembersWellFormed();
    FieldWellFormed(Str(p.payee), p.payeeEditable);
    FieldWellFormed(Num(AmountLit(p)), p.amountEditable);
    FieldWellFormed(Str(p.message), p.messageEditable);
    hide Field;
    hide WellFormed;
    var message := Member("message", Field(Str(p.message), p.messageEditable), NoMembers);
    var amount := Member("amount", Field(Num(AmountLit(p)), p.amountEditable), message);
    var payee := Member("payee", Field(Str(p.payee), p.payeeEditable), amount);
    MemberWellFormed("message", message.value, NoMembers);
    MemberWellFormed("amount", amount.value, message);
    MemberWellFormed("payee", payee.value, amount);
    MemberWellFormed("version", Num("1"), payee);
  }

  lemma FieldWellFormed(value: Json, editable: bool)
    requires WellFormed(value)
    ensures WellFormed(Field(value, editable))
  {
    var last := Member("editable", Bool(editable), NoMembers);
    NoMembersWellFormed();
    MemberWellFormed("editable", Bool(editable), NoMembers);
    MemberWellFormed("value", value, last);
  }

  lemma UriDataFields(p: Payment)
    ensures Get(UriData(p), "version") == Some(Num("1"))
    ensures Get(UriData(p), "payee") == Some(Field(Str(p.payee), p.payeeEditable))
    ensures Get(UriData(p), "amount") == Some(Field(Num(AmountLit(p)), p.amountEditable))
    ensures Get(UriData(p), "message") == Some(Field(Str(p.message), p.messageEditable))
  {
    hide Field;
    var message := Member("message", Field(Str(p.message), p.messageEditable), NoMembers);
    var amount := Member("amount", Field(Num(AmountLit(p)), p.amountEditable), message);
    var payee := Member("payee", Field(Str(p.payee), p.payeeEditable), amount);
    var all := Member("version", Num("1"), payee);
    assert UriData(p) == Obj(all);
    assert "version"[0] != "message"[0] && |"version"| != |"payee"| && |"version"| != |"amount"|;
    assert GetMember(payee, "message") == GetMember(amount, "message") == GetMember(message, "message");
    assert GetMember(payee, "amount") == GetMember(amount, "amount");
    assert GetMember(all, "payee") == GetMember(payee, "payee");
    assert GetMember(all, "amount") == GetMember(payee, "amount");
    assert GetMember(all, "message") == GetMember(payee, "message");
  }

  lemma ReadUriData(p: Payment)
    ensures ReadPayment(UriData(p)) == Some(p)
  {
    Decimal.ParsePrintedInt(p.amount, 32);
    UriDataFields(p);
    hide UriData;
    ReadFieldOf(UriData(p), "payee", Str(p.payee), p.payeeEditable);
    ReadFieldOf(UriData(p), "amount", Num(AmountLit(p)), p.amountEditable);
    ReadFieldOf(UriData(p), "message", Str(p.message), p.messageEditable);
  }

  lemma ReadFieldOf(v: Json, name: string, value: Json, editable: bool)
    requires Get(v, name) == Some(Field(value, editable))
    ensures ReadField(v, name) == Some((value, editable))
  {
    var last := Member("editable", Bool(editable), NoMembers);
    assert GetMember(last, "editable") == Some(Bool(editable));
    assert |"value"| != |"editable"|;
    assert GetMember(Member("value", value, last), "editable") == Some(Bool(editable));
  }

  lemma UriShape(p: Payment)
    ensures URI(p) == PREFIX + Percent.PercentEncode(Payload(p))
    ensures URI(p)[..|PREFIX|] == PREFIX && URI(p)[|PREFIX|..] == Percent.PercentEncode(Payload(p))
  {
    Percent.RewriteIsPercentEncoding(Payload(p));
  }

  lemma DataOfURI(p: Payment)
    ensures Data(URI(p)) == Some(Percent.PercentEncode(Payload(p)))
  {
    hide URI;
    hide Percent.PercentEncode;
    hide Payload;
    UriShape(p);
    var data := Percent.PercentEncode(Payload(p));
    Percent.PercentEncodeAlphabet(Payload(p));
    assert PREFIX == "swish://payment?data=" && |PREFIX| == 21;
    assert '#' !in data && '&' !in data;
    CutNone(data, '#');
    CutNone(data, '&');
  }

  /** Plain and form decoders alike get every payment back from its link, field by field. */
  lemma UriRoundTrip(p: Payment, form: bool)
    ensures ReadURI(URI(p), form) == Some(p)
  {
    hide URI;
    hide UriData;
    hide ReadPayment;
    hide Data;
    DataOfURI(p);
    Percent.UnescapePercentEncoded(Payload(p), form);
    Unicode.DecodeEncoded(Print(UriData(p), false));
    ReadUriData(p);
    UriDataWellFormed(p);
    ParseText(UriData(p), false);
  }

  /** Two different payments never share a link. */
  lemma UriInjective(p: Payment, q: Payment)
    ensures URI(p) == URI(q) <==> p == q
  {
    UriRoundTrip(p, false);
    UriRoundTrip(q, false);
  }

  /** A link is the fixed prefix and behind it only unreserved characters and %HH triplets, so nothing ends
      the query parameter early or needs escaping in a page or header. */
  lemma UriAlphabet(p: Payment)
    ensures |URI(p)| >= 21 && URI(p)[..21] == "swish://payment?data="
    ensures Percent.IsPercentEncoded(URI(p)[21..])
    ensures forall c :: c in URI(p)[21..] ==>
              'A' <= c <= 'Z' || 'a' <= c <= 'z' || '0' <= c <= '9' || c in "-._~%"
    ensures forall c :: c in "&#+\"'<> " ==> c !in URI(p)[21..]
  {
    hide URI;
    hide Percent.PercentEncode;
    hide Percent.IsPercentEncoded;
    UriShape(p);
    assert PREFIX == "swish://payment?data=" && |PREFIX| == 21;
    Percent.PercentEncodeAlphabet(Payload(p));
  }

  /** marshal: the encoder ends its output with a newline, which is trimmed off again. */
  method Marshal(v: Json) returns (text: string)
    ensures text == Print(v, false)
  {
    var buf := PrintTo("", v, false);
    buf := buf + "\n";
    if buf[|buf| - 1] == '\n' {
      buf := buf[..|buf| - 1];
    }
    text := buf;
  }

  /** Payment.URI on the loops of the libraries it calls. */
  method BuildURI(p: Payment) returns (uri: string)
    ensures uri == URI(p)
  {
    var text := Marshal(UriData(p));
    var bytes := Unicode.EncodeLoop(text);
    var query := Percent.QueryEscapeLoop(bytes);
    var escaped := Percent.ReplaceAllLoop(query, '+', "%20");
    uri := PREFIX + escaped;
  }
}
