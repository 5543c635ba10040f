/** The body of POST /api/create and its validation (internal/web/create.go). */
module CreateRequest {
  import opened Wrappers
  import opened Text
  import opened Links
  import Decimal
  import Json
  import Unicode

  // ---- Integers that may be sent as strings ----

  datatype IntField = IntField(present: bool, valid: bool, value: int64)

  const MISSING := IntField(false, false, 0)
  const NO_VALUE := IntField(true, false, 0)

  function FromText(s: string): Option<IntField> {
    var v :- Decimal.ParseInt(TrimSpace(s), 64);
    Some(IntField(true, true, v))
  }

  /** What a field holds after its JSON text was read; none is an error. */
  function ReadInt(b: string): Option<IntField> {
    if b == "null" then Some(NO_VALUE)
    else if b != "" && b[0] == '"' then
      match Json.Parse(b)
      case Some(Str(s)) => if s == "" then Some(NO_VALUE) else FromText(s)
      case _ => None
    else FromText(b)
  }

  class NullableInt {
    var present: bool
    var valid: bool
    var value: int64

    constructor ()
      ensures View() == MISSING
    {
      present, valid, value := false, false, 0;
    }

    function View(): IntField
      reads this
    {
      IntField(present, valid, value)
    }

    /** Sets the field from its JSON text. Null and "" leave a value from before as it is. */
    method UnmarshalJSON(b: string) returns (ok: bool)
      modifies this
      ensures ok <==> ReadInt(b).Some?
      ensures View() == if ok && ReadInt(b).value.valid then ReadInt(b).value else old(View()).(present := true)
    {
      present := true;
      if b == "null" {
        return true;
      }
      var s := b;
      if |b| > 0 && b[0] == '"' {
        match Json.Parse(b) {
          case Some(Str(text)) => s := text;
          case _ => return false;
        }
        if s == "" {
          return true;
        }
      }
      var v := Decimal.ParseIntLoop(TrimSpace(s), 64);
      if v.None? {
        return false;
      }
      valid, value := true, v.value;
      return true;
    }
  }

  lemma DecimalText(s: string)
    requires Decimal.DecimalValue(s).Some?
    ensures s != "" && Trimmed(s) && s[0] != '"' && s != "null"
  {
    var signed := s[0] == '+' || s[0] == '-';
    var digits := if signed then s[1..] else s;
    assert Decimal.IsDigit(digits[0]) && Decimal.IsDigit(digits[|digits| - 1]);
    assert s[|s| - 1] == digits[|digits| - 1];
  }

  lemma ReadQuoted(s: string, html: bool)
    ensures ReadInt(Json.Quote(s, html)) == if s == "" then Some(NO_VALUE) else FromText(s)
  {
    var v := Json.Str(s);
    Json.ParseText(v, html);
    assert Json.Print(v, html) == Json.Quote(s, html);
    assert Json.Quote(s, html)[0] == '"';
    assert Json.Quote(s, html) != "null" by { assert "null"[0] == 'n'; }
    hide Json.Parse;
    hide Json.Quote;
  }

  /** A decimal integer means the same with and without quotes, and is accepted exactly if it is an int64. */
  lemma BareOrQuoted(s: string, html: bool)
    requires Decimal.DecimalValue(s).Some?
    ensures var n := Decimal.DecimalValue(s).value;
            ReadInt(s) == ReadInt(Json.Quote(s, html))
            == if Decimal.FitsIn(n, 64) then Some(IntField(true, true, n)) else None
  {
    DecimalText(s);
    TrimSpaceFixes(s);
    ReadQuoted(s, html);
    hide Json.Quote;
  }

  /** Every int64 comes back from its printed form; null and "" are present without a value. */
  lemma PrintedIntComesBack(n: int64, html: bool)
    ensures ReadInt(Decimal.FormatInt(n)) == Some(IntField(true, true, n))
    ensures ReadInt(Json.Quote(Decimal.FormatInt(n), html)) == Some(IntField(true, true, n))
    ensures ReadInt("null") == ReadInt("\"\"") == Some(IntField(true, false, 0))
  {
    Decimal.FormatIntDenotes(n);
    BareOrQuoted(Decimal.FormatInt(n), html);
    ReadQuoted("", false);
    assert Json.Quote("", false) == "\"\"";
    hide Json.Quote;
  }

  // ---- Validation ----

  datatype CreateRequest = CreateRequest(
    phone: Option<string>,
    amount: IntField,
    message: Option<string>,
    expireAfterSeconds: IntField,
    payeeEditable: Option<bool>,
    amountEditable: Option<bool>,
    messageEditable: Option<bool>)

  datatype Invalid =
    | Missing | TooSmall | TooLarge | TooLong(units: nat) | BadPhone | BadExpiry | NeedMessage

  const DEFAULT_EXPIRY := 2 * 24 * 3600 * 1_000_000_000
  const MAX_EXPIRY := 3_153_600_000 * 1_000_000_000
  const LONG_EXPIRY := 15_768_000 * 1_000_000_000
  const MAX_AMOUNT := 150_000
  const MAX_MESSAGE_LENGTH := 50

  function TrimDigitsLeft(s: string): string {
    if s != "" && Decimal.IsDigit(s[0]) then TrimDigitsLeft(s[1..]) else s
  }

  function TrimDigitsRight(s: string): string {
    if s != "" && Decimal.IsDigit(s[|s| - 1]) then TrimDigitsRight(s[..|s| - 1]) else s
  }

  /** len counts bytes; strings.Trim takes digits off both ends. */
  predicate IsSwishNumber(phone: string) {
    && |Unicode.Encode(phone)| == 10
    && |phone| >= 3 && phone[..3] == "123"
    && TrimDigitsRight(TrimDigitsLeft(phone)) == ""
  }

  lemma {:induction false} TrimmedAway(s: string)
    ensures TrimDigitsLeft(s) == "" <==> Decimal.AllDigits(s)
    ensures TrimDigitsLeft(s) != "" ==> !Decimal.IsDigit(TrimDigitsLeft(s)[0])
  {
    if s != "" && Decimal.IsDigit(s[0]) {
      TrimmedAway(s[1..]);
      assert s == [s[0]] + s[1..];
    }
  }

  lemma {:induction false} KeepsNonDigit(s: string)
    requires s != "" && !Decimal.IsDigit(s[0])
    ensures TrimDigitsRight(s) != ""
    decreases |s|
  {
    if Decimal.IsDigit(s[|s| - 1]) {
      KeepsNonDigit(s[..|s| - 1]);
    }
  }

  lemma {:induction false} DigitsAreBytes(s: string)
    requires Decimal.AllDigits(s)
    ensures |Unicode.Encode(s)| == |s|
  {
    if s != "" {
      DigitsAreBytes(s[1..]);
    }
  }

  /** Trimming digits off the ends leaves nothing exactly when there was nothing else: a Swish number
      is ten digits that start with 123. */
  lemma SwishNumber(phone: string)
    ensures IsSwishNumber(phone) <==> |phone| == 10 && Decimal.AllDigits(phone) && phone[..3] == "123"
  {
    hide Unicode.Encode;
    var l := TrimDigitsLeft(phone);
    TrimmedAway(phone);
    if Decimal.AllDigits(phone) {
      DigitsAreBytes(phone);
    } else {
      KeepsNonDigit(l);
    }
  }

  /** How the phone library formats a number: none if it is not a Swedish mobile number. */
  type PhoneFormat = f: string -> Option<string> | forall p :: f(p).Some? ==> f(p).value != "" && Trimmed(f(p).value)
    ghost witness (p: string) => None

  function FormatPayee(phone: string, format: PhoneFormat): Option<string> {
    if IsSwishNumber(phone) then Some(phone) else format(phone)
  }

  function OrDefault(b: Option<bool>, def: bool): bool {
    match b case None => def case Some(v) => v
  }

  function ExpiresOn(req: CreateRequest, now: Time): Result<Option<Time>, Invalid> {
    var e := req.expireAfterSeconds;
    if !e.present then Ok(Some(now + DEFAULT_EXPIRY))
    else if !e.valid || e.value == 0 then Ok(None)
    else if e.value < 0 || e.value > MAX_EXPIRY / 1_000_000_000 then Err(BadExpiry)
    else Ok(Some(now + e.value * 1_000_000_000))
  }

  function Description(req: CreateRequest): Option<string> {
    if req.message.Some? && !Blank(req.message.value) then req.message else None
  }

  function Validate(req: CreateRequest, format: PhoneFormat, now: Time): Result<NewLink, Invalid> {
    if !req.amount.valid || req.phone.None? || Blank(req.phone.value) then Err(Missing)
    else if req.amount.value < 1 then Err(TooSmall)
    else if req.amount.value > MAX_AMOUNT then Err(TooLarge)
    else if req.message.Some? && |Unicode.Utf16(req.message.value)| > MAX_MESSAGE_LENGTH
      then Err(TooLong(|Unicode.Utf16(req.message.value)|))
    else
      var description := Description(req);
      match FormatPayee(req.phone.value, format)
      case None => Err(BadPhone)
      case Some(payee) =>
        var expiresOn :- ExpiresOn(req, now);
        if description.None? && (expiresOn.None? || expiresOn.value - now >= LONG_EXPIRY) then Err(NeedMessage)
        else Ok(NewLink(payee, req.amount.value, description, expiresOn,
                        OrDefault(req.payeeEditable, false), OrDefault(req.amountEditable, false),
                        OrDefault(req.messageEditable, true)))
  }

  /** How long the link is to live, in nanoseconds; none is forever. */
  function Lifetime(e: IntField): Option<int> {
    if !e.present then Some(172_800_000_000_000)
    else if !e.valid || e.value == 0 then None
    else Some(e.value * 1_000_000_000)
  }

  /** Who is paid: the phone number itself if it is ten digits that start with 123, or else what the phone
      library makes of it. */
  predicate Pays(phone: string, format: PhoneFormat, payee: string) {
    if |phone| == 10 && phone[..3] == "123" && forall c :: c in phone ==> '0' <= c <= '9'
    then payee == phone
    else format(phone) == Some(payee)
  }

  lemma PayeeIs(phone: string, format: PhoneFormat, payee: string)
    ensures FormatPayee(phone, format) == Some(payee) <==> Pays(phone, format, payee)
  {
    SwishNumber(phone);
    hide IsSwishNumber;
    if Decimal.AllDigits(phone) {
      forall c | c in phone ensures '0' <= c <= '9' {
        var i :| 0 <= i < |phone| && phone[i] == c;
        assert Decimal.IsDigit(phone[i]);
      }
    }
    if forall c :: c in phone ==> '0' <= c <= '9' {
      assert forall i :: 0 <= i < |phone| ==> phone[i] in phone;
    }
  }

  /** The rules of the API, in no order: who is to be paid, how much, the length of the message, the
      lifetime, and that long-lived links need a message. */
  ghost predicate Acceptable(req: CreateRequest, format: PhoneFormat) {
    var life := Lifetime(req.expireAfterSeconds);
    && req.amount.valid && 1 <= req.amount.value <= 150_000
    && req.phone.Some? && !Blank(req.phone.value) && (exists payee :: Pays(req.phone.value, format, payee))
    && (req.message.Some? ==> |Unicode.Utf16(req.message.value)| <= 50)
    && (life.Some? ==> 0 < life.value <= 100 * 365 * 86_400_000_000_000)
    && ((req.message.Some? && !Blank(req.message.value)) || (life.Some? && life.value < 15_768_000_000_000_000))
  }

  /** Validation lets exactly the acceptable requests through. */
  lemma ValidateAccepts(req: CreateRequest, format: PhoneFormat, now: Time)
    ensures Validate(req, format, now).Ok? <==> Acceptable(req, format)
  {
    hide Pays;
    var phone := if req.phone.Some? then req.phone.value else "";
    forall payee ensures FormatPayee(phone, format) == Some(payee) <==> Pays(phone, format, payee) {
      PayeeIs(phone, format, payee);
    }
    if FormatPayee(phone, format).Some? {
      assert Pays(phone, format, FormatPayee(phone, format).value);
    }
    hide Unicode.Utf16;
    hide IsSwishNumber;
    hide TrimSpace;
  }

  /** A link that passed: an amount that fits the column, a message that says something in at most 50
      UTF-16 units, and an expiry after now and no later than the longest lifetime. The nanoseconds of
      the lifetime fit a time.Duration. */
  lemma ValidatedLink(req: CreateRequest, format: PhoneFormat, now: Time)
    requires Validate(req, format, now).Ok?
    ensures var n := Validate(req, format, now).value;
            && 1 <= n.amount <= 150_000 && n.amount == req.amount.value
            && n.payee != "" && Trimmed(n.payee) && Pays(req.phone.value, format, n.payee)
            && (n.description.Some? ==> n.description == req.message && !Blank(n.description.value)
                                        && |Unicode.Utf16(n.description.value)| <= 50)
            && (n.description.None? ==> req.message.None? || Blank(req.message.value))
            && (n.expiresOn.Some? ==> now < n.expiresOn.value <= now + 100 * 365 * 86_400_000_000_000)
            && (n.description.None? ==> n.expiresOn.Some? && n.expiresOn.value < now + 15_768_000_000_000_000)
    ensures var life := Lifetime(req.expireAfterSeconds);
            && (life.Some? ==> 0 < life.value < 0x8000_0000_0000_0000)
            && Validate(req, format, now).value.expiresOn == if life.Some? then Some(now + life.value) else None
  {
    hide Unicode.Utf16;
    hide TrimSpace;
    hide Pays;
    var phone := req.phone.value;
    PayeeIs(phone, format, Validate(req, format, now).value.payee);
    SwishNumber(phone);
    hide IsSwishNumber;
  }

  /** The first rule that a refused request breaks is the one it is told. */
  lemma ValidateRefuses(req: CreateRequest, format: PhoneFormat, now: Time)
    requires Validate(req, format, now).Err?
    ensures var e, secs := Validate(req, format, now).error, req.expireAfterSeconds;
            var units := if req.message.Some? then |Unicode.Utf16(req.message.value)| else 0;
            if !req.amount.valid || req.phone.None? || Blank(req.phone.value) then e == Missing
            else if req.amount.value < 1 then e == TooSmall
            else if req.amount.value > 150_000 then e == TooLarge
            else if units > 50 then e == TooLong(units)
            else if forall payee :: !Pays(req.phone.value, format, payee) then e == BadPhone
            else if secs.present && secs.valid && (secs.value < 0 || secs.value > 3_153_600_000) then e == BadExpiry
            else
              && e == NeedMessage && (req.message.None? || Blank(req.message.value))
              && secs.present && (!secs.valid || secs.value == 0 || secs.value >= 15_768_000)
  {
    hide Unicode.Utf16;
    hide TrimSpace;
    hide Pays;
    hide IsSwishNumber;
    var phone := if req.phone.Some? then req.phone.value else "";
    forall payee ensures FormatPayee(phone, format) == Some(payee) <==> Pays(phone, format, payee) {
      PayeeIs(phone, format, payee);
    }
    if FormatPayee(phone, format).Some? {
      assert Pays(phone, format, FormatPayee(phone, format).value);
    }
  }

  /** Without a word on it only the message may be changed by the payer. */
  lemma EditableDefaults(req: CreateRequest, format: PhoneFormat, now: Time)
    requires Validate(req, format, now).Ok?
    ensures var n := Validate(req, format, now).value;
            && (n.payeeEditable <==> req.payeeEditable == Some(true))
            && (n.amountEditable <==> req.amountEditable == Some(true))
            && (n.messageEditable <==> req.messageEditable != Some(false))
  {
    hide Unicode.Utf16;
    hide TrimSpace;
    hide IsSwishNumber;
  }
}
