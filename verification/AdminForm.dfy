/** The edit form of a link: printing, parsing, and the log of what an edit changed (internal/web/admin.go). */
module AdminForm {
  import opened Wrappers
  import opened Text
  import opened Links
  import opened LinkIds
  import Decimal
  import Rfc3339

  /** The form's fields as text. Those that are only shown are left out. */
  datatype AdminLink = AdminLink(
    originalId: string,
    id: string,
    payee: string,
    amount: string,
    description: string,
    expiresOn: string)

  /** What a browser posts. Pages from before the expiry field existed do not send one. */
  datatype Posted = Posted(
    originalId: string,
    id: string,
    payee: string,
    amount: string,
    description: string,
    expiresOn: Option<string>)

  datatype FormError =
    | WrongOriginal | BlankId | BadId | ReservedId | BlankPayee | BadAmount | BadExpiry | PastExpiry

  function Deref(s: Option<string>): string {
    match s case None => "" case Some(v) => v
  }

  function AdminLinkOf(l: Link): AdminLink {
    AdminLink(l.id, l.id, l.payee, Decimal.FormatInt(l.amount), Deref(l.description),
      if l.expiresOn.Some? then Rfc3339.Format(l.expiresOn.value, false) else "")
  }

  /** The form of a link with the posted values written over it. */
  function Fill(l: Link, p: Posted): AdminLink {
    AdminLinkOf(l).(
      id := TrimSpace(p.id),
      payee := TrimSpace(p.payee),
      amount := TrimSpace(p.amount),
      description := p.description,
      expiresOn := if p.expiresOn.Some? then TrimSpace(p.expiresOn.value) else AdminLinkOf(l).expiresOn)
  }

  function ParseExpiry(text: string, l: Link, now: Time): Result<Option<Time>, FormError> {
    if text == "" then Ok(None) else
    match Rfc3339.Parse(text)
    case None => Err(BadExpiry)
    case Some(t) =>
      if l.expiresOn.Some? && Rfc3339.Truncate(l.expiresOn.value) == t then Ok(l.expiresOn)
      else if t <= now then Err(PastExpiry)
      else Ok(Some(t))
  }

  function Params(form: AdminLink, l: Link, now: Time): Result<UpdateParams, FormError> {
    if form.id == "" then Err(BlankId)
    else if !ValidID(form.id) then Err(BadId)
    else if ToLower(form.id) in RESERVED then Err(ReservedId)
    else if form.payee == "" then Err(BlankPayee)
    else
      match Decimal.ParseInt(form.amount, 32)
      case None => Err(BadAmount)
      case Some(amount) =>
        if amount < 0 then Err(BadAmount) else
        var expiresOn :- ParseExpiry(form.expiresOn, l, now);
        Ok(UpdateParams(form.originalId, form.id, form.payee, amount,
                        if Blank(form.description) then None else Some(form.description), expiresOn))
  }

  /** adminUpdate up to the point where it writes. */
  function Submit(l: Link, p: Posted, now: Time): Result<UpdateParams, FormError> {
    if p.originalId != "" && p.originalId != l.id then Err(WrongOriginal)
    else Params(Fill(l, p), l, now)
  }

  // ---- An untouched form ----

  /** What a browser posts when nothing was typed, with or without the expiry field. */
  function Untouched(l: Link, withExpiry: bool): Posted {
    var f := AdminLinkOf(l);
    Posted(f.originalId, f.id, f.payee, f.amount, f.description, if withExpiry then Some(f.expiresOn) else None)
  }

  /** The parameters that write a link back as it is. */
  function Same(l: Link): UpdateParams {
    UpdateParams(l.id, l.id, l.payee, l.amount, l.description, l.expiresOn)
  }

  /** Times that RFC 3339 can spell. */
  predicate Printable(l: Link) {
    l.expiresOn.Some? ==> 0 <= l.expiresOn.value < Rfc3339.END
  }

  lemma ExpiryComesBack(l: Link, now: Time)
    requires Printable(l)
    ensures var text := AdminLinkOf(l).expiresOn;
            TrimSpace(text) == text && ParseExpiry(text, l, now) == Ok(l.expiresOn)
  {
    if l.expiresOn.Some? {
      Rfc3339.RoundTrip(l.expiresOn.value, false);
      Rfc3339.FormatTrimmed(l.expiresOn.value, false);
      TrimSpaceFixes(AdminLinkOf(l).expiresOn);
    }
    hide Rfc3339.Format;
    hide Rfc3339.Parse;
  }

  lemma ValidIdTrimmed(id: string)
    requires ValidID(id)
    ensures Trimmed(id)
  {
    assert id[0] in id && id[|id| - 1] in id;
  }

  /** The fields of an untouched form, once it has come back. */
  lemma UntouchedFields(l: Link, withExpiry: bool, now: Time)
    requires Printable(l)
    ensures var form := Fill(l, Untouched(l, withExpiry));
            && (form.id == l.id <==> Trimmed(l.id)) && Trimmed(form.id)
            && (form.payee == l.payee <==> Trimmed(l.payee))
            && form.originalId == l.id && form.description == Deref(l.description)
            && Decimal.ParseInt(form.amount, 32) == Some(l.amount)
            && ParseExpiry(form.expiresOn, l, now) == Ok(l.expiresOn)
  {
    hide Decimal.FormatInt;
    hide Decimal.ParseInt;
    hide TrimSpace;
    hide Trimmed;
    hide ParseExpiry;
    hide Rfc3339.Format;
    ExpiryComesBack(l, now);
    Decimal.ParsePrintedInt(l.amount, 32);
    Decimal.FormatIntIsTrimmed(l.amount);
    TrimSpaceFixes(Decimal.FormatInt(l.amount));
    TrimSpaceFixes(l.payee);
    TrimSpaceFixes(l.id);
  }

  /** Submitting the form untouched asks for the link as it is, fractions of a second included and
      whatever the time, exactly for links that keep the form's rules. */
  lemma UntouchedEdit(l: Link, withExpiry: bool, now: Time)
    requires Printable(l)
    ensures Submit(l, Untouched(l, withExpiry), now) == Ok(Same(l)) <==>
            && AllowedID(l.id)
            && l.payee != "" && Trimmed(l.payee)
            && l.amount >= 0
            && (l.description.Some? ==> !Blank(l.description.value))
  {
    hide ParseExpiry;
    hide Decimal.ParseInt;
    hide TrimSpace;
    hide Trimmed;
    hide ToLower;
    hide ValidID;
    hide Fill;
    hide Printable;
    var form := Fill(l, Untouched(l, withExpiry));
    UntouchedFields(l, withExpiry, now);
    EmptyIsBlank();
    if ValidID(l.id) {
      ValidIdTrimmed(l.id);
    }
    if ValidID(form.id) {
      ValidIdNotEmpty(form.id);
    }
    assert Submit(l, Untouched(l, withExpiry), now) == Params(form, l, now);
    hide Blank;
  }

  lemma EmptyIsBlank()
    ensures Blank("")
  {
  }

  lemma ValidIdNotEmpty(id: string)
    requires ValidID(id)
    ensures id != ""
  {
  }

  /** So an accepted untouched form leaves the whole table as it was. */
  lemma SameChangesNothing(t: Table, id: string)
    requires Links.Valid(t) && id in t.rows
    ensures Update(t, Same(t.rows[id].link)) == (t, Ok(1))
  {
    var row := t.rows[id];
    assert Edited(row.link, Same(row.link)) == row.link;
    assert (t.rows - {id})[id := row] == t.rows;
  }

  // ---- A form of a page that has gone stale ----

  /** Both show the same text: no expiry, or the same whole second. */
  predicate SameSecond(a: Option<Time>, b: Option<Time>) {
    || (a.None? && b.None?)
    || (a.Some? && b.Some? && Rfc3339.Truncate(a.value) == Rfc3339.Truncate(b.value))
  }

  /** What a description is stored as. */
  function Kept(description: Option<string>): Option<string> {
    if Blank(Deref(description)) then None else Some(Deref(description))
  }

  /** What the form of a page that shows `seen` asks for when the link under its id is `l`. */
  function Stale(seen: Link, l: Link, withExpiry: bool): UpdateParams {
    UpdateParams(l.id, TrimSpace(seen.id), TrimSpace(seen.payee), seen.amount, Kept(seen.description),
      if !withExpiry || SameSecond(seen.expiresOn, l.expiresOn) then l.expiresOn
      else if seen.expiresOn.None? then None
      else Some(Rfc3339.Truncate(seen.expiresOn.value)))
  }

  lemma StaleExpiry(seen: Link, l: Link, now: Time)
    requires Printable(seen)
    ensures var text, e := AdminLinkOf(seen).expiresOn, seen.expiresOn;
            && TrimSpace(text) == text
            && ParseExpiry(text, l, now) ==
               if SameSecond(e, l.expiresOn) then Ok(l.expiresOn)
               else if e.None? then Ok(None)
               else if Rfc3339.Truncate(e.value) <= now then Err(PastExpiry)
               else Ok(Some(Rfc3339.Truncate(e.value)))
  {
    hide Rfc3339.Format;
    hide Rfc3339.Parse;
    hide Rfc3339.Truncate;
    hide TrimSpace;
    if seen.expiresOn.Some? {
      Rfc3339.RoundTrip(seen.expiresOn.value, false);
      Rfc3339.FormatTrimmed(seen.expiresOn.value, false);
    }
    TrimSpaceFixes(AdminLinkOf(seen).expiresOn);
  }

  lemma StaleFields(seen: Link, l: Link, withExpiry: bool, now: Time)
    requires Printable(seen) && Printable(l)
    ensures var form := Fill(l, Untouched(seen, withExpiry));
            && form.originalId == l.id && form.id == TrimSpace(seen.id) && form.payee == TrimSpace(seen.payee)
            && Decimal.ParseInt(form.amount, 32) == Some(seen.amount)
            && form.description == Deref(seen.description)
            && form.expiresOn == if withExpiry then AdminLinkOf(seen).expiresOn else AdminLinkOf(l).expiresOn
  {
    hide Decimal.FormatInt;
    hide Decimal.ParseInt;
    hide TrimSpace;
    hide Rfc3339.Format;
    Decimal.ParsePrintedInt(seen.amount, 32);
    Decimal.FormatIntIsTrimmed(seen.amount);
    TrimSpaceFixes(Decimal.FormatInt(seen.amount));
    StaleExpiry(seen, l, now);
  }

  /** Params, for a form whose amount is in order. */
  lemma ParamsOf(form: AdminLink, l: Link, now: Time, amount: int)
    requires Decimal.ParseInt(form.amount, 32) == Some(amount)
    ensures var e := ParseExpiry(form.expiresOn, l, now);
            var r := Params(form, l, now);
            && (r.Ok? <==> AllowedID(form.id) && form.payee != "" && amount >= 0 && e.Ok?)
            && (r.Ok? ==> r == Ok(UpdateParams(form.originalId, form.id, form.payee, amount,
                                               if Blank(form.description) then None else Some(form.description), e.value)))
  {
    hide ParseExpiry;
    hide Decimal.ParseInt;
    hide Blank;
    hide ToLower;
    if ValidID(form.id) {
      ValidIdNotEmpty(form.id);
    }
    hide ValidID;
  }

  /** A stale page is accepted by the same rules, and then its values are written, whoever's they are. */
  lemma StaleSubmit(seen: Link, l: Link, withExpiry: bool, now: Time)
    requires Printable(seen) && Printable(l)
    ensures var e := seen.expiresOn;
            Submit(l, Untouched(seen, withExpiry), now).Ok? <==>
            && seen.id == l.id && AllowedID(TrimSpace(l.id)) && TrimSpace(seen.payee) != "" && seen.amount >= 0
            && (withExpiry && e.Some? && !SameSecond(e, l.expiresOn) ==> Rfc3339.Truncate(e.value) > now)
    ensures Submit(l, Untouched(seen, withExpiry), now).Ok? ==>
            Submit(l, Untouched(seen, withExpiry), now) == Ok(Stale(seen, l, withExpiry))
  {
    hide ParseExpiry;
    hide Params;
    hide Decimal.ParseInt;
    hide Rfc3339.Truncate;
    hide TrimSpace;
    hide AllowedID;
    hide Blank;
    hide Fill;
    hide SameSecond;
    hide Printable;
    var form := Fill(l, Untouched(seen, withExpiry));
    StaleFields(seen, l, withExpiry, now);
    StaleExpiry(seen, l, now);
    StaleExpiry(l, l, now);
    SameSecondSelf(l.expiresOn);
    TrimEmpty();
    EmptyNotAllowed();
    ParamsOf(form, l, now, seen.amount);
  }

  lemma EmptyNotAllowed()
    ensures !AllowedID("")
  {
  }

  lemma SameSecondSelf(e: Option<Time>)
    ensures SameSecond(e, e)
  {
  }

  lemma TrimEmpty()
    ensures TrimSpace("") == ""
  {
  }

  /** A page of one link asks for nothing new of the link that is under its id by now, exactly if that
      keeps the form's rules and the page is stale in no field that it prints. */
  lemma StaleEdit(seen: Link, l: Link, withExpiry: bool, now: Time)
    requires Printable(seen) && Printable(l)
    ensures Submit(l, Untouched(seen, withExpiry), now) == Ok(Same(l)) <==>
            && AllowedID(l.id) && l.payee != "" && l.amount >= 0
            && seen.id == l.id && TrimSpace(seen.payee) == l.payee && seen.amount == l.amount
            && Kept(seen.description) == l.description
            && (withExpiry ==> SameSecond(seen.expiresOn, l.expiresOn))
  {
    hide Submit;
    hide Untouched;
    hide TrimSpace;
    hide Kept;
    hide AllowedID;
    hide Printable;
    hide Rfc3339.Truncate;
    StaleSubmit(seen, l, withExpiry, now);
    Rfc3339.TruncateBounds(if seen.expiresOn.Some? then seen.expiresOn.value else 0);
    TruncateTwice(if seen.expiresOn.Some? then seen.expiresOn.value else 0);
    TrimSpaceFixes(l.id);
    if AllowedID(l.id) {
      AllowedIsTrimmed(l.id);
    }
  }

  lemma AllowedIsTrimmed(id: string)
    requires AllowedID(id)
    ensures Trimmed(id)
  {
    ValidIdTrimmed(id);
  }

  lemma TruncateTwice(t: Time)
    ensures Rfc3339.Truncate(Rfc3339.Truncate(t)) == Rfc3339.Truncate(t)
  {
    Rfc3339.TruncateBounds(t);
    Rfc3339.TruncateBounds(Rfc3339.Truncate(t));
  }

  /** Only such an edit leaves the table unchanged. */
  lemma OnlySameChangesNothing(t: Table, arg: UpdateParams)
    requires Links.Valid(t) && Update(t, arg).1 == Ok(1)
    ensures arg.id in t.rows && (Update(t, arg).0 == t <==> arg == Same(t.rows[arg.id].link))
  {
    hide Links.Valid;
    UpdateOutcome(t, arg);
    RowHasItsId(t, arg.id);
    hide Update;
    var l := t.rows[arg.id].link;
    if Update(t, arg).0 == t {
      assert arg.id in t.rows.Keys;
      assert Edited(l, arg) == l;
    }
  }

  lemma RowHasItsId(t: Table, id: string)
    requires Links.Valid(t) && id in t.rows
    ensures t.rows[id].link.id == id
  {
  }

  /** What the text in the expiry field makes of a link's expiry. */
  ghost predicate AsksExpiry(text: string, l: Link, now: Time, e: Option<Time>) {
    if text == "" then e == None
    else
      exists t :: Rfc3339.Parse(text) == Some(t) &&
        if l.expiresOn.Some? && Rfc3339.Truncate(l.expiresOn.value) == t then e == l.expiresOn
        else now < t && e == Some(t)
  }

  lemma ExpiryOutcome(text: string, l: Link, now: Time)
    requires ParseExpiry(text, l, now).Ok?
    ensures var e := ParseExpiry(text, l, now).value;
            AsksExpiry(text, l, now, e) && (e.None? || e == l.expiresOn || e.value > now)
  {
    hide Rfc3339.Parse;
    hide Rfc3339.Truncate;
    assert text != "" ==> Rfc3339.Parse(text) == Some(Rfc3339.Parse(text).value);
  }

  lemma ExpiryRefused(text: string, l: Link, now: Time)
    requires ParseExpiry(text, l, now).Err?
    ensures text != ""
    ensures var t := Rfc3339.Parse(text);
            ParseExpiry(text, l, now).error == if t.None? then BadExpiry else PastExpiry
    ensures Rfc3339.Parse(text).Some? ==> Rfc3339.Parse(text).value <= now
  {
    hide Rfc3339.Parse;
    hide Rfc3339.Truncate;
  }

  /** The rules for an edit, in no order. */
  predicate Acceptable(l: Link, p: Posted, now: Time) {
    var amount := Decimal.DecimalValue(TrimSpace(p.amount));
    && (p.originalId == "" || p.originalId == l.id)
    && AllowedID(TrimSpace(p.id)) && TrimSpace(p.payee) != ""
    && amount.Some? && 0 <= amount.value < 0x8000_0000
    && (p.expiresOn.Some? && TrimSpace(p.expiresOn.value) != "" ==>
          var t := Rfc3339.Parse(TrimSpace(p.expiresOn.value));
          t.Some? && (t.value > now || (l.expiresOn.Some? && Rfc3339.Truncate(l.expiresOn.value) == t.value)))
  }

  lemma ExpiryAccepted(text: string, l: Link, now: Time)
    ensures ParseExpiry(text, l, now).Ok? <==>
            text != "" ==>
              var t := Rfc3339.Parse(text);
              t.Some? && (t.value > now || (l.expiresOn.Some? && Rfc3339.Truncate(l.expiresOn.value) == t.value))
  {
    hide Rfc3339.Parse;
  }

  /** An edit is accepted exactly by the rules. */
  lemma SubmitAccepts(l: Link, p: Posted, now: Time)
    requires Printable(l)
    ensures Submit(l, p, now).Ok? <==> Acceptable(l, p, now)
  {
    hide Decimal.DecimalValue;
    hide ToLower;
    hide TrimSpace;
    hide ParseExpiry;
    hide Rfc3339.Parse;
    hide Rfc3339.Format;
    ExpiryComesBack(l, now);
    ExpiryAccepted(Fill(l, p).expiresOn, l, now);
  }

  /** What an accepted edit asks for: what the form says, and an expiry that is absent, unchanged or ahead. */
  lemma AcceptedEdit(l: Link, p: Posted, now: Time)
    requires Submit(l, p, now).Ok?
    ensures var arg := Submit(l, p, now).value;
            && arg.id == l.id && AllowedID(arg.newId) && arg.newId == TrimSpace(p.id)
            && arg.payee == TrimSpace(p.payee) != ""
            && arg.amount >= 0 && Decimal.DecimalValue(TrimSpace(p.amount)) == Some(arg.amount)
            && arg.description == (if Blank(p.description) then None else Some(p.description))
            && (arg.expiresOn.None? || arg.expiresOn == l.expiresOn || arg.expiresOn.value > now)
            && (p.expiresOn.Some? ==> AsksExpiry(TrimSpace(p.expiresOn.value), l, now, arg.expiresOn))
            && (p.expiresOn.None? && Printable(l) ==> arg.expiresOn == l.expiresOn)
  {
    hide Decimal.DecimalValue;
    hide ToLower;
    hide TrimSpace;
    hide AsksExpiry;
    var form := Fill(l, p);
    hide ParseExpiry;
    assert ParseExpiry(form.expiresOn, l, now).Ok?;
    ExpiryOutcome(form.expiresOn, l, now);
    if Printable(l) {
      ExpiryComesBack(l, now);
    }
    hide AdminLinkOf;
  }

  /** The characters that an id can have. */
  predicate HasOnlyIdChars(id: string) {
    forall c :: c in id ==> 'A' <= c <= 'Z' || 'a' <= c <= 'z' || '0' <= c <= '9' || c in "_-"
  }

  lemma ValidIdMeans(id: string)
    ensures ValidID(id) <==> 1 <= |id| <= 64 && HasOnlyIdChars(id)
  {
  }

  lemma ParamsRefuses(form: AdminLink, l: Link, now: Time)
    requires Params(form, l, now).Err?
    ensures var e, amount := Params(form, l, now).error, Decimal.DecimalValue(form.amount);
            if form.id == "" then e == BlankId
            else if !ValidID(form.id) then e == BadId
            else if ToLower(form.id) in RESERVED then e == ReservedId
            else if form.payee == "" then e == BlankPayee
            else if amount.None? || amount.value < 0 || amount.value >= 0x8000_0000 then e == BadAmount
            else ParseExpiry(form.expiresOn, l, now) == Err(e)
  {
    hide Decimal.DecimalValue;
    hide ToLower;
    hide ParseExpiry;
    hide RESERVED;
    hide ValidID;
    hide Blank;
  }

  /** The first rule that a refused edit breaks is the one its admin is told. */
  lemma SubmitRefuses(l: Link, p: Posted, now: Time)
    requires Printable(l) && Submit(l, p, now).Err?
    ensures var e, id, amount := Submit(l, p, now).error, TrimSpace(p.id), Decimal.DecimalValue(TrimSpace(p.amount));
            var expiry := if p.expiresOn.Some? then TrimSpace(p.expiresOn.value) else "";
            if p.originalId != "" && p.originalId != l.id then e == WrongOriginal
            else if id == "" then e == BlankId
            else if |id| > 64 || !HasOnlyIdChars(id) then e == BadId
            else if exists word :: word in ["admin", "api", "lang", "login", "logout", "theme"] && SameButCase(id, word)
              then e == ReservedId
            else if TrimSpace(p.payee) == "" then e == BlankPayee
            else if amount.None? || amount.value < 0 || amount.value >= 0x8000_0000 then e == BadAmount
            else
              && expiry != ""
              && var t := Rfc3339.Parse(expiry);
                 if t.None? then e == BadExpiry else e == PastExpiry && t.value <= now
  {
    hide Decimal.DecimalValue;
    hide ToLower;
    hide TrimSpace;
    hide SameButCase;
    hide ParseExpiry;
    hide RESERVED;
    hide HasOnlyIdChars;
    hide ValidID;
    hide Rfc3339.Parse;
    hide Params;
    var form := Fill(l, p);
    ExpiryComesBack(l, now);
    if ParseExpiry(form.expiresOn, l, now).Err? {
      ExpiryRefused(form.expiresOn, l, now);
    }
    ValidIdMeans(form.id);
    ReservedMeans(form.id);
    if p.originalId == "" || p.originalId == l.id {
      ParamsRefuses(form, l, now);
    }
    hide AdminLinkOf;
  }

  // ---- The logged change set ----

  datatype Change =
    | PayeeChange(payeeFrom: string, payeeTo: string)
    | AmountChange(amountFrom: int32, amountTo: int32)
    | DescriptionChange(descriptionFrom: string, descriptionTo: string)
    | ExpiryChange(expiryFrom: Option<Time>, expiryTo: Option<Time>)

  function Changes(l: Link, arg: UpdateParams): seq<Change> {
    (if arg.payee != l.payee then [PayeeChange(l.payee, arg.payee)] else [])
    + (if arg.amount != l.amount then [AmountChange(l.amount, arg.amount)] else [])
    + (if Deref(l.description) != Deref(arg.description)
       then [DescriptionChange(Deref(l.description), Deref(arg.description))] else [])
    + (if l.expiresOn != arg.expiresOn then [ExpiryChange(l.expiresOn, arg.expiresOn)] else [])
  }

  /** The four fields that an edit can change; an absent description is the same as an empty one. */
  datatype Fields = Fields(payee: string, amount: int32, description: string, expiresOn: Option<Time>)

  function FieldsOf(l: Link): Fields {
    Fields(l.payee, l.amount, Deref(l.description), l.expiresOn)
  }

  /** The new (or, going back, the old) value of one change. */
  function Apply(f: Fields, c: Change, back: bool): Fields {
    match c
    case PayeeChange(from, to) => f.(payee := if back then from else to)
    case AmountChange(from, to) => f.(amount := if back then from else to)
    case DescriptionChange(from, to) => f.(description := if back then from else to)
    case ExpiryChange(from, to) => f.(expiresOn := if back then from else to)
  }

  function ApplyAll(f: Fields, cs: seq<Change>, back: bool): Fields
    decreases |cs|
  {
    if cs == [] then f else ApplyAll(Apply(f, cs[0], back), cs[1..], back)
  }

  lemma {:induction false} ApplyConcat(f: Fields, cs: seq<Change>, ds: seq<Change>, back: bool)
    ensures ApplyAll(f, cs + ds, back) == ApplyAll(ApplyAll(f, cs, back), ds, back)
    decreases |cs|
  {
    if cs == [] {
      assert cs + ds == ds;
    } else {
      ApplyConcat(Apply(f, cs[0], back), cs[1..], ds, back);
      assert (cs + ds)[1..] == cs[1..] + ds;
    }
  }

  lemma ApplyMaybe(f: Fields, c: Change, on: bool, back: bool)
    ensures ApplyAll(f, if on then [c] else [], back) == if on then Apply(f, c, back) else f
  {
    assert ApplyAll(Apply(f, c, back), [], back) == Apply(f, c, back);
    assert [c][1..] == [];
  }

  /** Applies the changes one after the other. */
  function Steps(f: Fields, l: Link, arg: UpdateParams, back: bool): Fields {
    var f1 := if arg.payee != l.payee then Apply(f, PayeeChange(l.payee, arg.payee), back) else f;
    var f2 := if arg.amount != l.amount then Apply(f1, AmountChange(l.amount, arg.amount), back) else f1;
    var f3 := if Deref(l.description) != Deref(arg.description)
              then Apply(f2, DescriptionChange(Deref(l.description), Deref(arg.description)), back) else f2;
    if l.expiresOn != arg.expiresOn then Apply(f3, ExpiryChange(l.expiresOn, arg.expiresOn), back) else f3
  }

  lemma ApplySteps(f: Fields, l: Link, arg: UpdateParams, back: bool)
    ensures ApplyAll(f, Changes(l, arg), back) == Steps(f, l, arg, back)
  {
    var p, a := PayeeChange(l.payee, arg.payee), AmountChange(l.amount, arg.amount);
    var d, e := DescriptionChange(Deref(l.description), Deref(arg.description)), ExpiryChange(l.expiresOn, arg.expiresOn);
    var pOn, aOn := arg.payee != l.payee, arg.amount != l.amount;
    var dOn, eOn := Deref(l.description) != Deref(arg.description), l.expiresOn != arg.expiresOn;
    var ps, as_ := if pOn then [p] else [], if aOn then [a] else [];
    var ds, es := if dOn then [d] else [], if eOn then [e] else [];
    assert Changes(l, arg) == ps + as_ + ds + es;
    hide Changes;
    hide ApplyAll;
    hide Apply;
    hide Deref;
    ApplyConcat(f, ps + as_ + ds, es, back);
    ApplyConcat(f, ps + as_, ds, back);
    ApplyConcat(f, ps, as_, back);
    ApplyMaybe(f, p, pOn, back);
    var f1 := ApplyAll(f, ps, back);
    ApplyMaybe(f1, a, aOn, back);
    var f2 := ApplyAll(f1, as_, back);
    ApplyMaybe(f2, d, dOn, back);
    var f3 := ApplyAll(f2, ds, back);
    ApplyMaybe(f3, e, eOn, back);
  }

  lemma StepsLead(l: Link, arg: UpdateParams)
    ensures Steps(FieldsOf(l), l, arg, false) == FieldsOf(Edited(l, arg))
    ensures Steps(FieldsOf(Edited(l, arg)), l, arg, true) == FieldsOf(l)
  {
  }

  lemma NoChanges(l: Link, arg: UpdateParams)
    ensures Changes(l, arg) == [] <==> FieldsOf(l) == FieldsOf(Edited(l, arg))
  {
  }

  /** The log names just the fields that change, with their old and new values. */
  lemma ChangesAre(l: Link, arg: UpdateParams)
    ensures forall from, to :: PayeeChange(from, to) in Changes(l, arg) <==>
              from == l.payee && to == arg.payee && from != to
    ensures forall from, to :: AmountChange(from, to) in Changes(l, arg) <==>
              from == l.amount && to == arg.amount && from != to
    ensures forall from, to :: DescriptionChange(from, to) in Changes(l, arg) <==>
              from == Deref(l.description) && to == Deref(arg.description) && from != to
    ensures forall from, to :: ExpiryChange(from, to) in Changes(l, arg) <==>
              from == l.expiresOn && to == arg.expiresOn && from != to
  {
    hide Deref;
  }

  /** The log is a faithful diff. Its new values turn the old fields into the edited ones, its old
      values lead back, and it is empty exactly when the edit changes none of them. */
  lemma ChangesAreTheDiff(l: Link, arg: UpdateParams)
    ensures var cs, before, after := Changes(l, arg), FieldsOf(l), FieldsOf(Edited(l, arg));
            && ApplyAll(before, cs, false) == after
            && ApplyAll(after, cs, true) == before
            && (cs == [] <==> before == after)
  {
    ApplySteps(FieldsOf(l), l, arg, false);
    ApplySteps(FieldsOf(Edited(l, arg)), l, arg, true);
    StepsLead(l, arg);
    NoChanges(l, arg);
    hide Changes;
    hide ApplyAll;
    hide Steps;
  }

  /** The fields that the log leaves out are in `before` as they are in `read`. */
  predicate AgreeElsewhere(before: Fields, read: Fields, after: Fields) {
    && (after.payee == read.payee ==> before.payee == read.payee)
    && (after.amount == read.amount ==> before.amount == read.amount)
    && (after.description == read.description ==> before.description == read.description)
    && (after.expiresOn == read.expiresOn ==> before.expiresOn == read.expiresOn)
  }

  /** The log compares with the link that the handler read. When the edit is written over a link with other
      fields, the log still leads to the result exactly if the fields that it leaves out are the same, and
      back exactly if all of them are. An empty log means that the edit puts back what was read. */
  lemma LogAtTheWrite(before: Link, read: Link, arg: UpdateParams)
    ensures var cs, b, r, after := Changes(read, arg), FieldsOf(before), FieldsOf(read), FieldsOf(Edited(before, arg));
            && (ApplyAll(b, cs, false) == after <==> AgreeElsewhere(b, r, after))
            && (ApplyAll(after, cs, true) == b <==> b == r)
            && (cs == [] <==> after == r)
  {
    ApplySteps(FieldsOf(before), read, arg, false);
    ApplySteps(FieldsOf(Edited(before, arg)), read, arg, true);
    StepsElsewhere(before, read, arg);
    NoChanges(read, arg);
    hide Changes;
    hide ApplyAll;
    hide Steps;
  }

  lemma StepsElsewhere(before: Link, read: Link, arg: UpdateParams)
    ensures Steps(FieldsOf(before), read, arg, false) == FieldsOf(Edited(before, arg))
            <==> AgreeElsewhere(FieldsOf(before), FieldsOf(read), FieldsOf(Edited(before, arg)))
    ensures Steps(FieldsOf(Edited(before, arg)), read, arg, true) == FieldsOf(read)
    ensures FieldsOf(Edited(before, arg)) == FieldsOf(Edited(read, arg))
  {
  }

  /** changes, which appends to a slice. */
  method ChangesLoop(l: Link, arg: UpdateParams) returns (attrs: seq<Change>)
    ensures attrs == Changes(l, arg)
  {
    attrs := [];
    if arg.payee != l.payee {
      attrs := attrs + [PayeeChange(l.payee, arg.payee)];
    }
    if arg.amount != l.amount {
      attrs := attrs + [AmountChange(l.amount, arg.amount)];
    }
    var from, to := Deref(l.description), Deref(arg.description);
    if from != to {
      attrs := attrs + [DescriptionChange(from, to)];
    }
    if l.expiresOn != arg.expiresOn {
      attrs := attrs + [ExpiryChange(l.expiresOn, arg.expiresOn)];
    }
  }
}
