# Swosh, verified

Swosh makes short links that open the Swish app with a prefilled payment. This project models the parts of
it that are easy to get wrong and proves what they promise:

- **Text formats that must undo each other.** UTF-8 (section 3 of RFC 3629), UTF-16 (section 2.1 of RFC 2781),
  JSON (section 7 of RFC 8259), query escaping and percent-encoding (sections 2.1 and 2.3 of RFC 3986, section 5.1
  of the WHATWG URL Standard), base64url (sections 3.2 and 5 of RFC 4648), decimal integers and date-times
  (section 5.6 of RFC 3339), each as a function with an inverse and, where the program or its libraries loop, as a
  loop proved against that function (`Unicode`, `Json`, `Percent`, `Base64Url`, `Decimal`, `Rfc3339`). On top of
  them: the swish:// link (`Swish`), the session cookie (`Session`) and the edit form (`AdminForm`).
- **The link table under concurrent requests.** `Links` gives each SQL statement its meaning on a map, once
  as a function and once as a method of a class. `Runs` is a state machine whose runs are lists of steps:
  a tick of the clock, one turn of a create's retry loop, the read, the check and the touch of a visit, the
  showing of an edit form, the read, the validation and the write of an edit, a delete, a sweep. Requests keep
  their place between steps, any number of them at once, in any order, and any statement may fail. `Runs`,
  `Counters`, `Serving`, `Edits`, `Creates` and `Sweeping` prove what every run keeps. `Site` has the handlers as
  code and proves that each does exactly what its steps do.
- **Validation and ids.** `CreateRequest` for what a create request must satisfy, `LinkIds` for generated
  and chosen ids and the route table they have to get along with.
- **Access to the admin pages** (`Authn`), over runs of logins, changes to users and requests, and what
  `AdminPages` makes of it: runs of the whole site, in which the route table dispatches each admin request and
  only those that get through the gate begin an edit or delete links.
- **The recent numbers** of the front page (`RecentNumbers`).

Main results, hardest first:

1. `Authn.OnlyTheRightfulGetIn`, `AdminPages.OnlyAdminsChangeLinks` and `AdminPages.OnlyAdminsSeeForms`: no run lets a
   request through to an admin handler that should not get there, and no link changes, goes before its time or is
   shown as a form without one that may. `Authn.GateAnswers`: what everyone else is answered.
2. `Sweeping.SweepsAreInvisible`: under whichever sweeps everyone is told the same, exactly if no create, page
   or edit of the run has to do with an overdue link.
3. `Edits.EditHitsTheRowShown`, `Edits.PageIsHarmless`, `Edits.FreshPageIsHarmless`: from the page through any runs
   to the write, exactly when an edit lands on the link that its admin was shown, and exactly when a page that was
   posted as shown changes nothing. `Edits.LogOfSave`: exactly when the log of an edit tells what it did.
   `Edits.SaveOutcome`: every save is all or nothing.
4. `Runs.Conservation`, `Counters.CountersCatchUp`, `Runs.RowsForLife`, `Runs.GoneForGood`,
   `Serving.LinkStaysOrGoes`: links created equal links present, deleted and swept; rows keep what they were born
   with; what is gone stays gone; what no admin touches stays until it is swept.
5. `Serving.NeverServesExpired`, `Serving.DarkStaysDark`, `Creates.CreateOutcome`: what single requests are told,
   and where it comes from, whatever else runs.
6. `Site.CreatedLinkPaysOn`: from the create request through validation, table, any run of other requests, expiry
   check, JSON and percent-encoding to the payment an app reads.
7. `Swish.UriRoundTrip`, `Session.SessionRoundTrip`, `AdminForm.UntouchedEdit`: the stacked round trips.

## Conventions

A time is an integer number of nanoseconds since 0001-01-01T00:00:00Z. A string is a sequence of Unicode
scalar values and becomes bytes only through `Unicode.Encode`. Rows carry a serial number that the real table
does not have, so that a link can be followed through renames. HMAC-SHA256 is any function with 32-byte
results. Three things are assumed of it, each only of the finitely many values that a run hashes: that it has no
collisions (`Session.CollisionFree`), that the first 16 bytes of its results tell stored passwords apart
(`Authn.TagsTell`), and that clients cannot compute it (`Authn.NotForged`). Random ids and nonces, bcrypt, the phone
library, the clock, the cross-origin check of net/http and failures of the database are arguments.

## Where the code may surprise

- The comment on `reservedIDs` (internal/web/admin.go:26-28) says that a link with one of these ids could
  never be opened. Five of them are indeed hidden by the site's own pages, but `/api` is dispatched to the
  preview. `LinkIds.PublicRoutes` states which ids are hidden.
- An edit is addressed to an id, not to a link, and `originalId` (internal/web/admin.go:134) compares ids only.
  The page with the form, the handler's read and the handler's write can each find another link under the id.
  `Edits.EditHitsTheRowShown` says exactly when they find the same one. In `Edits.EditCanHitAnotherRow` the link
  is replaced between read and write, in `Edits.StalePageOverwrites` between page and read; the new link is then
  overwritten with what the page showed of the old one. `AdminForm.StaleEdit` says when such a form asks for
  nothing new of the link that its handler reads, and `Edits.PageIsHarmless` when it then changes nothing.
- Edits do not notice each other. In `Edits.LostUpdate` two handlers read a link, one edit is saved, and the other,
  whose form was left as it was, is saved after it: the first change is undone, both admins are told that their
  edit is saved, and the second one's log is empty. The log compares with the link that the handler read
  (internal/web/admin.go:175), which need not be the one that is overwritten.
- `numberKey` (internal/web/static/js/swosh.js:326-330) unites the spellings that its comment names, but keeps
  others of the same number apart, such as "+46 (0)70..." and "46 70..." (`RecentNumbers.OtherNumbers`).
  `RecentNumbers.SameKey` says exactly which two spellings count as one number.
- Lookups hide a link from the instant it expires, sweeps delete it only after that instant, and until one does
  its id stays taken and admins still see it. Who can tell is stated in `Sweeping.Notices`.

## Model

| member | source | states |
|---|---|---|
| Text.TrimSpaceFixes | internal/web/admin.go:139-141 | trimming leaves no white space at either end, and changes a text exactly when there was some |
| Text.TrimSpaceCuts | internal/web/admin.go:139-141 | only white space is cut off, at the two ends |
| Text.BlankMeans | internal/web/create.go:109 | a text is blank exactly if it is white space through and through |
| Text.SpacesAre | internal/web/admin.go:139-141 | white space is what Unicode calls so, character by character |
| Decimal.FormatIntDenotes | internal/web/admin.go:67 | the printed form of every integer denotes that integer, with a sign only below zero and no zeros in front |
| Decimal.ParsePrintedInt | internal/web/admin.go:240 | parsing a printed integer gives it back exactly when it fits the width |
| Decimal.Accumulate | internal/web/create.go:69 | one turn of the wrapping 64-bit loop yields nothing exactly when the longer number no longer fits |
| Decimal.ParseUintLoop | internal/web/create.go:69 | the accumulate loop accepts exactly the digit strings whose unbounded value fits |
| Decimal.ParseIntLoop | internal/web/create.go:69 | with the sign, the loop agrees with the unbounded reading cut to the signed range, at both ends |
| Decimal.FormatNatLoop | internal/web/admin.go:67 | the digit loop produces the digits whose value is the number |
| Unicode.DecodeEncoded | internal/swish/swish.go:53 | UTF-8 decoding gives every text back |
| Unicode.EncodeDecoded | internal/auth/session.go:94 | bytes that are read as UTF-8 are the UTF-8 form of what was read: no longer form passes |
| Unicode.EncodeLoop | internal/swish/swish.go:57-65 | the loop that appends rune by rune produces the UTF-8 form |
| Unicode.Utf16RoundTrip | internal/web/create.go:120-121 | what is counted is the UTF-16 form: it leads back to the text |
| Unicode.Utf16Loop | internal/web/create.go:120-121 | sizing and filling the array in two passes gives exactly the UTF-16 units |
| Percent.UnescapePercentEncoded | internal/swish/swish.go:50-54 | percent-encoded bytes come back from a plain and from a form decoder |
| Percent.UnescapeQueryEscaped | internal/swish/swish.go:50-52 | query-escaped bytes come back from a plain decoder exactly when there is no space among them |
| Percent.RewriteIsPercentEncoding | internal/swish/swish.go:50-53 | rewriting + to %20 touches only what were spaces: the result is the percent-encoding of the bytes |
| Percent.PlainBytes | internal/swish/swish.go:50-53 | letters, digits, - . _ ~ stay, every other byte becomes % and its two upper-case hex digits |
| Percent.PercentEncodeAlphabet | internal/web/web.go:212-213 | percent-encoding leaves only letters, digits, - . _ ~ and %HH triplets |
| Percent.QueryEscapeLoop | internal/swish/swish.go:53 | counting and filling in two passes gives the query escaping |
| Percent.ReplaceAllLoop | internal/swish/swish.go:53 | the appending loop replaces every occurrence |
| Json.ReadEscaped | internal/swish/swish.go:57-65 | reading a string literal undoes escaping, whether or not HTML characters are escaped |
| Json.EscapedUnits | internal/web/create.go:59-62 | \u escapes are read as UTF-16: one unit or a pair as its character, a lone surrogate as U+FFFD |
| Json.EscapeHidesHtml | internal/auth/session.go:74 | with HTML escaping on, no <, > or & is left, and no control character |
| Json.PlainChars | internal/swish/swish.go:57-65 | a character stays as it is exactly unless it is a control character, a quote, a backslash, one of the two line separators or, with HTML escaping on, <, > or & |
| Json.ParsePrinted | internal/swish/swish.go:57-65 | parsing undoes printing for every JSON value, whatever follows it |
| Json.ParseText | internal/auth/session.go:94 | a printed value, alone, parses to itself |
| Json.ParseAround | internal/auth/session.go:94 | white space around a printed value does not matter, and anything else behind it spoils it |
| Json.QuoteLoop | internal/swish/swish.go:57-65 | copying runs of safe characters in one piece gives the escaped literal |
| Json.PrintTo | internal/swish/swish.go:57-65 | the encoder appends exactly the printed value to its buffer |
| Base64Url.DecodeEncoded | internal/auth/session.go:70 | decoding gives back bytes of every length, without padding |
| Base64Url.EncodeDecoded | internal/auth/session.go:85 | what is decoded encodes to the same text again, all but the spare bits of the last letter |
| Base64Url.DecodeAccepts | internal/auth/session.go:85-89 | only letters are decoded, unless one is left over |
| Base64Url.BreaksAreSkipped | internal/auth/session.go:85-89 | line breaks are skipped when decoding, and only they |
| Base64Url.EncodeAlphabet | internal/auth/session.go:75-76 | encoded bytes hold letters, digits, - and _ only, so no dot, and are empty only for no bytes |
| Base64Url.EncodeLoop | internal/auth/session.go:75 | groups of three and then the rest give the encoding |
| Rfc3339.TruncateBounds | internal/auth/session.go:59 | truncating goes back to the whole second the instant lies in, and nowhere for a whole second |
| Rfc3339.DayOfDate | internal/web/admin.go:76 | every day has a valid civil date that leads back to the day |
| Rfc3339.DateOfDay | internal/web/admin.go:249 | every valid civil date leads to a day that has just that date |
| Rfc3339.ValidDates | internal/web/admin.go:249 | the dates that are read are those of the Gregorian calendar, leap years included |
| Rfc3339.DaysInARow | internal/web/admin.go:249 | the date after a date is the next day, counted from the zero time |
| Rfc3339.ParseMeans | internal/web/admin.go:249 | a text is read as an instant exactly if it spells it: date, time, fraction cut off after nine digits, and offset; the hour may have one digit |
| Rfc3339.RoundTrip | internal/web/admin.go:249 | in years 1 to 9999, text with nanoseconds gives the instant back and text without gives its whole second |
| Rfc3339.FormatTrimmed | internal/web/admin.go:146 | the text of an instant is not blank and survives trimming |
| Swish.UriRoundTrip | internal/swish/swish.go:42-55 | cutting out the query parameter, unescaping it by either kind of decoder and parsing the JSON of version 1 gives all six fields back, for every payment |
| Swish.DataOfURI | internal/swish/swish.go:50-54 | neither a fragment nor a second parameter cuts the data short |
| Swish.UriInjective | internal/swish/swish.go:42-55 | two payments share a link only if they are equal |
| Swish.UriAlphabet | internal/web/web.go:212-213 | behind the prefix there are only letters, digits, - . _ ~ and %HH triplets |
| Swish.Marshal | internal/swish/swish.go:57-65 | the encoder's output without its last newline is the printed value |
| Swish.BuildURI | internal/swish/swish.go:42-55 | the loops of the libraries together build the link |
| Session.MacSteps | internal/auth/session.go:116-122 | writing purpose, NUL and value into the hash one by one hashes their concatenation |
| Session.MessageInjective | internal/auth/session.go:114-122 | purpose and value can be told from the hashed message, for purposes without NUL |
| Session.TagsAreApart | internal/auth/session.go:114-122 | without collisions, a tag is right for one purpose and one value only |
| Session.MissingFields | internal/auth/session.go:93-96 | what a cookie's JSON leaves out is empty, and its expiry the zero time |
| Session.TagsCompare | internal/auth/session.go:65-68 | password tags are equal exactly if the first 16 bytes of the hashes are |
| Session.FieldRules | internal/auth/session.go:94 | of the JSON, keys are taken in either case, null and unknown keys are skipped, and other kinds of value are an error |
| Session.BodyHasNoDot | internal/auth/session.go:75-81 | the signed part has no dot, so the first dot is the separator |
| Session.DecodeSigned | internal/auth/session.go:79-101 | a signed body is accepted exactly if it decodes to a session with user and nonce that has not expired |
| Session.UnmarshalMarshalled | internal/auth/session.go:74 | JSON with its RFC 3339 time gives a session back |
| Session.SessionRoundTrip | internal/auth/session.go:72-101 | decoding an encoded session returns it exactly when it names a user and a nonce and now is before its expiry |
| Session.NewSessionLasts | internal/auth/session.go:52-63 | a new session for a named user is accepted exactly until its whole-second expiry, and its own CSRF token passes |
| Session.NewSays | internal/auth/session.go:52-63 | a new session has that user, nonce and tag, and an expiry less than a second earlier |
| Session.TokenPasses | internal/auth/session.go:108-112 | a token passes exactly if it decodes to the session's own; the empty one does not |
| Session.TokensOfLogins | internal/auth/session.go:52-112 | one login's CSRF token passes for another exactly when the two drew the same nonce |
| Session.CsrfTokenOfOther | internal/auth/session.go:103-112 | one session's CSRF token passes for another exactly when they share the nonce |
| Session.SignatureBindsBody | internal/auth/session.go:85-88 | a signature moved to another body is refused |
| Links.CreateValid | internal/db/sqlc/swosh.sql.go:13-55 | an insert adds one new row with the values asked for, created now and not accessed yet, or nothing with a unique violation exactly if the id is taken |
| Links.UpdateOutcome | internal/db/sqlc/swosh.sql.go:230-259 | an update is all or nothing; it keeps the row count, moves only its own row, and keeps that row's other columns |
| Links.DeleteOutcome | internal/db/sqlc/swosh.sql.go:96-121 | a delete takes exactly the named rows that exist and leaves the others as they are |
| Links.TouchOutcome | internal/db/sqlc/swosh.sql.go:214-228 | a touch sets one last access and nothing else, and brings no row back |
| Links.CountDeleted | internal/expiry/expiry.go:47-50 | the returned ids are as many as the rows deleted |
| Links.LinkTable.GetSwosh | internal/db/sqlc/swosh.sql.go:128-144 | reads one row, or reports that there is none or that the database failed |
| Links.LinkTable.CreateSwosh | internal/db/sqlc/swosh.sql.go:30-55 | changes the table as an insert does; on failure not at all |
| Links.LinkTable.UpdateSwosh | internal/db/sqlc/swosh.sql.go:245-259 | changes the table as an update does and returns the row count; on failure not at all |
| Links.LinkTable.DeleteSwosh | internal/db/sqlc/swosh.sql.go:88-94 | removes one row and returns how many there were |
| Links.LinkTable.DeleteSwoshes | internal/db/sqlc/swosh.sql.go:102-121 | removes the named rows and returns the ids that existed, each once however often it was named |
| Links.LinkTable.DeleteExpiredSwoshes | internal/db/sqlc/swosh.sql.go:63-81 | a row is removed and its id returned exactly if it has an expiry before now |
| Links.LinkTable.TouchSwosh | internal/db/sqlc/swosh.sql.go:225-228 | changes the table as a touch does; on failure not at all |
| LinkIds.GeneratedIdAllowed | internal/linkid/linkid.go:11-16 | three words of 3 to 8 lower-case letters make an id that passes the rename rule and is not reserved |
| LinkIds.GeneratedIdInjective | internal/linkid/linkid.go:11-16 | different word triples give different ids |
| LinkIds.NewIdAllowed | internal/linkid/linkid.go:11-21 | so does whatever New picks from word lists that keep the rule, and the id tells which words were picked |
| LinkIds.PublicRoutes | internal/web/web.go:112-123 | of the ids the syntax rule allows, the site's pages hide the preview of exactly five, and redirect and QR code of exactly one, "admin" |
| LinkIds.AdminRoutes | internal/web/web.go:103-110 | the admin pages find a link under every such id, even "admin" |
| LinkIds.SiteRoutes | internal/web/web.go:113-120 | the other pages of the site and the create API are dispatched to their handlers |
| LinkIds.AdminListRoutes | internal/web/web.go:104-110 | so are the list of links and the bulk delete, with and without a slash |
| LinkIds.AllowedMeans | internal/web/admin.go:22-28 | an admin may choose 1 to 64 letters, digits, - and _, except six words in any case |
| LinkIds.AllowedIdIsReachable | internal/web/admin.go:22-28 | every id an admin may choose is dispatched to preview, redirect, QR code and the admin routes, under that very id |
| CreateRequest.NullableInt.UnmarshalJSON | internal/web/create.go:53-75 | sets present, and valid and value exactly when there is a value; null and "" leave them as they are |
| CreateRequest.BareOrQuoted | internal/web/create.go:45-75 | a decimal integer means the same bare and quoted, and is accepted exactly within int64 |
| CreateRequest.PrintedIntComesBack | internal/web/create.go:53-75 | the printed form of every int64 gives it back; null and "" are present without a value |
| CreateRequest.SwishNumber | internal/web/create.go:189-196 | the trimming test holds exactly for ten digits that start with 123 |
| CreateRequest.PayeeIs | internal/web/create.go:173-187 | the payee is the phone number itself if it is ten digits that start with 123, or else what the phone library makes of it |
| CreateRequest.ValidateAccepts | internal/web/create.go:105-148 | validation lets exactly the requests through that keep all rules |
| CreateRequest.ValidateRefuses | internal/web/create.go:105-148 | which error each refused request gets: that of the first rule it breaks |
| CreateRequest.ValidatedLink | internal/web/create.go:105-171 | the link has an amount of 1 to 150000, a message that says something in at most 50 units, an expiry in range; no duration overflows int64 |
| CreateRequest.EditableDefaults | internal/web/create.go:38-42 | only the message may be changed unless the request says otherwise |
| AdminForm.ExpiryComesBack | internal/web/admin.go:248-262 | the expiry as the form shows it parses to the exact old expiry, fractions included, whatever the time |
| AdminForm.UntouchedEdit | internal/web/admin.go:62-82 | submitting the form untouched asks for the link as it is, exactly for links with an allowed id, a trimmed payee, an amount of 0 or more and no blank description |
| AdminForm.SameChangesNothing | internal/db/sqlc/swosh.sql.go:230-259 | such an edit leaves the whole table unchanged |
| AdminForm.StaleSubmit | internal/web/admin.go:129-160 | the form of a page of one link, posted for another under the same id, is accepted by the same rules, and its values are what is written |
| AdminForm.StaleEdit | internal/web/admin.go:129-160 | it asks for nothing new of the link that its handler reads, exactly if the page is stale in no field that it prints |
| AdminForm.SubmitAccepts | internal/web/admin.go:129-160 | an edit is accepted exactly if it keeps the form's rules |
| AdminForm.SubmitRefuses | internal/web/admin.go:129-264 | which error each refused edit gets: that of the first rule it breaks |
| AdminForm.AcceptedEdit | internal/web/admin.go:229-264 | what is written is what the form says: an allowed id, payee, amount, description, and an expiry that is absent, unchanged or strictly ahead; a form without the expiry field keeps it |
| AdminForm.ChangesAreTheDiff | internal/web/admin.go:184-219 | the logged new values turn the fields of the link that the handler read into those of the edit, the old values lead back, and the log is empty exactly if these are equal |
| AdminForm.ChangesAre | internal/web/admin.go:184-219 | the log names just the fields that change, with old and new values |
| AdminForm.LogAtTheWrite | internal/web/admin.go:175-204 | written over a link with other fields, the edit's log leads to the result exactly if the fields that it leaves out are the same, and back exactly if all are |
| AdminForm.OnlySameChangesNothing | internal/db/sqlc/swosh.sql.go:230-259 | an update that succeeds leaves the table unchanged exactly if it writes back what is there |
| AdminForm.ChangesLoop | internal/web/admin.go:186-204 | appending field by field produces that log |
| Runs.NextTable | internal/db/sqlc/swosh.sql.go:13-259 | each step changes the table by at most its own statement, and the counters only with it |
| Runs.NextConserves | internal/expiry/expiry.go:47-50 | every step keeps the books balanced and the table valid |
| Runs.Conservation | internal/web/web.go:355-363 | in every run from an empty table, links created equal rows present plus rows deleted by admins plus expired_links_total |
| Counters.CountersCatchUp | internal/web/web.go:355-361 | with the counters moving in steps of their own, after the statements, they are off by just what is inserted or swept and not counted yet, in every run |
| Runs.NextDescends | internal/db/sqlc/swosh.sql.go:225-259 | a step gives no row another birth |
| Runs.RowsForLife | internal/db/sqlc/swosh.sql.go:214-259 | over every run rows keep creation time and editable flags, sit under one id, and only successful creates add rows |
| Runs.GoneForGood | internal/web/web.go:275-284 | a row that is gone never comes back, whatever late touches and writes are pending |
| Serving.RunRequestsOk | internal/web/web.go:253-273 | over every run each pending and answered request keeps what it has checked |
| Serving.RunTraced | internal/web/web.go:256-273 | every pending or answered visit goes back to a read and a check of the run |
| Serving.NeverServesExpired | internal/web/web.go:253-273 | a link that a run serves was in the table under that id, just as served, when its visit began, and had not expired when the visit looked at the clock between its read and its answer |
| Serving.NextDark | internal/web/web.go:265-266 | of all steps exactly those end the darkness under an id that put a link there that has not expired |
| Serving.DarkStaysDark | internal/web/web.go:265-266 | an id that shows nothing shows nothing to anyone until a create or an edit puts a live link there |
| Serving.LinkStaysOrGoes | internal/db/sqlc/swosh.sql.go:57-61 | a link that no admin deletes or edits stays under its id as it is but for its last access, until it is swept for good |
| Serving.LiveLinkStays | internal/db/sqlc/swosh.sql.go:57-61 | before its expiry such a link is there |
| Serving.SweepTakes | internal/expiry/expiry.go:37-51 | besides admins, only sweeps take links away, and only expired ones |
| Serving.SweepDeletes | internal/expiry/expiry.go:37-51 | a sweep deletes every link that has an expiry before its time, and no other |
| Edits.SaveOutcome | internal/web/admin.go:161-174 | a save says not found, conflict, failure or success exactly when each is the case; only success changes the table, and only the link under the id, keeping its last access |
| Edits.RunIsUnder | internal/db/sqlc/swosh.sql.go:230-234 | whichever link is under an id after a run is the last one created or renamed there |
| Edits.EditHitsTheRowShown | internal/web/admin.go:99-182 | from page to write: the row the handler read and the row it wrote are the last to move under the id until then, so the row shown is the one written exactly if it is itself the last |
| Edits.EditHitsUnlessReplaced | internal/web/admin.go:99-182 | while no link is renamed to the id, that is so exactly if no new link took the id since the page was shown, and then the handler read that row, too |
| Edits.EditHitsTheRowItRead | internal/web/admin.go:129-174 | the row the handler read is the one written exactly if it is the last to move under the id |
| Edits.EditCanHitAnotherRow | internal/web/admin.go:129-161 | a run in which a link is replaced between read and write, and a row is saved that the handler never read |
| Edits.StalePageOverwrites | internal/web/admin.go:99-161 | runs in which a link is replaced between page and read, and the new link is overwritten with what the page showed of the old one |
| Edits.HarmlessSave | internal/web/admin.go:161-174 | a successful save leaves the table as it is exactly if it asks for what is under the id by then |
| Edits.WrittenIsPosted | internal/web/admin.go:129-161 | over every run, what an edit writes is what its form asked for of the link that its handler read |
| Edits.PageIsHarmless | internal/web/admin.go:99-182 | from page to write through any runs, a form posted as shown changes nothing exactly if the link it finds has the page's values and the expiry that goes with page and read |
| Edits.FreshPageIsHarmless | internal/web/admin.go:99-182 | while nobody deletes, edits or replaces the link between read and write, that is so exactly if the page was stale in no field when it was posted |
| Edits.SaveUntouched | internal/web/admin.go:129-182 | an untouched form of the link that its handler reads is saved and changes nothing, through any run in which nobody deletes or edits the link and it does not expire |
| Edits.LostUpdate | internal/web/admin.go:129-182 | of two edits of one link the later can undo the earlier, with both saved and the later one's log empty |
| Edits.LogOfSave | internal/web/admin.go:175-204 | over every run, the log of a save leads from the link overwritten to the result exactly if the fields it leaves out are as they were read |
| Creates.RunStands | internal/web/web.go:366-387 | over every run a create stands where its turns so far have left it |
| Creates.CreateOutcome | internal/web/web.go:366-387 | a create draws at most five ids, all but the last taken when tried; it succeeds exactly if the last was free, and otherwise fails with the database or the fifth taken id |
| Sweeping.RunSame | internal/expiry/expiry.go:37-51 | a run and the same run without its sweeps differ at most by overdue links, unless a step of the latter notices |
| Sweeping.NoticedAtOnce | internal/web/web.go:366-387 | a step that has to do with an overdue link, other than to visit or delete it, is told something else right after a sweep |
| Sweeping.SweepsAreInvisible | internal/expiry/expiry.go:37-51 | whatever sweeps are put into a run or its beginnings change no answer, exactly if no step of the run without them notices |
| Sweeping.ReuseIsVisible | internal/web/web.go:366-387 | drawing an overdue link's id succeeds after a sweep and does not without one |
| Site.InsertOutcome | internal/web/web.go:366-387 | on its own, insert adds one row under the first free id, stops at once on another error, and reports a unique violation only if all ids were taken |
| Site.TryAllInserts | internal/web/web.go:366-387 | the loop on its own does what its turns do as steps |
| Site.VisitOutcome | internal/web/web.go:253-284 | a visit on its own answers by table and clock and records the access |
| Site.EditOutcome | internal/web/admin.go:126-182 | an edit on its own does what its three steps do |
| Site.LifetimeIsKept | internal/web/create.go:157-171 | the stored expiry is now plus the lifetime that was asked for, or none |
| Site.ValidatedPayment | internal/web/web.go:312-324 | the payment of a stored link is the one its create request asked for |
| Site.CreatedLinkPays | internal/web/web.go:201-236 | right after its creation, a link is served exactly until its lifetime is over, with a Swish link from which every app reads the payment that was asked for |
| Site.CreatedLinkPaysOn | internal/web/web.go:201-236 | so it is after every run in which no admin deletes or edits the link; later only a new link can be served under the id |
| Site.Server.InsertLink | internal/web/web.go:366-387 | the retry loop computes insert |
| Site.Server.CreateLink | internal/web/web.go:355-363 | inserting and counting do what the create's steps do, and keep the books balanced |
| Site.Server.Create | internal/web/web.go:338-364 | an invalid request changes nothing but the failure counter; a valid one is created |
| Site.Server.Lookup | internal/web/web.go:253-284 | the handler does what a visit's steps do, and does not record visits by admins |
| Site.Server.Redirect | internal/web/web.go:228-236 | the location that a live link's visitor is sent to reads back as the link's payment; others get none |
| Site.Server.AdminSingle | internal/web/admin.go:99-124 | shows the link's form, or says that there is none or that the database failed, and changes nothing |
| Site.Server.AdminDelete | internal/web/admin.go:266-278 | deletes one link; a missing one is no error |
| Site.Server.AdminDeleteMany | internal/web/admin.go:280-306 | deletes 1 to 1000 named links, counting each existing one once; otherwise changes nothing |
| Site.Server.Sweep | internal/expiry/expiry.go:37-51 | deletes exactly what has an expiry before now and adds just that number to the counter; a failed sweep changes nothing |
| Site.Server.EditLink | internal/web/admin.go:149-174 | validating and writing give the edit's result |
| Site.Server.AdminUpdate | internal/web/admin.go:126-182 | the handler does what an edit's three steps do |
| Authn.DecodeChecks | internal/auth/session.go:79-101 | what Decode accepts has a right signature, says what its signed part says, and has not expired |
| Authn.LoginSucceeds | internal/auth/auth.go:47-92 | a login succeeds exactly if the database answers and the user is there, enabled, and has {bcrypt} and a hash that the password fits |
| Authn.SignedAsSession | internal/auth/session.go:114-122 | a right signature was given out for that body as a session, not as a CSRF token |
| Authn.CookieOfLogin | internal/web/authn.go:45-66 | an accepted cookie holds the very session of one of the logins |
| Authn.LoginIsOk | internal/web/authn.go:187 | a login's session belongs to that user, that password hash and the next twelve hours |
| Authn.LogInStep | internal/web/authn.go:167-194 | a login from the site itself that succeeds starts one session with the nonce drawn; any other changes nothing |
| Authn.SessionGetsIn | internal/web/authn.go:89-133 | a session let through is one of an unexpired login of an enabled user with unchanged password, and carries its CSRF token on unsafe methods |
| Authn.PasswordGetsIn | internal/web/authn.go:71-85 | a request let through without a session carries the password of an enabled user |
| Authn.OnlyTheRightfulGetIn | internal/web/authn.go:89-133 | in every run, an admin handler runs only for an enabled principal with ROLE_ADMIN and the authority that is asked for at that moment, by such a session or password |
| Authn.GateAnswers | internal/web/authn.go:71-133 | what the gate answers to every request: cross-origin, server error, login, challenge, forbidden, bad token or the handler |
| Authn.AskStep | internal/web/authn.go:97-133 | exactly the requests that get through are put on record, with what is true at that moment |
| AdminPages.AdminRequests | internal/web/web.go:103-110 | showing, editing and deleting a link are dispatched to their handlers with its id |
| AdminPages.AdminsDo | internal/web/web.go:106-108 | a request to a link's page that gets through with UPDATE, DELETE or neither edits, deletes or shows that link; one that does not leaves everything as it is |
| AdminPages.OthersDo | internal/web/authn.go:97-133 | everything else leaves accounts or links alone and begins no edit: clock, changes to users, logins, public requests |
| AdminPages.BulkDeleteDoes | internal/web/admin.go:280-306 | a bulk delete that gets through with DELETE removes what it names, 1 to 1000 ids |
| AdminPages.RealmOfRun | internal/web/authn.go:97-133 | a run of the whole site is, to the gate, one of its runs, each route asking for its own authority |
| AdminPages.RunOwned | internal/web/web.go:107 | every edit on its way was begun by a request that got through with UPDATE to edit that link, and writes what that request's form asks for |
| AdminPages.OnlyAdminsChangeLinks | internal/web/web.go:103-110 | in every run of the whole site, a link changes in more than its last access, or goes before it has expired, only by a rightful request with UPDATE to edit that link or with DELETE that names it |
| AdminPages.OnlyAdminsSeeForms | internal/web/web.go:104-106 | in every run of the whole site, a link's form is shown only to a rightful request for that link |
| Authn.TheRightfulGetIn | internal/web/authn.go:89-133 | the cookie of a login opens the gate all through its time, for safe methods and with its CSRF token for the others |
| Authn.PasswordIsEnough | internal/web/authn.go:68-85 | so does the password, whatever dead cookie comes with it |
| Authn.PasswordChangeEnds | internal/auth/session.go:65-70 | once the stored hash is another one, the cookie of a session is worth nothing |
| RecentNumbers.SeparatorsDoNotMatter | internal/web/static/js/swosh.js:326-330 | characters other than 0 to 9 and + never matter for a number's key |
| RecentNumbers.SameNumber | internal/web/static/js/swosh.js:326-330 | both international forms have the national form as key; the national form itself exactly unless it starts like 0046 |
| RecentNumbers.SameKey | internal/web/static/js/swosh.js:326-330 | two texts have the same key exactly if they are the same without separators, or both spell one national number with +46, 0046 or 0 in front |
| RecentNumbers.OtherNumbers | internal/web/static/js/swosh.js:326-330 | "+46 (0)" and "46" in front of a number give other keys than its national form |
| RecentNumbers.Recent.RememberNumber | internal/web/static/js/swosh.js:86-92 | moves the number to the front, drops its other spelling and keeps three |
| RecentNumbers.Recent.Forget | internal/web/static/js/swosh.js:63-71 | drops every spelling of the number |
| RecentNumbers.BoundedIsPrefix | internal/web/static/js/swosh.js:59-92 | over every history of remembering and forgetting, no number is listed twice, there are at most three, and they start the endless list |
| RecentNumbers.EndlessIsHistory | internal/web/static/js/swosh.js:86-92 | a list that is never cut would be the history read backwards without repeats |
| RecentNumbers.CuttingLosesNothing | internal/web/static/js/swosh.js:86-92 | after any numbers remembered, the list is the first three of that |

## Left out

- HTTP itself: headers, cookies' attributes, body size limits, redirects for unclean paths, templates, and the
  pages that only show things (list, preview, index, login and logout forms).
- Postgres: each statement is one atomic step that takes effect wholly or not at all. That timestamptz keeps
  microseconds, and that text cannot hold NUL, is not modelled.
- `ImportSwosh` and `ListSwoshes`: the first is not used by the server and would break the conservation count,
  the second only reads.
- bcrypt, HMAC-SHA256 and random numbers: arguments, as said above.
- The phonenumbers library: a partial function whose results are trimmed and not blank. The two kinds of
  error that it leads to are one in the model.
- The QR code client, `editable`, `localPath`, languages, themes, metrics other than three counters, logging,
  configuration, command line and shutdown.
- `Run` in internal/expiry/expiry.go: its timer. Its sweeps are steps that may happen at any time.
- Rfc3339.RoundTrip: years outside 1 to 9999, which RFC 3339 cannot spell.
- Json.ParsePrinted: Go limits the depth of nesting and looks for an escape inside a time's raw text; the
  values here are shallow and the times have none. Bytes that are not UTF-8, which Go replaces, have no text
  in the model.
- Session.SessionRoundTrip: the nonce is an argument; that two logins draw different ones is a matter of chance.
- AdminForm.UntouchedEdit: line breaks that a browser rewrites when it posts a description, and the fields of
  the form that are only shown.
- Runs.Conservation: the counters move in the same step as the statement that they count; `Counters` has them
  follow in steps of their own. An admin's bulk delete may name any number of ids in a run; the limit of 1000 is in
  `Site.Server.AdminDeleteMany` and in `AdminPages`.
- Edits.FreshPageIsHarmless: that no other link takes the id is asked for besides, because a sweep and a create can
  replace a link that nobody deletes or edits; without it `Edits.PageIsHarmless` says what holds.
- CreateRequest.BareOrQuoted: bare texts that are decimal but not JSON, such as +5 and 007, are refused by the JSON
  decoder before UnmarshalJSON sees them.
- Edits.EditHitsTheRowShown: the list page shows the forms of many links; in a run it is as many showings in a row.
- AdminPages.OnlyAdminsChangeLinks: the list page is left out of what a request does.
- Authn.OnlyTheRightfulGetIn: the cross-origin check is a flag of the request; what browsers send is not modelled.
- The rest of the scripts: filtering, selection, clipboard, and `loadNumbers`, which reads back what was saved.
