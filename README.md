# Recursive backend: authentication guards, auth handlers, mail templates and catalogue listings

This project models the core of the Recursive record-label backend, an Express
service over a Supabase (PostgREST) database, and proves properties of it.

- **Guards** (`AuthMiddleware`): `verifyToken` reads the `Authorization`
  header, strips an exact `"Bearer "` prefix, verifies the JWT and writes the
  claims (`id`, `email`) onto the request. `isAdmin` looks up the caller's
  stored role and lets the request through only when it is exactly `"admin"`.
  The request, response and `next` callback are classes whose fields the
  guard methods update. The methods are proved against the pure decision
  functions `CheckToken`, `CheckRole` and `AdminGate`.
- **Auth handlers** (`AuthController`): sign-up, sign-in and sign-out. Each is
  an early-return chain over its collaborators (the users table, bcrypt hash
  and compare, JWT signing). Those collaborators are function parameters. Each
  outcome records the HTTP response and the sequence of collaborator calls
  made.
- **Mail templates** (`EmailService`): the rejection and acceptance bodies, and
  `sendEmail` over an abstract transport.
- **Catalogue listings** (`ArtistsController`, `ReleasesController`): each
  handler is modelled as the query it builds (a `Store.Request`: filters,
  order, row window, cap, exact count, single row) and as the response it
  gives for whatever the database returns. A `Selects` predicate gives each
  query its meaning on a row. The paged listings carry the intended row
  window (`Listing.Requested`); the window the code computes as written
  (`Listing.AsWritten`) is modelled beside it and the difference is logged
  under Findings.
- **Supporting semantics**:
  - `Js` models JavaScript's `+`, `-`, `*`, `Number(...)` and `parseInt` on
    the values a query string can hold.
  - `Listing` models the page window arithmetic.
  - `LikePattern` models PostgreSQL `ILIKE`, and PostgREST's rewriting of
    `*` to `%` in `like`/`ilike` operands.
  - `PostgrestOr` models the comma-separated `.or(...)` filter string.
  - `AuthFlow` connects sign-in to the guard: a token issued at sign-in passes
    `verifyToken` with the signed-in user's claims.

Database calls, JWT, bcrypt and mail sending are all oracles. The database,
JWT signing, bcrypt and the mail transport are functions returning
`Call<T> = Returned(value) | Threw(message)`, and database replies are
`{ data, count, error }` records. JWT verification is a function from the token
to its claims, or `None` when the token is refused. The handlers' behaviour is stated for
every such oracle.

## Model

| member | source | states |
|---|---|---|
| AuthMiddleware.ExtractToken | src/middleware/auth.middleware.js:17-19 | a header with the exact "Bearer " prefix yields the rest; any other header is used whole |
| AuthMiddleware.ExtractTokenOfBearer | src/middleware/auth.middleware.js:17-19 | stripping undoes prefixing: ExtractToken("Bearer " + t) == t |
| AuthMiddleware.OtherPrefixesKept | src/middleware/auth.middleware.js:17-19 | "bearer ", "BEARER " and "Bearer" without a space are not stripped |
| AuthMiddleware.CheckToken | src/middleware/auth.middleware.js:10-27 | no token iff the header is absent or empty; rejected iff the verifier refuses the extracted token; otherwise the verifier's claims |
| AuthMiddleware.TokenVerdict | src/middleware/auth.middleware.js:12-24 | proceeds iff the token verified; otherwise 403 "No token provided!" or 401 "Unauthorized!" |
| AuthMiddleware.CheckRole | src/middleware/auth.middleware.js:36-53 | failure iff the lookup throws; user not found iff the reply has an error or no row; admin iff the row's role is exactly "admin" |
| AuthMiddleware.RoleVerdict | src/middleware/auth.middleware.js:42-53 | proceeds iff admin; otherwise 404 "User not found!", 403 "Require Admin Role!" or 500 "Unable to validate user role!" |
| AuthMiddleware.AdminGate | src/routes/artists.routes.js:109 | a verified token gives the role verdict for the token user's row; any other token check gives the token verdict, which refuses |
| AuthMiddleware.AdminGateOpensIff | src/routes/artists.routes.js:109 | the handler behind verifyToken and isAdmin runs iff a non-empty header's token verifies and the token user's stored role is "admin" |
| AuthMiddleware.AdminGateStatuses | src/middleware/auth.middleware.js:9-54 | every refusal of the guard chain has status 401, 403, 404 or 500; "No token provided!" exactly when the header is absent or empty |
| AuthMiddleware.Request.constructor | src/middleware/auth.middleware.js:10 | a request starts with its headers and no user claims |
| AuthMiddleware.Request.Authorization | src/middleware/auth.middleware.js:10 | `req.headers["authorization"]`: present iff the request carries that header, and then its value |
| AuthMiddleware.Response.Send | src/middleware/auth.middleware.js:13 | `res.status(code).json({ message })` sets the status and the message |
| AuthMiddleware.Next.Invoke | src/middleware/auth.middleware.js:27 | calling next increases the call count by one |
| AuthMiddleware.VerifyToken | src/middleware/auth.middleware.js:9-29 | on a verified token, writes userId and userEmail from the claims, calls next once and leaves the response alone; otherwise sends TokenVerdict's status and message and changes nothing else |
| AuthMiddleware.IsAdmin | src/middleware/auth.middleware.js:34-54 | for an admin, calls next once and leaves the response alone; otherwise sends RoleVerdict's status and message and does not call next |
| AuthMiddleware.AdminRoute | src/routes/releases.routes.js:136 | the handler runs iff AdminGate proceeds; when it does not, the response carries AdminGate's status and message, and when it does the response is untouched; a verified token's id and email are written onto the request, which is otherwise unchanged; when the handler runs, the stored role of the request's userId is admin |
| AuthController.RoleOrUser | src/controllers/auth.controller.js:49 | `role \|\| "user"`: the result is never empty, is "user" iff the role is NULL, empty or "user", and is otherwise the stored role |
| AuthController.ViewOf | src/controllers/auth.controller.js:46-50 | the user object of a response carries the row's id and email and its role read with `\|\| "user"`, which is never empty |
| AuthController.SignUp | src/controllers/auth.controller.js:7-56 | the lookup, hash and insert are called in that order, each only after the one before succeeded; the inserted row carries role "user"; 400 "User already exists" iff the lookup found a row; a 201 carries the inserted user; the status is always 201, 400 or 500; 201 iff the lookup found no row, the hash returned and the insert returned a row without error; 500 "Internal server error" iff the lookup, hash or insert threw, or the insert returned neither row nor error |
| AuthController.SignUpForcesUserRole | src/controllers/auth.controller.js:27-37 | a role in the request body is ignored: the inserted role is "user" and adding role "admin" to the body changes nothing |
| AuthController.SignUpIgnoresLookupError | src/controllers/auth.controller.js:12-20 | the lookup's error field plays no part: two lookups with the same data give the same outcome |
| AuthController.SignUpInsertError | src/controllers/auth.controller.js:39-42 | a failed insert answers 400 with the store's own message |
| AuthController.FoundUser | src/controllers/auth.controller.js:69 | a sign-in lookup yields a user iff it returned without error and with a row, and then that row |
| AuthController.SignIn | src/controllers/auth.controller.js:58-93 | status 200, 401 or 500; every 401 is the same "Invalid credentials"; it is given iff the lookup returned no user or the password compare returned false; a 200 means the password matched and the token was signed over exactly { id, email } for "1h"; 200 iff the user is found, the compare returns true and signing returns; 500 iff the lookup threw, or the compare threw for a found user, or signing threw after a match |
| AuthController.UnknownEmailLooksLikeWrongPassword | src/controllers/auth.controller.js:69-77 | an unknown email and a wrong password give identical responses |
| AuthController.SignOut | src/controllers/auth.controller.js:95-99 | sign-out keeps no state: every request gets 200 "Logout successful" |
| AuthFlow.SignedInTokenPassesVerifyToken | src/controllers/auth.controller.js:80-88 | with a verifier that accepts what the signer signs, the token of a successful sign-in passes verifyToken as "Bearer " + token, with the signed-in user's id and email |
| EmailService.Interpolate | src/services/email.service.js:16 | the `${process.env.EMAIL_USER}` placeholder of the From header prints a present setting as it is |
| EmailService.Sender | src/services/email.service.js:16 | the From header is `"Recursive Recordings" <EMAIL_USER>`, with "undefined" in the brackets when the setting is absent |
| EmailService.SendEmail | src/services/email.service.js:13-27 | the recipient, subject and body reach the transport unchanged; it fails iff the transport fails |
| EmailService.RejectionHtml | src/services/email.service.js:31-37 | the rejection body is a fixed opening, the artist name, and a fixed closing, with the length of the three together |
| EmailService.RejectionNameRecovered | src/services/email.service.js:31-37 | the artist name is the only variable part of the rejection body and can be read back from it |
| EmailService.RejectionHtmlInjective | src/services/email.service.js:31-37 | different artist names give different rejection bodies |
| EmailService.SendRejectionEmail | src/services/email.service.js:29-39 | sends the rejection subject and the rejection body for this name to the given address |
| EmailService.CustomMessageVerbatim | src/services/email.service.js:50-51 | a non-empty custom message is embedded verbatim between greeting and sign-off and can be read back |
| EmailService.DefaultAcceptanceHtml | src/services/email.service.js:43-48 | the default acceptance body is the same fixed opening, the artist name, and its own fixed closing |
| EmailService.AcceptanceHtml | src/services/email.service.js:50-52 | the body is the default acceptance body iff the custom message is absent or empty (falsy) |
| EmailService.DefaultWithoutMessage | src/services/email.service.js:43-52 | an absent or empty custom message gives the default acceptance body |
| EmailService.CustomDiffersFromDefault | src/services/email.service.js:43-52 | a custom acceptance body never equals a default one, whatever the names |
| EmailService.NameInsertedUnescaped | src/services/email.service.js:31-51 | the artist name appears verbatim, without HTML escaping, in every template |
| EmailService.SendAcceptanceEmail | src/services/email.service.js:41-55 | sends the acceptance subject and the custom or default body to the given address |
| EmailService.TransportFailureRethrown | src/services/email.service.js:23-26 | a transport failure reaches the caller of either helper with the same message |
| Store.FailureOf | src/controllers/artists.controller.js:12-16 | the error a handler reports: the thrown message, or the message of the error the store returned; none when the reply has no error |
| Js.Plus | src/controllers/artists.controller.js:23 | `+` gives a string iff either operand is a string |
| Js.NumberStringRoundTrip | src/controllers/artists.controller.js:23 | a number printed as a string reads back as the same number |
| Js.StringToNumber | src/controllers/artists.controller.js:22-23 | `Number(s)` of a query string: a negative result needs a leading minus sign, and a numeric result comes from the empty string or a string ending in a (hexadecimal) digit |
| Js.ParseInt | src/controllers/artists.controller.js:41 | parseInt of a number (a default page or limit) returns it unchanged |
| Js.ParseIntStringOfNumber | src/controllers/artists.controller.js:41 | parseInt of a printed integer reads back that integer |
| Js.HexadecimalString | src/controllers/artists.controller.js:41 | "0x10" reads as 16 under both parseInt and Number |
| Js.ParseIntOfDigits | src/controllers/artists.controller.js:41 | parseInt of a digit string is the number those digits denote |
| Js.DigitsValueAppend | src/controllers/artists.controller.js:23 | the value of a concatenation of digit strings is the first shifted left by the second's length, plus the second |
| Listing.Param | src/controllers/artists.controller.js:21 | a query parameter present gives its string; absent gives its default |
| Listing.AsWritten | src/controllers/artists.controller.js:22-23 | the window as the code computes it: it starts where the intended window starts, and equals the intended window whenever the limit is already a number |
| Listing.Requested | src/controllers/artists.controller.js:22-23 | for integer page p and limit l the window is [(p-1)·l, (p-1)·l + l - 1], exactly l rows; a non-numeric page or limit gives a NaN window |
| Listing.DefaultWindow | src/controllers/artists.controller.js:21-23 | without page and limit both versions request rows 0..9 |
| Listing.ConsecutivePagesAdjacent | src/controllers/releases.controller.js:31-32 | page p+1 starts right after page p ends |
| Listing.EachRowOnOnePage | src/controllers/releases.controller.js:31-32 | for a positive limit, row i lies in page p's window iff p = i div l + 1 |
| Listing.ConcatenatedValue | src/controllers/artists.controller.js:23 | `String(from) + limit` read as a number is from shifted left by limit's digit count, plus limit |
| Listing.AsWrittenAgreesIff | src/controllers/artists.controller.js:22-23 | for an integer page and a limit that is an integer or an unsigned digit string, the window as written equals the intended one iff the limit is a number or the window starts at row 0 |
| Listing.SecondPageAsWritten | src/controllers/releases.controller.js:31-32 | page "2", limit "10" as written requests rows 10..1009; the intended window is 10..19 |
| Listing.ThirdPageAsWritten | src/controllers/releases.controller.js:31-32 | page "3", limit "5" as written requests rows 10..104; the intended window is 10..14 |
| Listing.FirstPageAsWritten | src/controllers/artists.controller.js:22-23 | page "1", limit "10" as written happens to give the intended window 0..9 |
| Listing.EchoMatchesWindowInputs | src/controllers/artists.controller.js:41 | for defaults and digit strings, the echoed parseInt value equals the number the window uses |
| Listing.EchoDivergesOnTrailingText | src/controllers/artists.controller.js:41 | limit "10abc" is echoed as 10 while the window is computed from NaN |
| LikePattern.PercentMatchesAll | src/controllers/artists.controller.js:34 | the pattern "%" matches every text |
| LikePattern.LiteralPrefix | src/controllers/artists.controller.js:34 | for a literal q, the pattern q + "%" matches exactly the texts that start with q |
| LikePattern.LeadingPercent | src/controllers/artists.controller.js:34 | a leading "%" matches iff some suffix of the text matches the rest |
| LikePattern.SubstringPattern | src/controllers/artists.controller.js:34 | for a literal q, "%q%" matches iff q occurs in the text |
| LikePattern.ILikeSearch | src/controllers/artists.controller.js:33-35 | for a literal q, ILIKE "%q%" holds iff the lower-cased q occurs in the lower-cased text |
| LikePattern.StarsAsPercent | src/controllers/artists.controller.js:34 | PostgREST's operand rewrite keeps the length and turns each `*` into `%`, leaving every other character as it is |
| LikePattern.PostgrestSearch | src/controllers/artists.controller.js:34 | for a literal q (no `%`, `_`, `\`, `*`), the PostgREST ilike "%q%" holds iff the lower-cased q occurs in the lower-cased text |
| LikePattern.StarSearchMatchesAnything | src/controllers/artists.controller.js:34 | the search "*" becomes "%%%" and matches every text |
| LikePattern.UnderscoreSearchMatchesAnything | src/controllers/artists.controller.js:34 | the search "_" is a wildcard: it matches a text iff the text is non-empty |
| LikePattern.UnderscoreNotContained | src/controllers/artists.controller.js:34 | the name "mozart" holds no underscore, yet the search "_" lists it (UnderscoreSearchMatchesAnything) |
| PostgrestOr.Split | src/controllers/releases.controller.js:56 | splitting gives at least one part and no part holds the separator |
| PostgrestOr.JoinSplit | src/controllers/releases.controller.js:56 | joining the parts with the separator gives back the string |
| PostgrestOr.ParsePrintTerm | src/controllers/releases.controller.js:56 | a `column.operator.operand` condition whose column and operator have no dot parses back to itself when its operand holds no `)`, and does not parse when it does |
| PostgrestOr.ParseTwoTerms | src/controllers/releases.controller.js:56 | two comma-free conditions joined by a comma parse back as those two, unless an operand holds a `)`, in which case the string does not parse |
| PostgrestOr.ParseTermsMalformed | src/controllers/releases.controller.js:56 | one malformed condition makes the whole `.or(...)` string unreadable |
| ArtistsController.FeaturedArtistsSelection | src/controllers/artists.controller.js:5-10 | the featured listing selects exactly the active, featured artists |
| ArtistsController.FeaturedArtistsRequest | src/controllers/artists.controller.js:5-10 | the featured listing caps at 4 rows, with no order and no window |
| ArtistsController.GetFeaturedArtists | src/controllers/artists.controller.js:3-18 | 500 with the error's message iff the query fails, otherwise 200 with the rows |
| ArtistsController.AllArtistsRequest | src/controllers/artists.controller.js:20-35 | status "active", plus a name ILIKE "%q%" exactly when q is truthy, ordered by name ascending, exact count, over the requested window |
| ArtistsController.AllArtistsSelection | src/controllers/artists.controller.js:29-35 | for a literal q, an artist is listed iff it is active and, when q is truthy, its lower-cased name contains the lower-cased q |
| ArtistsController.StarSearchListsEveryActiveArtist | src/controllers/artists.controller.js:33-35 | with q = "*" an artist is listed iff it is active, whatever its name |
| ArtistsController.UnderscoreSearchListsEveryActiveArtist | src/controllers/artists.controller.js:33-35 | with q = "_" an artist is listed iff it is active and its name is non-empty |
| ArtistsController.AllArtistsDefaultWindow | src/controllers/artists.controller.js:21-30 | without page and limit the first ten rows are requested |
| ArtistsController.GetAllArtists | src/controllers/artists.controller.js:20-45 | 500 with the error's message iff the query fails; otherwise a page of rows, the count, and parseInt of page and limit |
| ArtistsController.AllArtistsEchoesDefaults | src/controllers/artists.controller.js:21-41 | without page and limit the response echoes page 1 and limit 10 |
| ArtistsController.ArtistBySlugRequest | src/controllers/artists.controller.js:51-55 | the lookup is a single-row request whose only filter is slug equal to the parameter |
| ArtistsController.GetArtistBySlug | src/controllers/artists.controller.js:47-63 | the status is 200 or 500; 500 with the error's message iff the lookup fails; 200 with the single row otherwise |
| ArtistsController.UnknownSlugIsServerError | src/controllers/artists.controller.js:57-62 | an unknown slug (`.single()` finds no row) answers 500, not 404 |
| ReleasesController.FeaturedReleasesRequest | src/controllers/releases.controller.js:5-19 | the featured listing caps at 4 rows, newest release first, with no window and no genre join |
| ReleasesController.FeaturedReleasesSelection | src/controllers/releases.controller.js:16-17 | the featured listing selects exactly the released, featured releases |
| ReleasesController.GetFeaturedReleases | src/controllers/releases.controller.js:3-27 | 500 with the error's message iff the query fails, otherwise 200 with the rows |
| ReleasesController.SearchConditions | src/controllers/releases.controller.js:54-57 | for a comma-free q, the search string reads back as exactly a title and a catalog_code ILIKE "%q%" condition when q holds no `)`, and does not parse when it does |
| PostgrestOr.SeparatorCount | src/controllers/releases.controller.js:56 | splitting yields one more part than there are separators |
| ReleasesController.CommaInSearchAddsConditions | src/controllers/releases.controller.js:56 | a comma in q is not quoted, so the search string splits into more than two conditions |
| ReleasesController.AllReleasesRequest | src/controllers/releases.controller.js:29-62 | status "released", then the search string when q is truthy, then the genre slug when genre is truthy; inner genre join, newest first, exact count, over the requested window |
| ReleasesController.SearchSelection | src/controllers/releases.controller.js:56 | for a literal, comma-free q, the search holds iff q holds no `)` and occurs case-insensitively in the title or in a non-NULL catalog code |
| ReleasesController.AllReleasesSelection | src/controllers/releases.controller.js:44-62 | a release is listed iff it is released, has a genre, matches a truthy q (which must hold no `)`) in title or catalog code, and has a genre with the slug of a truthy genre parameter |
| ReleasesController.StarSearchMatchesEveryRelease | src/controllers/releases.controller.js:54-57 | with q = "*" the search holds for every release, whatever its title |
| ReleasesController.ParenthesisSearchListsNothing | src/controllers/releases.controller.js:54-57 | the search "Song (Remix)" does not parse, so no release is listed |
| ReleasesController.CommaSearchListsNothing | src/controllers/releases.controller.js:54-57 | when the text after the last comma of q holds no dot, the search string does not parse and no release is listed |
| ReleasesController.HelloWorldSearchListsNothing | src/controllers/releases.controller.js:54-57 | the search "Hello, World" does not parse, so no release is listed |
| ReleasesController.GenrelessReleaseNeverListed | src/controllers/releases.controller.js:44-46 | because of the inner join, a release without genres is never listed |
| ReleasesController.AllReleasesDefaultWindow | src/controllers/releases.controller.js:30-32 | without page and limit the first ten rows are requested |
| ReleasesController.GetAllReleases | src/controllers/releases.controller.js:29-72 | 500 with the error's message iff the query fails; otherwise a page of rows, the count, and parseInt of page and limit |
| ReleasesController.ReleaseBySlugRequest | src/controllers/releases.controller.js:78-93 | the lookup is a single-row request with the outer-joined genres embed (not the inner join of the listing) |
| ReleasesController.ReleaseBySlugSelection | src/controllers/releases.controller.js:92-93 | the slug lookup selects exactly the release with that slug |
| ReleasesController.GetReleaseBySlug | src/controllers/releases.controller.js:74-101 | the status is 200 or 500; 500 with the error's message iff the lookup fails; 200 with the single row otherwise |

## Left out

- Supabase itself is not modelled: running queries, embeds and joins, `count: "exact"`, `.range` clipping, `.limit` and `.single()`. Each query is modelled as the request it builds, and its result is an oracle. `Selects` gives a request's filters their meaning on one row; ordering, windowing and capping of the result are not.
- JWT signing and verification, and bcrypt hashing and comparison, are oracles. `AuthFlow` assumes only that the verifier accepts what the signer signed.
- The mail transport is an oracle. The transport options at src/services/email.service.js:3-11 (host, port, credentials) are not modelled; `secure` is always true there and plays no part.
- Route wiring, configuration, the Express app and the server start-up are not part of this model. Only the guard chain in front of admin routes is modelled, as `AdminGate` and `AdminRoute`.
- The dashboard, hero-spotlight, genre and submission controllers, and the admin create, update and delete handlers, are not part of this model.
- Console logging and concurrency between requests are left out; each handler is modelled as one request against fixed oracle answers.
- Js.StringToNumber: decimal and `0x` hexadecimal integers are modelled; surrounding whitespace, fractions, exponents, `0b`/`0o` prefixes and "Infinity" all read as NaN. Query values of that kind are outside the modelled inputs.
- Js.ParseInt: decimal and `0x` hexadecimal prefixes are modelled, but leading whitespace is not skipped, and numbers are exact integers, without rounding beyond 2^53.
- LikePattern.Lower: case folding is ASCII only, and a pattern that ends in an unpaired backslash matches nothing.
- PostgrestOr.ParseOr: PostgREST quoting and parenthesised groups are not modelled. An unquoted operand holding `)` is malformed; a `)` in a column or an operator is not checked. A string that does not parse selects nothing, where the service would report an error.
- SearchSelection, AllReleasesSelection, ParenthesisSearchListsNothing: for a q holding `)` they state that nothing is selected. PostgREST rejects such a request, and the handler's 500 then comes only through the store oracle's error, which the model does not tie to the malformed string.
- SearchSelection, AllReleasesSelection: stated only for a comma-free q. A comma is not quoted either: when the text after q's last comma holds no dot, nothing is listed (CommaSearchListsNothing), with the 500 again only through the store oracle; when it holds dots, the pieces can parse as further conditions of the searcher's choosing, and which releases are then listed is not stated.
- Query parameters are single strings. Express can also give arrays for repeated parameters; those are not modelled.
- AllArtistsRequest, AllReleasesRequest: the request carries the intended window `Listing.Requested`, not the `.range` the code passes (`Listing.AsWritten`); the two differ for a string limit past page 1, as logged under Findings.
- AllArtistsSelection, SearchSelection, AllReleasesSelection: stated for a q without pattern characters (`%`, `_`, `\`, `*`). The StarSearch and UnderscoreSearch lemmas show what the wildcards do.
- ReleasesController.Selects: the genre filter is read as "some joined genre has this slug". That relies on the inner join in the same query.
- The `release_artists` and `artists` embeds are not modelled: they add columns to each row but do not change which rows are selected.
- EmailService.RejectionHtml, DefaultAcceptanceHtml, AcceptanceHtml: the artist name is taken as a string. An undefined or NULL name, printed as "undefined" or "null", and a non-string custom message are not modelled.
- Only the `message` of a JSON body is tracked by the guard classes. `AuthController` and the listing handlers model the full body as a datatype.

## Findings

| source | as written | input that shows it | evidently intended | confidence | as-written member | corrected member |
|---|---|---|---|---|---|---|
| src/controllers/artists.controller.js:22-23 | `to = from + limit - 1`, where limit comes from the query string, so `+` concatenates | page "2", limit "10": from = 10, and "10" + "10" gives "1010", so to = 1009 | to = from + Number(limit) - 1 = 19, ten rows | not executed | Listing.AsWritten (shown by Listing.SecondPageAsWritten) | Listing.Requested |
| src/controllers/releases.controller.js:31-32 | the same window computation, with limit a query-string value | page "3", limit "5": from = 10, and "10" + "5" gives "105", so to = 104 | to = 14, five rows | not executed | Listing.AsWritten (shown by Listing.ThirdPageAsWritten) | Listing.Requested |
