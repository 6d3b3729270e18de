# bank0: verified model

A Dafny model of the parts of bank0 whose correctness is hard to see by reading one function,
with machine-checked proofs of what they guarantee. `dafny verify dfyconfig.toml` checks the
whole project.

Seven components are modelled:

- **Rate limiter** (`RateLimiter`, `RateLimiterRuns`). `RateLimiter.Limiter` is the mutable map of
  slices: each is pruned in place over its own backing array, and an occasional sweep evicts keys.
  The methods are proved against a pure step function, and whole runs of that function against
  the log of every event ever admitted, a log the limiter does not keep.
- **Client address** (`ClientIp`). The choice of CF-Connecting-IP, or of an X-Forwarded-For entry
  from the right, that keys the limiter, exactly when a client can influence it, and the end-to-end
  bound on one address that the two give together.
- **Keyset lists** (`Keyset`, `TimestampCursors`, `Pager`, with `JsonStrings` and `Base64Url`). The
  `(created_at, id) < (cursor, cid)` queries under concurrent writes, the two lists that page by
  timestamp alone, and the console's stateless Prev/Next pager, whose cursor stack travels in the
  URL as base64url-encoded JSON, shown to refine OFFSET paging.
- **IBAN check digits** (`Iban`). The per-character fold as big-number arithmetic modulo 97, the
  agreement of generator and validator, and exactly which errors the checksum catches.
- **Euro amounts** (`Money`, `MoneyTexts`). Printer and parser over 64-bit minor units with
  wrap-around: what every shape of typed amount is read as, or why it is refused.
- **Step-up tokens** (`Tokens`, `StepUp`, `StepUpAnswers`, `StepUpRuns`, with `Uuids`). Login, second
  factor, refresh and the transfer gate as one state machine: exactly what each request is answered,
  and theorems over every run of requests.
- **The ledger** (`Ledger`, `LedgerBooks`, `LedgerEffects`, `LedgerTheorems`, `LedgerReplay`). The
  PL/pgSQL transactions of the money path, exactly when each commits and what it changes, the
  correctness contract of the books after every run of them, and what a repeated request comes to.

`Wrappers`, `Strings` and `Decimal` hold what these share.

## Where code and documentation disagree

The model follows the code.

- `internal/money/money.go:43-45` says that with both separators present '.' is the decimal point;
  lines 55-63 make the last separator the decimal one, so "1.234.567,89" is read as grouped by
  points.
- `internal/money/money.go:39-41` says empty and garbage amounts are rejected. A bare sign or a bare
  comma is read as zero (`MoneyTexts.BareMarks`), and the whole part and the cents each admit a sign
  of their own (`MoneyTexts.SignedParts`).
- `docs/02-data-model.md:537` (I12) says replaying an idempotency key never creates a second
  transfer. A replay is answered with the first transfer and changes nothing if and only if no
  cleanup in between dropped the key's record (`LedgerReplay.ReplayIsHarmless`);
  `LedgerReplay.CleanedKeyIsForgotten` follows one run in which it creates a second.
- `internal/api/jwt.go:74-76` says a pending-login token cannot be replayed on client routes. Such a
  token is admitted exactly when the configured client audience is the pending-login one, the token
  is unexpired, and, if it is under forced rotation, the route is one of the two allowed
  (`StepUpRuns.PendingTokenIsIsolated`).
- The comment at `internal/db/sqlc/account_self_service.sql.go:42-43` says the compare of
  `ListLimitRequests` degrades to "not newer". It still leaves out a row at the cursor's timestamp
  whose id is the greatest uuid; and, being "not newer", it makes every page of an unchanging table
  start with a row of the page before, unless that page ends in such an id
  (`TimestampCursors.BoundaryRepeatsExactly`).

## Hypotheses of the theorems

- Limiter claims that speak of exactness need calls in nondecreasing time: the clock is read before
  the lock is taken. `RateLimiterRuns.StepBackBreaks` shows the hypothesis is needed for every
  sensible limiter; `RateLimiterRuns.NeverStricter` needs none.
- `ClientIp` claims that a client cannot influence its key suppose that CF-Connecting-IP is written by
  the edge, which sets it or lets none through; where it reaches the server from the client, it is
  the key (`ClientIp.CloudflareHeaderWins`), and `ClientIp.ClientProofExactly` covers that case.
- SHA-256 is symbolic and injective, tokens are unforgeable, and signing does not fail. What the
  database answers (`evaluate_transfer`, `mfa_enabled`, lockouts, rotation) and whether a code is
  right are arbitrary inputs of every request; so is who presents which issued token. The step-up
  maximum age is below the largest duration, at which the library's subtraction saturates and every
  factor would count as fresh.
- Pager theorems ask of the timestamp and uuid text codecs that keys of the table read back
  (`Pager.Codec.Faithful`), and that a row's text is ASCII.
- Ledger transactions on the same rows run one after the other, as their row locks make them.
  `post_transfer` is called from a live state, as every caller in the repository does.

## Model

| member | source | states |
|---|---|---|
| Iban.Mod97 | internal/iban/iban.go:130-145 | The fold returns the unbounded integer its text denotes (letters as two digits) modulo 97, for every string |
| Iban.AccumulatorBound | internal/iban/iban.go:130-142 | Before each reduction the fold holds at most 9635, a bound that is reached, after any text |
| Iban.NumeralIsExpansion | internal/iban/iban.go:130-145 | Reading character by character is reading the whole decimal expansion as one number |
| Iban.ResidueComposes | internal/iban/iban.go:130-145 | The residue of a concatenation is determined by the two residues and the decimal width of the second part |
| Iban.Normalize | internal/iban/iban.go:36-52 | The loop computes the electronic form, which `BlankIsDropped`, `CaseIsForgotten` and `PrintedFormReads` characterise |
| Iban.BlankIsDropped | internal/iban/iban.go:45-46 | A space, tab, line feed or carriage return anywhere changes nothing |
| Iban.CaseIsForgotten | internal/iban/iban.go:43-44 | The lower-case form of an electronic form reads as it |
| Iban.PrintedFormReads | internal/iban/iban.go:36-52 | Any printed form, in any grouping and letter case, reads as the electronic form |
| Iban.ElectronicIsIdempotent | internal/iban/iban.go:36-52 | Normalising twice is normalising once, and leaves no blank |
| Iban.CountryLength | internal/iban/iban.go:19-34 | Every country in the table has a two-letter code and a length from 15 to 33 |
| Iban.Registry1 | internal/iban/iban.go:22-33 | Registry entries, country by country (part 1 of 6) |
| Iban.Registry2 | internal/iban/iban.go:22-33 | Registry entries, country by country (part 2 of 6) |
| Iban.Registry3 | internal/iban/iban.go:22-33 | Registry entries, country by country (part 3 of 6) |
| Iban.Registry4 | internal/iban/iban.go:22-33 | Registry entries, country by country (part 4 of 6) |
| Iban.Registry5 | internal/iban/iban.go:22-33 | Registry entries, country by country (part 5 of 6) |
| Iban.Registry6 | internal/iban/iban.go:22-33 | Registry entries, country by country (part 6 of 6) |
| Iban.Assess | internal/iban/iban.go:54-81 | A text is valid exactly when it is well formed for its country and its rearrangement leaves remainder 1 |
| Iban.ComplaintsMean | internal/iban/iban.go:56-81 | Exactly which texts draw each complaint |
| Iban.Validate | internal/iban/iban.go:54-81 | The loop with early returns gives the verdict, error by error, of the normalised text, hence of every electronic form it is a printed form of |
| Iban.Compute | internal/iban/iban.go:86-106 | The loop with early returns builds the IBAN the check-digit rule assigns, or the right complaint |
| Iban.IssuedExactly | internal/iban/iban.go:89-106 | What can be issued: a registered country and a BBAN of its length, in either letter case; otherwise which complaint |
| Iban.BadBbanExactly | internal/iban/iban.go:99-103 | A BBAN of the right length is refused exactly for a character that is no digit or letter |
| Iban.Generate | internal/iban/iban.go:108-128 | Whatever is generated validates, for the country asked for, with the digits drawn; it fails exactly when a draw fails or the country is unknown |
| Iban.AcceptedExactlyWhen | internal/iban/iban.go:77-106 | A well-formed IBAN is accepted exactly when its check digits are the generator's, or the aliases 00, 01, 99 of 97, 98, 02 |
| Iban.IssuedIsValid | internal/iban/iban.go:86-106 | Whatever Compute builds, Validate accepts, and it carries the country and BBAN asked for |
| Iban.AcceptedIsIssued | internal/iban/iban.go:56-106 | Any accepted IBAN with check digits 02 to 98 is what Compute builds from its own country and BBAN |
| Iban.StepIsInjective | internal/iban/iban.go:137-142 | A step of the fold merges no two remainders, 10 being invertible modulo 97 |
| Iban.SuffixKeepsDifference | internal/iban/iban.go:133-145 | A common suffix neither hides nor creates a difference of residues |
| Iban.SubstitutionIsCaught | internal/iban/iban.go:56-81 | Replacing one BBAN digit by another, or one letter by another, in a valid IBAN always fails the checksum |
| Iban.TranspositionIsCaught | internal/iban/iban.go:56-81 | Swapping two different adjacent BBAN characters of a valid IBAN fails the checksum, except exactly for B/1, M/2 and X/3 |
| Money.ParseEuros | internal/money/money.go:47-99 | The sequence of rewrites and early returns computes the meaning of the text, error kind by error kind |
| Money.StylesAgree | internal/money/money.go:47-99 | Plain, comma-grouped and dot-grouped writings of any amount parse alike, with or without sign and groups |
| Money.ExactIffRepresentable | internal/money/money.go:74-98 | In each style the parse is exact if and only if the value fits 64 bits |
| Money.CommaGroupedWhole | internal/money/money.go:64-69 | Comma-grouped whole euros are read as groups, never as decimals |
| Money.DotGroupedWhole | internal/money/money.go:73-88 | Dot-grouped whole euros from one thousand up are refused, never misread; below, they are exact |
| Money.OneDecimal | internal/money/money.go:64-85 | One decimal counts tenths, after a point or a comma alike |
| Money.RoundTrip | internal/money/money.go:12-99 | Parsing either printed form gives back every int64 amount, the least one included |
| Money.LeastValueRoundTrips | internal/money/money.go:27-37 | The least value, whose negation is itself, prints as --92233720368547758.-8, which still parses to it |
| Money.RenderedCleans | internal/money/money.go:12-49 | With and without the symbol, a printed amount cleans to the same text |
| Money.UngroupedIsPlain | internal/money/money.go:59-68 | Dropping the group separators of a number of any size leaves its plain digits |
| Money.WrapIsCongruent | internal/money/money.go:94-97 | Sums and negations wrap to the congruent 64-bit value |
| MoneyTexts.BlanksAround | internal/money/money.go:48 | White space around an amount changes nothing |
| MoneyTexts.MarkInside | internal/money/money.go:49 | A space inside an amount, or a euro sign anywhere in it, changes nothing |
| MoneyTexts.NothingIsEmpty | internal/money/money.go:48-52 | Nothing but spaces and euro signs is an empty amount |
| MoneyTexts.SomethingIsNotEmpty | internal/money/money.go:48-52 | A text with any other visible character is not |
| MoneyTexts.PointRule | internal/money/money.go:73-93 | After a point one or two digits are decimals, more are refused, none is invalid; the digits before may be missing |
| MoneyTexts.CommaRule | internal/money/money.go:64-69 | A single comma is decimal with one or two digits after it, a group mark with none or more |
| MoneyTexts.BareMarks | internal/money/money.go:71-76 | A sign or a comma alone is read as zero |
| MoneyTexts.ManyCommas | internal/money/money.go:64-69 | Several commas and no point are all group marks, wherever they stand |
| MoneyTexts.SpaceGrouped | internal/money/money.go:47-99 | Amounts grouped by spaces with a decimal comma, with or without "€ " in front, parse like the other styles |
| MoneyTexts.TwoPoints | internal/money/money.go:73-93 | Two points and no comma are never an amount |
| MoneyTexts.TwoCommasAfterPoint | internal/money/money.go:58-60 | With a point before them two commas are never an amount: only the first becomes the decimal point |
| MoneyTexts.SignedParts | internal/money/money.go:71-97 | The whole part and the cents each admit a sign of their own, and what they then denote |
| MoneyTexts.ForeignIsRefused | internal/money/money.go:77-93 | A character that is no digit, sign, separator, blank or euro sign makes any text no amount |
| MoneyTexts.WrittenForms | internal/money/money.go:12-37 | The printed forms, character by character, symbol and sign in place |
| RateLimiter.Limiter.constructor | internal/api/ratelimit.go:23-25 | A new limiter holds nothing and has never swept |
| RateLimiter.Limiter.Prune | internal/api/ratelimit.go:35-40 | Filtering in place over the slice's own array keeps exactly the events after the cutoff, in order |
| RateLimiter.Limiter.AnyAfter | internal/api/ratelimit.go:57-63 | The scan with early exit finds an event in the window exactly when there is one |
| RateLimiter.Limiter.Evict | internal/api/ratelimit.go:56-67 | Exactly the keys with an event in the window survive, their slices untouched |
| RateLimiter.Limiter.Sweep | internal/api/ratelimit.go:49-68 | The whole state after the sweep, which runs at most once per window |
| RateLimiter.Limiter.Append | internal/api/ratelimit.go:45 | Appending adds one event, in place when there is room, else in an array of its own |
| RateLimiter.Limiter.Allow | internal/api/ratelimit.go:27-47 | One call leaves exactly the state, and gives exactly the decision, of the pure step; no two keys ever share an array |
| RateLimiterRuns.Serve | internal/api/ratelimit.go:23-47 | A new limiter object, called in turn, decides each call as the run theorems say, and in nondecreasing time as the full log would |
| RateLimiterRuns.CacheShowsLog | internal/api/ratelimit.go:29-68 | From the last cutoff on, the events kept for a key are exactly those its full log shows |
| RateLimiterRuns.DecidesAsFullLog | internal/api/ratelimit.go:29-68 | In every nondecreasing-time run a call is admitted exactly when the log holds fewer than limit admitted events strictly later than the window's start |
| RateLimiterRuns.NeverStricter | internal/api/ratelimit.go:29-68 | Whatever the clock does, no call is refused that the full log would admit |
| RateLimiterRuns.StepBackBreaks | internal/api/ratelimit.go:29-77 | For every sensible limiter and every step back of the clock there is a run ending in a decision the full log would not make |
| RateLimiterRuns.KeysDoNotInterfere | internal/api/ratelimit.go:29-68 | A key's decisions in any interleaved run are those of the run without all other keys' calls |
| RateLimiterRuns.AdmissionsAreSpaced | internal/api/ratelimit.go:32-46 | In any run, limit admissions of a key later, at least a window has passed |
| RateLimiterRuns.AtMostLimitPerWindow | internal/api/ratelimit.go:32-46 | No half-open window, wherever it starts, holds more than limit admissions of a key |
| RateLimiterRuns.SpacedMeansFew | internal/api/ratelimit.go:41-45 | Spaced events leave at most limit of them in any window |
| RateLimiterRuns.RetentionBound | internal/api/ratelimit.go:35-68 | After every call each key held has an event younger than two windows, in a sorted slice of 1 to limit entries |
| RateLimiterRuns.CallTouches | internal/api/ratelimit.go:49-68 | Sweeps are at least a window apart and evict exactly the other keys with no event in the window; between them a call leaves every other key alone |
| ClientIp.SplitConcat | internal/api/auth.go:68 | Splitting what was sent and what was appended is splitting each |
| ClientIp.SplitJoin | internal/api/auth.go:68 | Splitting a joined list of comma-free entries gives the list back |
| ClientIp.UntrustedKey | internal/api/auth.go:62-81 | Without trusted headers the key is the peer's host, or the remote address if it has no port, whatever the headers |
| ClientIp.TrustedKey | internal/api/auth.go:62-81 | With trusted headers the key is CF-Connecting-IP, else the hops-th entry from the right, or the left-most if there are fewer, else the peer's host |
| ClientIp.AppendedEntryWins | internal/api/auth.go:62-81 | With no CF-Connecting-IP arriving and at least hops entries appended, the address is the hops-th from the right, whatever X-Forwarded-For the client sent |
| ClientIp.FirstProxyDecides | internal/api/auth.go:62-81 | With no CF-Connecting-IP arriving and exactly hops entries appended, it is the address the first proxy saw |
| ClientIp.CloudflareHeaderWins | internal/api/auth.go:63-66 | A CF-Connecting-IP that arrives at a trusting server is the key, whatever else the request says |
| ClientIp.ClientProofExactly | internal/api/auth.go:55-81 | The client cannot influence the key if and only if headers are not trusted, or the edge writes CF-Connecting-IP and either sets it or at least hops entries are appended |
| ClientIp.PeerIsBounded | internal/api/ratelimit.go:29-77 | In any stream, the requests attributed to one address, by the CF-Connecting-IP that arrives, by the first trusted proxy, or by the connection itself, are together admitted at most limit times in any window, whatever X-Forwarded-For prefixes and ports they rotate |
| Keyset.Query | internal/db/sqlc/search.sql.go:163-179 | Newest first, only rows strictly below the cursor, the topmost n of them, and all of them when fewer than n |
| Keyset.MissingIdSkipsTies | internal/db/sqlc/search.sql.go:167-168 | With a timestamp but no id, only strictly older rows are shown, newest first |
| Keyset.SortedIsUnique | internal/db/sqlc/search.sql.go:177 | The order fixes the answer: two descending lists of the same rows are equal |
| Keyset.Paginate | internal/api/console_handlers.go:221-235 | The probe row is dropped, a following page reported exactly when there was one, with the last shown row's cursor |
| Keyset.PageFacts | internal/api/console_handlers.go:226-235 | A page shows matching rows below its cursor; all those it leaves out lie below its last row, and none are left out on the last page |
| Keyset.WalkDescends | internal/api/console_handlers.go:206-235 | Whatever is written between requests, a Next walk only moves down, so shows no row twice |
| Keyset.StableRowIsShown | internal/api/console_handlers.go:206-235 | A row present throughout a completed walk is shown |
| Keyset.ShownWasThere | internal/db/sqlc/search.sql.go:163-179 | Every row shown was in the snapshot of some request |
| Keyset.ExactlyOnce | internal/db/sqlc/search.sql.go:163-179 | With arbitrary writes and changing page sizes, a completed walk shows every stable row exactly once, ties included |
| Keyset.OffsetIsProduct | internal/api/console_handlers.go:226-235 | The rows before page d, counted page by page, are d times the page size |
| Keyset.PageIsSlice | internal/db/sqlc/search.sql.go:90-109 | On a fixed table, the page behind page d's cursor is the rows from d * limit on, at most limit of them, and Next is due exactly when more than (d + 1) * limit rows exist |
| Keyset.NextShrinks | internal/api/console_handlers.go:226-235 | Each Next leaves at least a page fewer rows below the cursor, so repeated Next ends |
| TimestampCursors.LimitWalkNeverSkips | internal/db/sqlc/account_self_service.sql.go:41-48 | Walking limit requests by timestamp alone, a finished walk has shown every stable row whose id is below the greatest uuid |
| TimestampCursors.BoundaryRepeatsExactly | internal/db/sqlc/account_self_service.sql.go:41-48 | On a fixed table a full page and the next, whatever their sizes, share a row exactly when the last row's id is not the greatest uuid; the next page then starts with one |
| TimestampCursors.LimitWalkRepeatsExactly | internal/db/sqlc/account_self_service.sql.go:41-48 | A walk over an unchanging table repeats a row exactly when it continues past a page ending in an id other than the greatest uuid |
| TimestampCursors.ContinuedWalkRepeats | internal/db/sqlc/account_self_service.sql.go:41-48 | With ids below the greatest uuid, a walk over an unchanging table repeats a row exactly when it has a second page |
| TimestampCursors.LimitWalkStallsExactly | internal/db/sqlc/account_self_service.sql.go:41-48 | The next page ends at the same timestamp, so the walk stalls, exactly when a full page of rows bears it |
| TimestampCursors.StalledWalkRepeats | internal/db/sqlc/account_self_service.sql.go:41-48 | A stalled walk over an unchanging table repeats the same page for ever |
| TimestampCursors.DisputesNeverRepeat | internal/db/sqlc/disputes.sql.go:217-227 | Walking a raiser's disputes, no row appears twice, however ties are ordered |
| TimestampCursors.DisputesSkipExactlyTies | internal/db/sqlc/disputes.sql.go:217-227 | The stable rows a finished walk leaves out are exactly those tying the timestamp at which a page was cut |
| Base64Url.RoundTrip | internal/api/console_handlers.go:158-181 | Decoding the unpadded base64url of any bytes gives the bytes back (section 5 of RFC 4648) |
| Base64Url.EncodedIsUrlSafe | internal/api/console_handlers.go:175-181 | Encoded text uses only letters, digits, '-' and '_', without padding |
| Base64Url.Vectors | internal/api/console_handlers.go:175-181 | Vectors of section 10 of RFC 4648 |
| Base64Url.DecodesExactly | internal/api/console_handlers.go:164-167 | Line breaks apart, exactly which texts decode |
| JsonStrings.RoundTrip | internal/api/console_handlers.go:158-181 | Unmarshalling the marshalled form of any list of ASCII strings gives the list back |
| JsonStrings.RoundTripAnd | internal/api/console_handlers.go:168-171 | A marshalled list reads back with blanks after it, and not with anything else |
| JsonStrings.NullsRead | internal/api/console_handlers.go:168-171 | null reads as an empty list, and as an element as the empty string |
| Pager.HistoryRoundTrip | internal/api/console_handlers.go:158-181 | A cursor stack survives its journey through the hist parameter |
| Pager.BuildPageURL | internal/api/console_handlers.go:183-201 | Filling the query step by step gives the link's parameters |
| Pager.LinkReadsBack | internal/api/console_handlers.go:127-201 | A built link, when followed, reads back the stack, the cursor split at its first bar, and the search text |
| Pager.LinksKeepBase | internal/api/console_handlers.go:206-219 | Every link stays on its screen |
| Pager.SearchIs | internal/api/console_handlers.go:106-112 | The search text is what is between the blanks, if anything is |
| Pager.UnreadableIsFirstPage | internal/api/console_handlers.go:127-173 | A missing or unreadable timestamp shows the first page whatever the id; an unreadable stack offers no Prev |
| Pager.CursorStrReadsBack | internal/api/console_handlers.go:148-156 | A cursor survives being written as one text exactly when its timestamp has no bar and it has no id without a timestamp |
| Pager.PrevUndoesNext | internal/api/console_handlers.go:148-219 | Following Next and then its Prev restores stack and search text always, and the cursor exactly when it can be carried |
| Pager.ClickTurns | internal/api/console_handlers.go:203-235 | One click through a real link leads to the page an OFFSET pager would turn to |
| Pager.RefinesOffset | internal/api/console_handlers.go:203-235 | After any clicks, d being the stack's depth, the page shown is the slice of the sorted rows from d * limit on; Next is offered exactly when more than (d + 1) * limit rows exist, Prev exactly above the first page |
| Uuids.StringIsInjective | internal/api/handlers_mfa.go:221-223 | Different uuids have different texts |
| Tokens.FormatIntIsInjective | internal/api/handlers_mfa.go:221-223 | Different amounts have different texts |
| Tokens.LinkBindsPayment | internal/api/handlers_mfa.go:219-223 | Equal commitments come from the same debit account, credit account and amount |
| Tokens.FreshMeansRecent | internal/api/jwt.go:43-51 | A factor accepted as fresh was proved at most the maximum age ago, though claims carry whole seconds |
| StepUp.Server.WriteTokenPair | internal/api/refresh.go:9-38 | The token minted and the response filled by branch: a refresh token or the password-change flag, never both |
| StepUp.Server.HandleLogin | internal/api/handlers_users.go:155-199 | The handler's effects and answer, case by case, are the login step's |
| StepUp.Server.HandleVerify | internal/api/handlers_mfa.go:140-217 | The handler's effects and answer, in the order of its checks, are the second-factor step's |
| StepUp.Server.HandleRefresh | internal/api/refresh.go:50-70 | The handler's effects and answer are the refresh step's: no second factor, no link |
| StepUp.Server.Gated | internal/api/handlers_transfers.go:111-134 | The gate's decision and its downgraded evaluation are the specified ones |
| StepUp.Server.HandleTransfer | internal/api/handlers_transfers.go:137-182 | The submit up to the gate is the specified step |
| StepUp.Server.HandleIntent | internal/api/handlers_transfers.go:195-251 | The preview is the specified step and changes nothing but the record that it was reached |
| StepUp.Server.HandleGuarded | internal/api/jwt.go:137-158 | Any other client route is reached exactly by the tokens requireJWT admits |
| StepUp.Server.Serve | internal/api/server.go:130-164 | Each request, given to its handler, has the effects and answer of the machine's step |
| StepUpRuns.ServeAll | internal/api/server.go:130-164 | A new server object given any requests in turn ends in the world, and gives the answers, that the run theorems speak of |
| StepUpAnswers.AcceptedExactly | internal/api/jwt.go:99-120 | A token parses exactly when this server signed it, for itself and the audience, and it has not expired |
| StepUpAnswers.AdmittedExactly | internal/api/jwt.go:137-172 | A client route admits exactly such tokens, a flagged one only on the two allowlisted routes; otherwise which refusal |
| StepUpAnswers.GuardedExactly | internal/api/jwt.go:137-158 | A refused request changes nothing and no guarded one signs a token |
| StepUpAnswers.LoginExactly | internal/api/handlers_users.go:155-199 | Wrong credentials are refused; with MFA only a pending token is given; without it a pair; anything else is a database error |
| StepUpAnswers.PendingTokenIs | internal/api/jwt.go:79-97 | The pending token names the user checked, proves no factor, and is good for its own audience until its expiry |
| StepUpAnswers.VerifiedExactly | internal/api/handlers_mfa.go:140-217 | A pair is given, or anything changes, exactly for a good pending token of an unlocked user with a secret and a right code or burned recovery code |
| StepUpAnswers.UnverifiedBecause | internal/api/handlers_mfa.go:140-197 | Exactly which requests draw each refusal |
| StepUpAnswers.RefreshedExactly | internal/api/refresh.go:50-70 | A pair is given exactly for a token the database rotates |
| StepUpAnswers.PairIs | internal/api/refresh.go:9-38 | A pair is for the user of the request, its token carries who that is and the factors proved, and is good until the whole second of the expiry told |
| StepUpAnswers.GateExactly | internal/api/handlers_transfers.go:98-134 | The gate opens exactly when no factor is demanded, and reports no step-up it does not demand |
| StepUpAnswers.ServedExactly | internal/api/handlers_transfers.go:137-166 | A submit reaches the database exactly for an admitted unflagged token, a readable payment, and a gate not demanding |
| StepUpAnswers.UnservedBecause | internal/api/handlers_transfers.go:137-166 | Exactly which submits draw each refusal |
| StepUpAnswers.IntentExactly | internal/api/handlers_transfers.go:195-240 | The preview shows the evaluation where a step-up would be demanded, and downgrades it where not |
| StepUpAnswers.RightCodeOpensGate | internal/api/handlers_transfers.go:116-119 | The token a right code earns passes a demanded step-up for the linked payment for the maximum age less a second |
| StepUpRuns.StepKeeps | internal/api/jwt.go:53-172 | Every request keeps the invariant: each event has its cause in the earlier history, each issued token its minting |
| StepUpRuns.RunsAreGood | internal/api/jwt.go:53-172 | So the invariant holds after every run of requests |
| StepUpRuns.StepAdds | internal/api/handlers_mfa.go:140-217 | A request adds to the history only events it caused: an accepted code only if its code was right |
| StepUpRuns.EventsAreCaused | internal/api/handlers_mfa.go:140-217 | Every event of a run was caused by one of its requests |
| StepUpRuns.GatedTransferWasProved | internal/api/handlers_transfers.go:111-134 | In every run, a transfer that passed the gate while step-up was demanded and MFA enabled came after a code accepted from that user for that exact payment, within the maximum age, on a request whose code was right |
| StepUpRuns.ServedTransferWasProved | internal/api/handlers_transfers.go:111-166 | The same of requests alone: a served submit that demanded step-up of a user with MFA follows an earlier request with that user's right code for that exact payment, within the maximum age |
| StepUpRuns.OthersNeverSupply | internal/api/handlers_mfa.go:199-217 | Tokens of logins, refreshes, and codes without a link or with another never open the gate |
| StepUpRuns.TokensAreMinted | internal/api/jwt.go:53-97 | Every issued token was minted by a login, code or refresh in the history, with the factors and link of that event |
| StepUpRuns.ForcedRotationIsCarried | internal/api/handlers_mfa.go:199-217 | Every issued token's pwc claim is the must-change flag seen at the credential check it derives from, through any pending token |
| StepUpRuns.FlaggedTokenIsHeld | internal/api/jwt.go:150-172 | In every run a flagged token reaches only the two allowlisted POST routes |
| StepUpRuns.FlaggedTokenMovesNoMoney | internal/api/jwt.go:150-154 | A transfer request with a flagged token is refused and changes nothing |
| StepUpRuns.NoRefreshUnderRotation | internal/api/refresh.go:14-38 | Every token pair answered holds a refresh token exactly when its token is not flagged, the flag otherwise |
| StepUpRuns.PendingTokenIsIsolated | internal/api/jwt.go:74-172 | A pending-login token is admitted on a client route exactly when the two audiences coincide, it is unexpired, and, if flagged, the route is allowlisted |
| StepUpRuns.AudiencesKeepApart | internal/api/jwt.go:74-135 | With the audiences apart, in no run does a token that a code was accepted on also reach a client route |
| StepUpRuns.PreviewAgreesWithSubmit | internal/api/handlers_transfers.go:184-220 | The preview advertises a step-up exactly when the submit would refuse without one |
| LedgerBooks.AddEntryKeeps | db/migrations/00008_transfers.sql:137-165 | The balance trigger keeps every cached balance equal to its entries' sum and every running balance correct |
| LedgerBooks.AddLegsKeeps | db/migrations/00008_transfers.sql:369-372 | The two legs of a transfer net to nothing and leave every other transfer's entries alone |
| LedgerBooks.ResolveKeeps | db/migrations/00007_accounts.sql:106-129 | Releasing holds keeps the held cache equal to the active holds and never fails its check |
| LedgerBooks.RequestKeeps | db/migrations/00008_transfers.sql:228-333 | request_transfer keeps the contract of the books |
| LedgerBooks.PostKeeps | db/migrations/00008_transfers.sql:343-407 | post_transfer keeps it, from any live state |
| LedgerBooks.CancelKeeps | db/migrations/00008_transfers.sql:415-432 | cancel_transfer keeps it |
| LedgerBooks.PlaceHoldKeeps | db/migrations/00008_transfers.sql:444-504 | place_transfer_hold keeps it, the funds staying reserved |
| LedgerBooks.AutoTransferKeeps | db/migrations/00008_transfers.sql:511-590 | transfer keeps it, whatever the gates decide |
| LedgerBooks.ReverseKeeps | db/migrations/00008_transfers.sql:601-683 | reverse_transfer keeps it |
| LedgerBooks.ExpireKeeps | db/migrations/00010_maintenance.sql:19-42 | expire_holds keeps it |
| LedgerBooks.StepKeeps | docs/02-data-model.md:519-539 | Every transaction, committed or rolled back, keeps the contract |
| LedgerBooks.EveryRunIsGood | docs/02-data-model.md:519-539 | The contract holds after every run from an empty bank |
| LedgerEffects.AuthorisedExactly | db/migrations/00008_transfers.sql:279-323 | Under an unused key a payment is authorised exactly when it is for a positive amount between two different active accounts and, from a customer, within the limit and the available funds |
| LedgerEffects.RefusedBecause | db/migrations/00008_transfers.sql:263-311 | Exactly which payments draw each refusal |
| LedgerEffects.KeylessIsRefused | db/migrations/00008_transfers.sql:254-256 | A payment without a key is refused |
| LedgerEffects.AuthorisingReserves | db/migrations/00008_transfers.sql:313-331 | Authorising makes a pending transfer of the asked terms and one active hold for its amount, and moves no money |
| LedgerEffects.PostedExactly | db/migrations/00008_transfers.sql:352-358 | Exactly when post_transfer commits; on a posted transfer it changes nothing |
| LedgerEffects.PostingMoves | db/migrations/00008_transfers.sql:365-377 | Posting books both legs, frees the reservation, captures the hold, marks the transfer, and changes nothing else |
| LedgerEffects.CanceledExactly | db/migrations/00008_transfers.sql:415-432 | Exactly when cancel_transfer commits, and that it releases the hold, frees its funds and moves no money |
| LedgerEffects.ParkedExactly | db/migrations/00008_transfers.sql:465-502 | Exactly when a transfer is parked, its hold stretched and everything else as it was |
| LedgerEffects.TransferredExactly | db/migrations/00008_transfers.sql:531-589 | Exactly when transfer commits and in which state: system callers bypass the gates, a refused payment leaves nothing behind, a screened or reviewed one is parked, any other posted |
| LedgerEffects.ReversedExactly | db/migrations/00008_transfers.sql:628-666 | Exactly when a reversal commits: the beneficiary, if a customer, must still have the amount available |
| LedgerEffects.ReversingMoves | db/migrations/00008_transfers.sql:668-681 | A first reversal books the two legs the other way under a new posted transfer and marks the original |
| LedgerEffects.ExpiredExactly | db/migrations/00010_maintenance.sql:19-42 | The sweep expires exactly the active holds past their expiry, fails their pending transfers, cancels the parked ones, frees the funds, and changes nothing else |
| LedgerEffects.AccountsExactly | db/migrations/00007_accounts.sql:157-320 | An account opens empty and active; later only its activity and its limit are set |
| LedgerEffects.CleanedExactly | db/migrations/00010_maintenance.sql:44-58 | Cleanup drops the expired records and nothing else |
| LedgerTheorems.GoodReconciles | db/migrations/00010_maintenance.sql:60-104 | Books that keep the contract pass every check of reconcile() |
| LedgerTheorems.BooksAreCorrect | db/migrations/00010_maintenance.sql:60-104 | After every run reconcile() is empty, and no customer's held funds exceed the balance (I1, I2, I4 to I7) |
| LedgerTheorems.MoneyIsConserved | docs/02-data-model.md:528 | After every run the balances of all accounts sum to zero (I3) |
| LedgerTheorems.AuthorisedPaymentPosts | db/migrations/00008_transfers.sql:343-407 | A pending or parked transfer, whatever happened since its authorisation, posts exactly when both new balances fit 64 bits; it moves exactly its amount and leaves the payer's available funds as they were |
| LedgerReplay.KeyAfterRun | db/migrations/00008_transfers.sql:258-277 | After any run a key's record is unchanged if no cleanup dropped it; otherwise no payment under the key will ever be taken for the old transfer |
| LedgerReplay.ReplayIsRecord | db/migrations/00008_transfers.sql:258-277 | A request is answered with an old transfer, changing nothing, exactly when the record under its key names that transfer and the same terms |
| LedgerReplay.ReplayIsHarmless | db/migrations/00008_transfers.sql:228-590 | After any run, the same request, through request_transfer or transfer, is answered with the first transfer and changes nothing if and only if no cleanup dropped its key; while the key is kept a different request under it is refused (I12) |
| LedgerReplay.CleanedKeyIsForgotten | db/migrations/00010_maintenance.sql:44-58 | One such run: the record cleaned up, the same request authorises a second transfer |
| LedgerReplay.ReversalNetsToNothing | db/migrations/00008_transfers.sql:592-683 | A reversed transfer has exactly one reversal, and the two cancel on every account |
| LedgerReplay.ReversedStays | db/migrations/00008_transfers.sql:613-643 | A transfer that has a reversal: asking again succeeds exactly when the key is unused or was used for it, gives that reversal, and adds at most the key's record |
| LedgerReplay.RowSurvives | db/migrations/00008_transfers.sql:601-683 | A transfer's row survives every run with its terms fixed |
| LedgerReplay.ReversalConverges | db/migrations/00008_transfers.sql:601-683 | After a reversal and any later run, asking again succeeds exactly when the key is unused or was used for this reversal, returns the same reversal and books nothing; otherwise it is refused as a reused key |
| LedgerTheorems.InternalErrorsNeverRaised | db/migrations/00008_transfers.sql:479-639 | In correct books the internal-error branches are dead: a transfer being parked has its hold, a reversed one its reversal, and postings find their accounts |
| LedgerTheorems.LedgerOnlyGrows | db/migrations/00008_transfers.sql:167-174 | Every transaction leaves what was booked as a prefix of the ledger (I8) |
| LedgerTheorems.StatusOnlyAdvances | db/migrations/00008_transfers.sql:335-432 | Every transfer survives every transaction with its terms fixed, its status moving only forward |

## Left out

- The ledger transactions are modelled on values, from the tables before to the tables after or the exception: what row locks prevent, deadlocks, and isolation levels are not modelled.
- Columns and checks of the money tables that decide nothing here: currency (always EUR), descriptions, end_to_end_id syntax, timestamps and uetr, default accounts, IBAN minting, PINs.
- Ownership wrappers (`client_transfer` and its siblings), the confirmation-window check of `client_confirm_transfer`, the maker-checker queue, disputes, events, screening and fraud scoring; what they decide reaches the ledger as the parameters of `transfer` and the source state of `post_transfer`. An account opening's own idempotency keys are not part of the namespace modelled.
- LedgerBooks.PostKeeps: source states other than pending, held and under_review, which no caller names, are not covered.
- Concurrency of the limiter beyond the order in which its mutex serialises calls, and the middleware around it.
- Header lines after the first X-Forwarded-For, and `net.SplitHostPort`, whose answer is an input.
- The text filter of the searches: a snapshot is the set of keyset columns of the rows that match when a request runs. The generated row-scanning loops are not modelled.
- Percent-encoding of query strings, and RFC 3339 and uuid parsing, which are parameters of the pager assumed to read back what they wrote.
- JsonStrings.RoundTrip: non-ASCII text and array elements that are neither strings nor null read as failures.
- Non-ASCII case mapping and byte lengths: strings are sequences of characters, and IBANs and amounts are studied on ASCII text (and the euro sign). A fraction of non-ASCII characters may be refused with the other of the two complaints.
- Money.StylesAgree: inner signs and other odd texts that ParseEuros accepts are followed by `Money.ParseEuros` but have no exact value of their own to compare with.
- Signing failures (a 500 answer), request decoding details, TOTP, recovery codes, password hashing, lockout counters and refresh-family rotation, all of which appear only as inputs.
- Role predicates, enum validators, error mapping, cookies, CORS, routing, configuration, metrics, migrations, generated code and all browser code: easy cases or plumbing.
