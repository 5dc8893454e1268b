# Financial advisor: verified model of the stock routes and their helpers

This project models in Dafny the logic of a personal-finance web backend and its
dashboard:

- the stock routes (`Financial-advisor/Backend/routes/stocks.js`): classification of the
  quote provider's answer, the staggered fetch of the watch-list for `/summary`, the
  derived fields (two-decimal prices, signed percentage change, clock time of a
  timestamp), and the `/live`, `/daily` and `/history` decision tables with their
  newest-first normalisation of a time series;
- the chat formatter and the change class of the dashboard
  (`Financial-advisor/Frontend/dashboard.js`);
- the SIP (systematic investment plan) calculator (`Backend/routes/sip.js`);
- the bearer-token middleware (`Backend/middleware/auth.js`);
- the database connection cache (`Financial-advisor/Backend/db.js`).

Modules, one per file:

| file | module | what it holds |
|---|---|---|
| `base.dfy` | `Base` | `Option`, `Result`, string truthiness, decimal numerals, the string order of `sort()` |
| `quotes.dfy` | `Quotes` | `toFixed(2)`, `calculateChange`, `formatTime` |
| `series.dfy` | `Series` | a time series as the entries of a JSON object; newest-first sort and the n newest entries |
| `stocks.dfy` | `Stocks` | `fetchAlphaVantageData`, the `/summary` fold and dispatch delays, `/live`, `/daily`, `/history` |
| `dashboard.dfy` | `Dashboard` | `formatChatMessage` and the change class |
| `sip.dfy` | `Sip` | the `/calculate` handler and the annuity-due formula |
| `auth.dfy` | `Auth` | header check, token extraction, outcome-to-status mapping, and the middleware on request and response objects |
| `db.dfy` | `Db` | the `{conn, promise}` cache as a class, with a pure one-call specification |

How the model represents things:

- Every HTTP handler is a function from its inputs and the answers of the services it
  calls to its reply. Where it matters whether a request goes out, the handler returns
  an `Exchange`: the requests it sends and its reply.
- A provider time series is a JSON object, so it is modelled as the sequence of its
  (key, record) entries, with no key repeated. `Object.keys(s).sort().reverse()` followed
  by a lookup is the same as sorting the entries by key, newest first.
- A table row's `stamp` is its entry's key. The handlers send that field as `date` in
  `/daily` and as `timestamp` in `/history`; the model has one name for both.
- Keys are compared character by character, which is the order `sort()` uses for the
  strings in play (`YYYY-MM-DD[ HH:MM:SS]` timestamps). For such keys this order is
  also chronological.
- A quote field is what `parseFloat` reads from it, with `None` standing for NaN.
  `toFixed(2)` is modelled on real numbers below 10^21 in magnitude: the integer
  closest to 100·|x| (the larger one on a tie), two fraction digits, and a `-` sign for
  negative x.
- The chat formatter escapes `&`, `<` and `>` on the string. From the first list step
  on, the text is a sequence of tokens: characters of the text, and the tags the
  formatter inserts, each as one token. The token sequence is rendered to a string at
  the end.
- The list patterns are matched as the JavaScript engine matches them under the `g` and
  `m` flags. `\s` also matches the line terminators (`\n`, `\r`, U+2028, U+2029), so the
  space run after a marker may cross into the next line and take that line as the item
  (`1.` followed by a line feed and `foo` becomes one item `foo`). The greedy run gives
  back characters until `(.+)` can start on a non-terminator. A new match is tried only
  at a line start, and the scan resumes after the matched item.
- `jwt.verify` and `User.findById` are function parameters: each maps its argument to a
  value or to a thrown error's `name`. `mongoose.connect` is the outcome the call would
  have, passed as an argument.

In a few places the code behaves differently from what a reader of its interface might
expect. The model follows the code:

- When the previous price is zero, missing or NaN, `calculateChange` returns `"0.00%"`,
  not an "unavailable" marker. So a single-point series reports `"+0.00%"` when its close
  is a non-zero number (`Stocks.SinglePointChange`).
- The rate-limit error of a single-symbol endpoint is a 500, not a 429.
- The provider's `Error Message` field is checked before `Note`.
- The bearer scheme is matched case-sensitively. Authentication scheme names are
  case-insensitive (section 11.1 of RFC 9110, earlier section 1.2 of RFC 2617), so the
  code is stricter than the standard (`Auth.LowerCaseSchemeRefused`).

## Model

| member | source | states |
|---|---|---|
| Base.LexLessTotal | Financial-advisor/Backend/routes/stocks.js:117 | two different keys are ordered exactly one way, so sorting keys is deterministic |
| Base.LexLessTransitive | Financial-advisor/Backend/routes/stocks.js:117 | the key order used by `sort()` is transitive |
| Base.LexLessIrreflexive | Financial-advisor/Backend/routes/stocks.js:117 | no key sorts before itself |
| Base.DecimalRoundTrip | Financial-advisor/Backend/routes/stocks.js:129 | the decimal numeral written for a number reads back as that number |
| Quotes.Cents | Financial-advisor/Backend/routes/stocks.js:129 | `toFixed(2)` picks the integer within half a unit of 100·m, the larger on a tie |
| Quotes.Fixed2 | Financial-advisor/Backend/routes/stocks.js:129 | the text has two digits after its point and begins with `-` exactly for a negative number, never with `+` or `N` |
| Quotes.ParseCentsText | Financial-advisor/Backend/routes/stocks.js:129 | the sign, whole part and two digits read back as n / 100 with the sign |
| Quotes.Fixed2Accurate | Financial-advisor/Backend/routes/stocks.js:129 | the two-decimal text of x reads back as a number within 0.005 of x |
| Quotes.FixedOrNaN | Financial-advisor/Backend/routes/stocks.js:124-129 | a price shows as "NaN" exactly when `parseFloat` gave NaN, and otherwise as a numeral that reads back within half a cent of it |
| Quotes.CalculateChange | Financial-advisor/Backend/routes/stocks.js:59-64 | ends in `%`; exactly "0.00%" when the previous price is 0, missing or NaN; "NaN%" when only the current price is NaN; starts with `+` exactly for a change ≥ 0 and with `-` exactly for a negative change |
| Quotes.CalculateChangeAccurate | Financial-advisor/Backend/routes/stocks.js:61-63 | the digits between the sign and `%` read back within 0.005 of (cur − prev) / prev × 100 |
| Quotes.FindClock | Financial-advisor/Backend/routes/stocks.js:72 | finds the leftmost `dd:dd` at or after a position, or reports that none exists |
| Quotes.FormatTime | Financial-advisor/Backend/routes/stocks.js:69-74 | "N/A" for the empty string; the leftmost `dd:dd` when there is one; otherwise the input unchanged |
| Quotes.FormatIntradayKey | Financial-advisor/Backend/routes/stocks.js:71-73 | a `YYYY-MM-DD HH:MM:SS` key shows as its `HH:MM` |
| Quotes.FormatDailyKey | Financial-advisor/Backend/routes/stocks.js:72-73 | a `YYYY-MM-DD` key has no clock time and shows unchanged |
| Series.Insert | Financial-advisor/Backend/routes/stocks.js:117 | inserting adds exactly that entry (as a multiset) and puts it first or after the old first entry |
| Series.InsertKeepsOrder | Financial-advisor/Backend/routes/stocks.js:117 | inserting an entry with a new key into a newest-first series keeps it newest first |
| Series.SortDesc | Financial-advisor/Backend/routes/stocks.js:117 | the sorted series is a permutation of the entries, each key greater than the next |
| Series.SortDescNewestFirst | Financial-advisor/Backend/routes/stocks.js:260-262 | sorting an object's entries gives the same entries, strictly descending by key |
| Series.Newest | Financial-advisor/Backend/routes/stocks.js:260-263 | `.slice(0, n)` keeps min(n, #keys) entries |
| Series.NewestAreTheNewest | Financial-advisor/Backend/routes/stocks.js:336-339 | the kept entries are strictly descending, come from the series, and every omitted entry is older than every kept one |
| Series.SortDescHeadIsNewest | Financial-advisor/Backend/routes/stocks.js:117-118 | the first sorted key is greater than every other key |
| Series.SortDescSecondIsNextNewest | Financial-advisor/Backend/routes/stocks.js:117-119 | the second sorted key is below the first and above every other key |
| Stocks.FetchAlphaVantage | Financial-advisor/Backend/routes/stocks.js:31-54 | a transport error is rethrown; a truthy `Error Message` fails with that message, checked before `Note`; a truthy `Note` fails with the rate-limit message; otherwise the body comes back unchanged |
| Stocks.DispatchDelay | Financial-advisor/Backend/routes/stocks.js:93-95 | the symbol at index i waits i × 12000 ms, so index 0 does not wait |
| Stocks.AtMostQuotaPerMinute | Financial-advisor/Backend/routes/stocks.js:89-95 | for any batch size, no window [t, t + 60000) holds more than 5 dispatches |
| Stocks.PreviousIndex | Financial-advisor/Backend/routes/stocks.js:119 | `timeKeys[1] \|\| timeKeys[0]` picks a valid index of the sorted keys |
| Stocks.SummarizeSymbol | Financial-advisor/Backend/routes/stocks.js:97-142 | the record carries its own symbol; a thrown error gives an N/A record with that error's message; a missing series gives "No data available"; the record has no error exactly when the fetch succeeded with a non-empty series |
| Stocks.SummaryUsesNewest | Financial-advisor/Backend/routes/stocks.js:117-131 | on success, price and time come from the entry with the greatest key |
| Stocks.SummaryComparesTwoNewest | Financial-advisor/Backend/routes/stocks.js:117-130 | on success with two or more keys, the second of them non-empty, the change compares the close of the greatest key with the close of the next greatest |
| Stocks.SummaryFallsBackToNewest | Financial-advisor/Backend/routes/stocks.js:119-130 | with a single key, or an empty second key, the previous price falls back to the newest entry, so the change compares the newest close with itself |
| Stocks.SinglePointChange | Financial-advisor/Backend/routes/stocks.js:119-130 | a single-point series with a non-zero close reports "+0.00%" |
| Stocks.Summarize | Financial-advisor/Backend/routes/stocks.js:91-145 | one record per watched symbol, in watch-list order, each with its own symbol; a failed fetch gives that symbol an N/A record |
| Stocks.SummaryIsPerSymbol | Financial-advisor/Backend/routes/stocks.js:133-142 | changing one symbol's answer changes no other symbol's record |
| Stocks.SummaryCalls | Financial-advisor/Backend/routes/stocks.js:91-103 | one request per symbol, in order, the i-th for symbol i after i × 12000 ms |
| Stocks.SummaryEndpoint | Financial-advisor/Backend/routes/stocks.js:80-150 | without an API key: 500 and no request; with one: exactly the staggered `SummaryCalls` requests and the `Summarize` records, one per `TOP_STOCKS` symbol, in order |
| Stocks.RequestParams | Financial-advisor/Backend/routes/stocks.js:313-323 | the parameters carry the symbol and the API key; `month` is present exactly for `/history` with a truthy month, with that month's value |
| Stocks.RowOf | Financial-advisor/Backend/routes/stocks.js:340-350 | the row carries the entry's key and volume; each price shows "NaN" exactly when it is NaN and otherwise reads back within half a cent of the price |
| Stocks.Rows | Financial-advisor/Backend/routes/stocks.js:264-274 | one row per kept entry, in order: row i carries entry i's key and volume, and each price shows "NaN" exactly when it is NaN and otherwise reads back within half a cent of the price |
| Stocks.Respond | Financial-advisor/Backend/routes/stocks.js:190-364 | a thrown error, including the rate-limit one, gives 500 with its message; a missing series gives 404; every failure is a 404 or a 500 |
| Stocks.SingleSymbol | Financial-advisor/Backend/routes/stocks.js:165-221 | a missing symbol gives 400 before the API-key check; a missing key gives 500; neither sends a request; otherwise exactly one request, without delay |
| Stocks.LiveReportsNewest | Financial-advisor/Backend/routes/stocks.js:198-211 | `/live` reports the greatest key as `lastUpdated`, with that entry's close and volume |
| Stocks.TableListsNewest | Financial-advisor/Backend/routes/stocks.js:259-274 | `/daily` and `/history` list min(5 or 10, #keys) rows, strictly newest first, each built from an entry of the series |
| Stocks.TableOmitsOnlyOlder | Financial-advisor/Backend/routes/stocks.js:335-350 | no entry newer than a listed row is left out of `/daily` or `/history` |
| Dashboard.ReplaceChar | Financial-advisor/Frontend/dashboard.js:260-262 | replacing one character introduces no character absent from the text and the replacement, and removes the replaced one |
| Dashboard.ReplaceCharAppend | Financial-advisor/Frontend/dashboard.js:260-262 | a global one-character replacement works piece by piece |
| Dashboard.ReplaceAbsent | Financial-advisor/Frontend/dashboard.js:260-262 | replacing a character the text does not hold changes nothing |
| Dashboard.Escape | Financial-advisor/Frontend/dashboard.js:259-262 | the escaped text contains no `<` and no `>` |
| Dashboard.EscapeOne | Financial-advisor/Frontend/dashboard.js:259-262 | the three replacements turn one character into its HTML entity, or keep it |
| Dashboard.EscapeAppend | Financial-advisor/Frontend/dashboard.js:259-262 | escaping a concatenation escapes each part |
| Dashboard.EscapeIsPerChar | Financial-advisor/Frontend/dashboard.js:259-262 | because `&` is replaced first, every `&`, `<`, `>` becomes `&amp;`, `&lt;`, `&gt;` and nothing is escaped twice |
| Dashboard.UnescapeEach | Financial-advisor/Frontend/dashboard.js:259-262 | decoding the character-wise escape gives back the text |
| Dashboard.EscapeRoundTrip | Financial-advisor/Frontend/dashboard.js:259-262 | decoding the entities of the escaped text gives back the original text |
| Dashboard.NameText | Financial-advisor/Frontend/dashboard.js:265-289 | every inserted tag name is lower-case letters |
| Dashboard.TagText | Financial-advisor/Frontend/dashboard.js:265-289 | an inserted tag starts with its only `<`, ends with `>` and holds no line feed |
| Dashboard.Lift | Financial-advisor/Frontend/dashboard.js:259-265 | the escaped text enters the list steps whole: one character token per character, in order, no tags, and it renders back to exactly that text |
| Dashboard.RenderTagsOnly | Financial-advisor/Frontend/dashboard.js:259-289 | when the text holds no `<`, every `<` of the output starts an inserted tag |
| Dashboard.RenderNoNewline | Financial-advisor/Frontend/dashboard.js:279 | when the text holds no line feed, neither does the output |
| Dashboard.LineLength | Financial-advisor/Frontend/dashboard.js:265 | a line under the `m` flag ends at the first line terminator or at the end |
| Dashboard.SpaceRun | Financial-advisor/Frontend/dashboard.js:265 | measures the leading run of `\s` characters |
| Dashboard.DigitRun | Financial-advisor/Frontend/dashboard.js:265 | measures the leading run of `\d` characters |
| Dashboard.Backtrack | Financial-advisor/Frontend/dashboard.js:265 | the greedy `\s+` gives back characters until `(.+)` can start: the chosen length is the longest one not followed by a line terminator |
| Dashboard.SpaceMatch | Financial-advisor/Frontend/dashboard.js:265 | `\s+` takes at least one space and no more than the space run, stops before a non-terminator, and every longer choice is followed by a terminator or the end; none exists exactly when every choice is |
| Dashboard.MarkerLength | Financial-advisor/Frontend/dashboard.js:265 | a numbered marker is one or more digits and a `.`; a bullet marker (line 272) is one `-` or `•` |
| Dashboard.ItemMatch | Financial-advisor/Frontend/dashboard.js:272 | a match leaves room for the marker and the space, captures a non-empty item, and needs a marker |
| Dashboard.ItemMatchIsRegexMatch | Financial-advisor/Frontend/dashboard.js:265 | a match is what the pattern matches: the marker, a run of `\s` (possibly across terminators), then an item that holds no terminator and ends at one or at the end; no longer space run leaves an item to capture |
| Dashboard.NoItemMatch | Financial-advisor/Frontend/dashboard.js:272 | after a marker there is no match only when every split of the space run leaves only terminators or the end |
| Dashboard.RewriteFrom | Financial-advisor/Frontend/dashboard.js:265 | the global replacement adds only `li` tags and no characters |
| Dashboard.RewriteLines | Financial-advisor/Frontend/dashboard.js:272 | rewriting every line adds only `li` tags; the terminators a match crosses are consumed with its space run |
| Dashboard.RewriteKeepsPrefix | Financial-advisor/Frontend/dashboard.js:265 | a stretch of text in which no line start begins an item is copied unchanged, and the scan goes on after it in the line-start state its last character leaves |
| Dashboard.RewriteNoItem | Financial-advisor/Frontend/dashboard.js:265 | a text none of whose lines begins an item comes out of the list replacement unchanged |
| Dashboard.PlainKeepsLines | Financial-advisor/Frontend/dashboard.js:265-272 | a text with no line beginning with a digit, `-` or `•` passes both list replacements unchanged |
| Dashboard.ItemAfterSpace | Financial-advisor/Frontend/dashboard.js:265 | a one-digit marker, one `\s` character (a space or a line terminator) and a line become exactly that line as one item: `1. foo` and `1.`, line feed, `foo` both give `<li>foo</li>` |
| Dashboard.ItemAcrossLineFeed | Financial-advisor/Frontend/dashboard.js:265 | `1.`, a line feed and `foo` becomes the single item `foo`: the match crosses the line feed |
| Dashboard.BulletAcrossLineFeed | Financial-advisor/Frontend/dashboard.js:272 | `- `, a line feed and a following line becomes one item holding that following line |
| Dashboard.ItemRewrite | Financial-advisor/Frontend/dashboard.js:265 | a text that is one marker, its chosen space run and an item to the end becomes exactly that item |
| Dashboard.ItemBacktracksAtEnd | Financial-advisor/Frontend/dashboard.js:265 | `1. `, a line feed and a space becomes the item ` `: the greedy run backtracks to leave the last space for `(.+)` |
| Dashboard.DropSeamsNone | Financial-advisor/Frontend/dashboard.js:268 | with no opening tag after the first token, the seam removal changes nothing |
| Dashboard.WrapOnce | Financial-advisor/Frontend/dashboard.js:267-268 | wrapping a text without an opening `ol` (or `ul`) leaves no seam to remove |
| Dashboard.NumberedStep | Financial-advisor/Frontend/dashboard.js:265-269 | when a numbered line became `<li>`, the whole text is wrapped exactly once in `<ol>…</ol>`; otherwise it is only the rewritten lines |
| Dashboard.BulletStep | Financial-advisor/Frontend/dashboard.js:272-276 | the `<ul>` wrap happens exactly when `<li>` is present and `<ol>` is not, and exactly once |
| Dashboard.Breaks | Financial-advisor/Frontend/dashboard.js:279 | no line feed remains, and only `<br>` tags are added |
| Dashboard.BreaksIsReplace | Financial-advisor/Frontend/dashboard.js:279 | the rendered result is `replace(/\n/g, '<br>')` of the rendered input: each line feed becomes `<br>` where it stood, and every other character and tag is kept |
| Dashboard.FirstDelim | Financial-advisor/Frontend/dashboard.js:282-289 | finds the first closing delimiter at or after a position, or reports that none exists |
| Dashboard.PairEnd | Financial-advisor/Frontend/dashboard.js:282-289 | a pair opens with the delimiter at the start and closes at a later delimiter, after at least the minimum content (one token for `(.+?)`, none for `([\s\S]*?)`) |
| Dashboard.Inline | Financial-advisor/Frontend/dashboard.js:282-289 | a delimiter-pair replacement adds no characters and only tags of its own name |
| Dashboard.InlineNoDelim | Financial-advisor/Frontend/dashboard.js:282-289 | a text in which the delimiter never occurs comes out unchanged |
| Dashboard.InlineKeepsText | Financial-advisor/Frontend/dashboard.js:282-289 | with the inserted tags and the delimiter character taken out, the output is the input: no other text is lost, added or reordered |
| Dashboard.InlineRestores | Financial-advisor/Frontend/dashboard.js:282-289 | putting the delimiter back in place of each inserted tag of the pass gives back the input exactly, delimiters included |
| Dashboard.InlineNoDelimChar | Financial-advisor/Frontend/dashboard.js:282-289 | a text without the delimiter's character comes out unchanged |
| Dashboard.InlinePair | Financial-advisor/Frontend/dashboard.js:282 | a delimiter pair around content without the delimiter character or a line terminator becomes the tag pair around that content: `**x**` gives `<strong>x</strong>` |
| Dashboard.Markup | Financial-advisor/Frontend/dashboard.js:258-289 | after all the steps the text holds no raw `<` and no line feed |
| Dashboard.FormatChatMessage | Financial-advisor/Frontend/dashboard.js:255-292 | missing or empty text gives ""; the output has no line feed; every `<` in it starts an inserted tag |
| Dashboard.EscapePlain | Financial-advisor/Frontend/dashboard.js:259-262 | a text without `&`, `<` and `>` is not changed by escaping |
| Dashboard.MarkupOfPlain | Financial-advisor/Frontend/dashboard.js:258-289 | a text with nothing to format goes through every step but the line breaks unchanged |
| Dashboard.FormatPlainText | Financial-advisor/Frontend/dashboard.js:255-292 | a text with nothing to escape, no `*` or backtick and no line beginning like a list marker is shown as it is, each line feed turned into `<br>`: "hello" gives "hello" |
| Dashboard.ClassOfChange | Financial-advisor/Frontend/dashboard.js:390-392 | `positive` exactly when the change starts with `+`, `negative` exactly when it starts with `-`, `neutral` otherwise (N/A, empty, missing) |
| Dashboard.ClassOfCalculatedChange | Financial-advisor/Frontend/dashboard.js:390-392 | a computed change is positive for a rise or no move, negative for a fall, neutral for "0.00%" and "NaN%" |
| Sip.GeometricGrowth | Backend/routes/sip.js:52-55 | r · Σ(1 + r)^k equals ((1 + r)^n − 1)(1 + r) |
| Sip.GrowthWithoutInterest | Backend/routes/sip.js:47-49 | at a zero rate the n instalments grow to n |
| Sip.PowAtLeastOne | Backend/routes/sip.js:52 | (1 + r)^k ≥ 1 for r ≥ 0, and > 1 for r > 0 and k > 0 |
| Sip.MaturityIsGrowth | Backend/routes/sip.js:46-56 | both branches of the maturity formula equal the annuity-due sum P·Σ_{k=1..n}(1 + r)^k |
| Sip.GrowthAtLeastMonths | Backend/routes/sip.js:52-59 | the annuity-due sum of n units is at least n, and more than n when r > 0 |
| Sip.ReturnsNonNegative | Backend/routes/sip.js:52-62 | for P > 0 and r ≥ 0 the maturity amount is at least P·n, and above it when r > 0 and n ≥ 1 |
| Sip.Round2 | Backend/routes/sip.js:70-72 | `Math.round(x * 100) / 100` is a whole number of cents, within half a cent of x, and not negative for x ≥ 0 |
| Sip.Report | Backend/routes/sip.js:64-73 | the reply echoes monthlyInvestment = P, annualRate = rate and years = years |
| Sip.Calculate | Backend/routes/sip.js:14-83 | no body gives 500 (a branch the deployed server never reaches, see "## Left out"); a falsy field gives the first 400 before any arithmetic; out-of-range values give the second 400; otherwise the report of the parsed inputs |
| Sip.ZeroRate | Backend/routes/sip.js:19-49 | a numeric rate of 0 is rejected as missing, while the string "0" reaches the zero-rate branch and yields P·n |
| Sip.AmountsMatchAnnuity | Backend/routes/sip.js:46-72 | the final amount is the annuity-due sum and the invested total is P·n, each within half a cent; returns are not negative; final ≈ total + returns within 0.015 |
| Sip.RoundingGap | Backend/routes/sip.js:70-72 | the rounded final amount differs from the rounded total plus rounded returns by less than 0.015 |
| Auth.Split | Backend/middleware/auth.js:24 | `split(' ')` gives at least one segment, none containing a space |
| Auth.JoinSplit | Backend/middleware/auth.js:24 | joining the segments with spaces gives back the header |
| Auth.SplitWord | Backend/middleware/auth.js:24 | a space-free string is one segment |
| Auth.SplitAfterWord | Backend/middleware/auth.js:24 | a space-free word followed by a space is split off as the first segment |
| Auth.SplitJoin | Backend/middleware/auth.js:24 | splitting space-free segments joined by spaces gives the segments back |
| Auth.BearerSegments | Backend/middleware/auth.js:16-24 | a header starting with "Bearer " splits into "Bearer" and the segments of the rest |
| Auth.FirstSegment | Backend/middleware/auth.js:24 | the first segment is a prefix of the string, followed by a space unless it is all of it |
| Auth.TokenOf | Backend/middleware/auth.js:24 | the token has no space and is the rest of the header after "Bearer " up to the next space or the end |
| Auth.BearerToken | Backend/middleware/auth.js:24 | "Bearer t" and "Bearer t rest" both yield t, so "Bearer a b" yields "a" |
| Auth.ErrorReply | Backend/middleware/auth.js:41-60 | `JsonWebTokenError` gives 401 "Invalid token.", `TokenExpiredError` gives 401 "Token has expired.", any other error 500 |
| Auth.Authenticate | Backend/middleware/auth.js:14-60 | a missing or non-bearer header gives 401 "No token provided"; a thrown verification or lookup error is mapped by name; a verified token whose user is not found gives 401 "User not found"; otherwise the user is admitted |
| Auth.RefusedWithoutVerification | Backend/middleware/auth.js:16-21 | a refused header gets the same 401 whatever the verifier and user store would answer |
| Auth.LowerCaseSchemeRefused | Backend/middleware/auth.js:16 | a header with a lower-case "bearer" scheme is refused |
| Auth.AuthMiddleware | Backend/middleware/auth.js:11-62 | on admission the user is attached and `next` is called exactly once with nothing sent; on refusal exactly that reply is sent, the request's user is untouched and `next` is not called |
| Db.Step | Financial-advisor/Backend/db.js:15-49 | a missing MONGO_URI throws even with a cached connection; a cached connection is returned without a new attempt; an attempt starts exactly when neither a connection nor a promise is stored; a failure clears the promise and rethrows; a success stores the connection |
| Db.StepKeepsInv | Financial-advisor/Backend/db.js:12-43 | between calls the cache is empty or holds a connection with the promise that made it, so `conn` set implies `promise` set |
| Db.Run | Financial-advisor/Backend/db.js:15-49 | a sequence of calls has one outcome per call |
| Db.RunKeepsInv | Financial-advisor/Backend/db.js:12-43 | every state reached by sequential calls satisfies the cache invariant |
| Db.ConnectedStaysConnected | Financial-advisor/Backend/db.js:23-25 | once connected, every later call returns the same connection (or throws for a missing MONGO_URI) and starts no attempt |
| Db.RetryAfterFailure | Financial-advisor/Backend/db.js:42-45 | after a failed attempt the error is rethrown, and the next call with MONGO_URI set starts a new attempt |
| Db.ConnectionCache.constructor | Financial-advisor/Backend/db.js:11-13 | the cache starts as `{ conn: null, promise: null }`, which satisfies the invariant |
| Db.ConnectionCache.ConnectDB | Financial-advisor/Backend/db.js:15-49 | the new cache fields, the returned or thrown outcome and whether an attempt started are exactly those of one `Step` |

## Left out

- HTTP itself (axios, Express, the provider's URL and wire format): provider answers are abstract records, and handlers are functions of their inputs and of those answers.
- Timers and `Promise.all` interleaving: dispatch delays are numbers, and the summary fold is evaluated per symbol and held by index.
- Overlapping `/summary` requests: the code does nothing to keep them jointly under the provider's quota, so there is nothing to model.
- Floating point: prices, changes and SIP amounts are exact reals. `parseFloat` of a provider string is an input (a number or NaN). A SIP body string is given together with the number `parseFloat` reads from it.
- Quotes.Fixed2: numbers of magnitude 10^21 or more, which `toFixed` writes in exponent form, are written in positional form.
- Sip.Calculate: does not model a SIP field whose text `parseFloat` cannot read. With NaN the code's `<= 0` checks pass and the reply carries null amounts.
- Sip.Calculate: requires a whole number of months whenever the monthly rate is not zero. `Math.pow` with a fractional exponent is not modelled.
- Sip.Calculate: models a request without a body (500), which the deployed server never produces: `express.json()` under Express 4 always sets `req.body` to an object, so such a request gets the first 400 instead. The server wiring is not part of this model.
- Base.LexLess: compares keys by Unicode scalar value, while `sort()` compares UTF-16 code units. The two orders differ only for characters outside the Basic Multilingual Plane, which the provider's ASCII timestamp keys never hold.
- Sip.Calculate: does not model body fields of other JSON types (booleans, arrays, objects).
- The chat formatter's inline patterns are modelled as a left-to-right scan for non-overlapping delimiter pairs with lazy content. This matches the JavaScript engine for these patterns, but the engine itself is not modelled.
- Query parameters given as arrays (`?symbol=a&symbol=b`) are not modelled. A query value is a string or absent.
- `jwt.verify`, `User.findById` and `mongoose.connect` are opaque outcomes. The user record's fields and the removal of the password field are not modelled.
- Db.ConnectionCache.ConnectDB: calls run one after another. The sharing of one in-flight promise between overlapping calls is a concurrency concern and is not modelled.
- Logging (`console.log`, `console.error`) is left out.
- The DOM rendering of the dashboard, the chat and news proxies, the server wiring and the frontend password-length check are not part of this model.
