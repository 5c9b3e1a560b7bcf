# GrowScratch client helpers in Dafny

GrowScratch is a Telegram mini-app scratch-card game: a player pays in
Telegram Stars, a result endpoint (`/api/generate-result`) reports whether
the card wins, and a winning card is minted as an NFT on TON. This project
models the deterministic part of the browser client that is present in its
sources: the helper object `Utils` in `frontend/js/utils.js` and the frozen
`CONFIG` object in `frontend/js/config.js`.

- `config.dfy` (module `Config`): every configuration value as an
  immutable constant: endpoints, the TON settings (mint amount, network,
  RPC and explorer URLs), the game settings (play cost, win rate, scratch
  threshold, the nine-entry prize table), UI durations, the messages and
  the logging switches. Lemmas state the shape of the prize
  table and that the mint amount string is 10^9 nanotons.
- `strings.dfy` (module `Strings`): `split` for a one-character separator,
  with the `IndexOf` and `Join` helpers behind it and the split/join round
  trip.
- `utils.dfy` (module `Utils`):
  - the logger's gating decision;
  - `retryWithBackoff` as a method with a loop;
  - `generateUUID` as a template fill over given random nibbles;
  - `shortenAddress`;
  - `parseQueryParams` as a method with a loop that builds a map;
  - `getPrizeById` over the prize table;
  - `formatError`.

Environment inputs are parameters:
- the wrapped operation of `retryWithBackoff` is a function from the call
  number (0-based) to its outcome, and the sleeps are returned as a list of
  delays;
- the 31 values `Math.random() * 16 | 0` produces for `generateUUID` are an
  input sequence of nibbles;
- `decodeURIComponent` is an uninterpreted function `decode`;
- the logging switch and level are arguments, and a lemma applies them to
  the configured values.

Two details of `retryWithBackoff` shape the model:
- It accepts any `maxRetries`. When it is 0 or less, the loop never runs,
  the operation is never called, and the result is `undefined`.
- The delay after failed attempt `i` is `baseDelay * 2^i`. That is the wait
  before attempt `i + 1`.

The invoice, payment, result and mint workflow, payment polling and session
storage are not in `utils.js` or `config.js`; only the endpoint names are.
They are not modelled.

## Model

| member | source | states |
|---|---|---|
| `Utils.IsEmitted` | frontend/js/utils.js:10-31 | a message is written iff logging is enabled and either it is an error or the configured level is a known level no more severe than the message; an unknown level lets only errors through |
| `Utils.GatingMonotone` | frontend/js/utils.js:12-27 | a level that lets a message through lets every more severe message through |
| `Utils.ConfiguredGating` | frontend/js/config.js:129-130 | with logging on at level "info", debug output is suppressed and info, warn and error are written |
| `Utils.RetryWithBackoff` | frontend/js/utils.js:36-49 | no call and `undefined` when maxRetries <= 0; otherwise 1..maxRetries calls, every call but the last failed, a value is the last call's value, an error is the final permitted call's error unchanged, delays are exactly baseDelay*2^0..baseDelay*2^(calls-2), and the outcome equals the reference settlement |
| `Utils.Backoff` | frontend/js/utils.js:44 | the k-element delay schedule whose i-th entry is baseDelay * 2^i |
| `Utils.BackoffDoubles` | frontend/js/utils.js:44 | every delay after the first is twice the one before it |
| `Utils.BackoffTotal` | frontend/js/utils.js:41-46 | after k failed attempts the total sleep is baseDelay * (2^k - 1) |
| `Utils.SettlementIsFirstSuccess` | frontend/js/utils.js:37-43 | the reference settlement returns the first success among the permitted calls and otherwise raises the last call's error |
| `Utils.DefaultSchedule` | frontend/js/utils.js:36-46 | with the defaults (3 tries, 1000 ms) the sleeps are 1000 and 2000 ms, 3000 ms in all |
| `Utils.UuidTemplateLiteral` | frontend/js/utils.js:62 | the template assembled from runs of `x` is the source's template literal |
| `Utils.HexDigit` | frontend/js/utils.js:65 | a nibble prints as the lower-case hexadecimal digit of that value |
| `Utils.HexValue` | frontend/js/utils.js:65 | inverse of the digit printing on the sixteen lower-case hex digits |
| `Utils.Variant` | frontend/js/utils.js:64 | the variant nibble (r AND 3, then OR 8) equals 8 + r mod 4 |
| `Utils.FillTemplate` | frontend/js/utils.js:62-66 | filling keeps the template's length |
| `Utils.FillTemplateAt` | frontend/js/utils.js:62-66 | character p of the filled template is the template character, or the digit (or variant digit) of the nibble numbered by the placeholders before p |
| `Utils.GenerateUUID` | frontend/js/utils.js:61-67 | 36 characters, hyphens at 8, 13, 18, 23, version digit 4 at 14, a variant digit in 8,9,a,b at 19 taken from nibble 15, and every other position the hex digit of its own input nibble |
| `Utils.NibblesInOrder` | frontend/js/utils.js:62-65 | later placeholder positions take later nibbles |
| `Utils.UuidRecoversNibbles` | frontend/js/utils.js:63-65 | every `x` position reads back as exactly the nibble it was generated from |
| `Utils.ShortenAddressAsWritten` | frontend/js/utils.js:86-90 | missing or empty gives "", a short address is kept, a long one becomes prefix, "...", and `slice(-endChars)`, which is the whole address when endChars is 0 |
| `Utils.ZeroSuffixAppendsWholeAddress` | frontend/js/utils.js:89 | as written, shortening "abcdefgh" with widths 2 and 0 gives "ab...abcdefgh", longer than the input |
| `Utils.ShortenAddress` | frontend/js/utils.js:86-90 | missing or empty gives "", a short address is kept, a long one becomes exactly its first startChars characters, "..." and its last endChars characters |
| `Utils.ShortenAgreesWithAsWritten` | frontend/js/utils.js:89 | for endChars > 0 the corrected and as-written helpers agree on every input |
| `Utils.ShortenIdempotent` | frontend/js/utils.js:86-90 | shortening an already shortened address changes nothing |
| `Utils.DefaultShortenedLength` | frontend/js/utils.js:86-89 | with default widths an address over 10 characters shows as 13 characters |
| `Utils.QueryString` | frontend/js/utils.js:165 | there is a query string iff the URL contains `?`, and it contains no `?` |
| `Utils.ParamKey` | frontend/js/utils.js:169 | a key contains no `=` |
| `Utils.ParamValue` | frontend/js/utils.js:169-170 | a value contains no `=` and is "" when the piece has no `=` |
| `Utils.ParseQueryParams` | frontend/js/utils.js:163-175 | the map the loop builds is the reference object of decoded keys and values assigned in piece order |
| `Utils.NoQueryNoParams` | frontend/js/utils.js:165-167 | a URL without `?`, or with an empty query, yields the empty object |
| `Utils.LastDuplicateWins` | frontend/js/utils.js:168-171 | a key is present iff some piece decodes to it, and its value is the decoded value of the last such piece |
| `Utils.PieceRoundTrip` | frontend/js/utils.js:169-170 | `k=v` without further `=` parses to key k and value v; a piece with no `=` has value "" |
| `Utils.QueryBetweenMarks` | frontend/js/utils.js:165 | only the text between the first and second `?` is the query |
| `Utils.FindPrizeIndex` | frontend/js/utils.js:232 | no index iff no prize id is strictly equal to the argument; otherwise the index of the first such prize |
| `Utils.GetPrizeById` | frontend/js/utils.js:231-233 | a prize is found iff the argument is a number in 1..9, and then it is the table entry with that id |
| `Utils.LookupIsStrict` | frontend/js/utils.js:232 | the number 3 finds prize 3 and the string "3" finds nothing |
| `Utils.FormatError` | frontend/js/utils.js:311-319 | a string is its own text; an object gives its non-empty message or the generic message, never ""; null or undefined throws |
| `Utils.FormatErrorEmptyOnlyFromEmptyString` | frontend/js/utils.js:311-319 | the formatted text is empty iff the error is the empty string |
| `Strings.Split` | frontend/js/utils.js:165-169 | at least one piece, no piece holds the separator, and joining the pieces gives the input back |
| `Strings.SplitJoin` | frontend/js/utils.js:165-169 | splitting a join of separator-free parts gives the parts back |
| `Strings.SplitSecond` | frontend/js/utils.js:165 | the second piece is the text between the first and second separator |
| `Config.PrizeIdsAreOneToNine` | frontend/js/config.js:39-94 | the prize table has nine entries whose ids are 1..9 in order |
| `Config.PrizeIdsDistinct` | frontend/js/config.js:39-94 | no two prizes share an id |
| `Config.PrizeRaritiesKnown` | frontend/js/config.js:43-91 | every rarity is Legendary, Epic, Rare, Uncommon or Common |
| `Config.MintAmountIsOneTon` | frontend/js/config.js:23 | the mint amount is a string of decimal digits whose value is 10^9 nanotons, one TON |
| `Config.ConfiguredValues` | frontend/js/config.js:34-131 | a play costs 25 Stars, payment polling runs every 2000 ms, logging is on at level "info" |

## Left out

- `formatTON` and `toNano`: floating-point parsing and formatting.
- `showToast`, its injected style sheet, `sanitizeHTML`, `getTouchPos` and `getMousePos`: they work on the DOM.
- `copyToClipboard`, `isMobile`, `vibrate`, `hapticFeedback` and `isTelegramWebApp`: they query or drive the browser and Telegram.
- `sleep`, `debounce` and `throttle`: timer scheduling. `retryWithBackoff` records its delays instead of sleeping.
- `storage`: a thin wrapper over `localStorage` and JSON.
- `validateInitData`: a thin wrapper over `URLSearchParams`.
- `formatDate`: locale-dependent formatting.
- The logger's console output, including the retry warning after each failed attempt but the last. Only the decision whether a level is written is modelled.
- `decodeURIComponent` is uninterpreted. Its exception on a malformed `%` escape is not modelled.
- The invoice, payment, result and mint workflow, the polling engine and the session store: they are not in these source files.
- `RetryWithBackoff`: delays are exact integers. JavaScript computes `baseDelay * Math.pow(2, i)` in floating point, and a non-integral or huge `baseDelay` is not modelled.
- `RetryWithBackoff`: `maxRetries` is an integer. Fractional values are not modelled.
- `ShortenAddress`: only a missing value or a string is passed, and the widths are non-negative integers. Negative widths and non-string truthy addresses are not modelled.
- `ShortenAddress` and `ShortenAddressAsWritten`: lengths and slices count characters (Unicode scalar values), not the UTF-16 code units JavaScript's `length` and `slice` count. The two agree on ASCII input, which covers TON addresses. On text outside the Basic Multilingual Plane the source can shorten text that the model keeps whole, and can split a surrogate pair.
- `ParseQueryParams`: the result is a plain map. A key named `__proto__` goes through JavaScript's prototype setter and is dropped, which the model does not capture. The default argument `window.location.href` is the explicit `url` parameter.
- `FormatError`: `message` is a string or absent. A truthy non-string message, returned unchanged by the source, is not modelled.
- `GetPrizeById`: the argument is an integral number, a string or another value. Non-integral numbers can never equal an id and fall under "another value".
- `Config`: `Object.freeze` is shallow, so the prize array, its records and the endpoint table stay writable in the program. Neither `utils.js` nor `config.js` writes them, and the model assumes the rest of the client does not either, so they are constants here.

## Findings

| source | as written | input that shows it | evidently intended | confidence | as-written member | corrected member |
|---|---|---|---|---|---|---|
| frontend/js/utils.js:89 | the suffix is `address.slice(-endChars)`; for `endChars = 0` this is `slice(-0)`, the whole address | `shortenAddress("abcdefgh", 2, 0)` gives `"ab...abcdefgh"`, longer than the input and not idempotent | an empty suffix, `"ab..."` | medium, not executed | `Utils.ZeroSuffixAppendsWholeAddress` | `Utils.ShortenAddress` |
