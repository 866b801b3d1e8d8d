# Deribit P&L monitoring bot — verified model

`pnl_monitoring.py` gathers the open futures positions of several Deribit
accounts and formats them into one Telegram message. This project models its
core in Dafny and proves properties of that model:

- **Report formatter** (`format_position_message`, module `Report`). A method
  with the source's nested loops, appends and the two final pops. It is proved
  equal to the function `ReportText`. The layout lemmas cover:
  - the placeholder text for an empty list;
  - one header per account;
  - the sign override driven by the direction field;
  - the grouped quote size, with '.' every three digits;
  - the liquidation placeholder;
  - the separators: one empty line between positions, two between accounts, and
    none at the end.
- **API client** (`DeribitAPI`, module `DeribitClient`). A class with the fields
  `access_token`, `refresh_token` and `token_expires_at`.
  - `authenticate` loops over the three authentication strategies in order and
    stops at the first response that carries a `result`.
  - `_is_token_valid`, `_ensure_authenticated` and `_make_request` gate every
    request on the token.
  - `get_account_email` and `get_positions` post-process the response.
- **Account discovery** (`load_accounts_config`, module `Accounts`). Runs over an
  environment map together with its iteration order. It finds every
  `DERIBIT_CLIENT_ID*` variable, pairs it with its `DERIBIT_CLIENT_SECRET*`, fails
  when no account survives, and sorts by suffix.
- **Aggregation** (`get_all_positions`, module `Portfolio`). One fresh client per
  account, then a stable sort by email.

The network is a `Transport` object (module `Network`) with three oracles, one
each for the authentication, account-summary and positions endpoints. An oracle
maps the requests already sent, plus the new request, to a reply: a transport
failure, or a status with a body. The transport keeps the log of every request
sent. Method contracts speak of that log, so "the endpoint is never called when
authentication fails" is a statement about the log. Clock reads become a
parameter `now`.

Numbers the source holds as floats are scaled integers:
- base-currency size (`size_currency`): units of 10^-5;
- liquidation price: units of 10^-2;
- quote-currency size (`size`): an integer.

`Text.Fixed` renders a scaled integer the way `"{:.5f}"` / `"{:.2f}"` renders a
number that has at most that many decimals.

### Behaviour of `pnl_monitoring.py` worth knowing

- A request is never retried. `_make_request` returns `None` on any non-200
  reply (`pnl_monitoring.py:100-108`). `authenticate` runs only when the token is
  invalid at call time (`pnl_monitoring.py:81-82`).
- The suffix of a client-id variable is `key.replace("DERIBIT_CLIENT_ID", "")`
  (`pnl_monitoring.py:166`), which deletes every occurrence of that text.
  - Two variables can therefore share a suffix; the one seen later in the
    environment wins (`Accounts.ClientIdsLastWins`).
  - When the rest of the name does not contain `DERIBIT_CLIENT_ID` again, the
    suffix is just that rest (`Accounts.SuffixStripsPrefix`).
- Results are sorted by email with Python's stable `list.sort`
  (`pnl_monitoring.py:209`). Two accounts with the same email both appear, in
  account order (`Portfolio.AggregateSorted`).
- The positions request is issued before the email is tested
  (`pnl_monitoring.py:199-202`). An account without a truthy email is dropped
  after both requests were sent.
- A failed `authenticate` returns `False` without assigning the token fields
  (`pnl_monitoring.py:72`), so they keep their earlier values.
- A `token_expires_at` of 0 is falsy, so `_is_token_valid` rejects it
  (`pnl_monitoring.py:76`).
- An account without positions gives three lines: the header, `Position: -` and
  `Liquidation: -` (`pnl_monitoring.py:224`, `258-260`).

## Model

| member | source | states |
|---|---|---|
| `Text.Digits` | pnl_monitoring.py:248 | the decimal digits of `n`: non-empty, digits only, no leading zero unless `n` is 0 |
| `Text.ValueOfDigits` | pnl_monitoring.py:248 | reading `Digits(n)` back as a number gives `n` |
| `Text.PadLeftDigits` | pnl_monitoring.py:245-256 | zero-padding to a width keeps the digits' value and writes no extra leading zero |
| `Text.UnsignedShape` | pnl_monitoring.py:245-256 | a fixed-point magnitude is an integer part without superfluous zeros, one '.', exactly `scale` digits, and the digits read together give `n` |
| `Text.FixedShape` | pnl_monitoring.py:245-256 | a fixed-point rendering starts with '-' exactly when the value is negative, followed by the magnitude |
| `Text.UngroupGrouped` | pnl_monitoring.py:248 | deleting the '.' separators from a grouped digit string gives the digits back |
| `Text.GroupedSeparators` | pnl_monitoring.py:248 | in a grouped string a '.' stands exactly where the distance to the end is a multiple of four, and never in front |
| `Text.GroupedStartsWithDigit` | pnl_monitoring.py:248 | grouping keeps the leading digit in front |
| `Text.GroupedHasDigitsAndDots` | pnl_monitoring.py:248 | a grouped digit string contains only digits and '.' |
| `Text.QuoteTextShape` | pnl_monitoring.py:248-250 | the quote amount text has a leading '-' exactly for a negative amount; without its dots it is the digits of the magnitude, with a dot every four characters from the right |
| `Text.JoinLinesAppend` | pnl_monitoring.py:271 | `"\n".join` of two non-empty runs of lines puts exactly one newline between them |
| `Text.JoinLinesEndsWithLast` | pnl_monitoring.py:271 | the joined text ends with the last line |
| `Text.JoinLinesLastChar` | pnl_monitoring.py:271 | the joined text's last character is the last line's last character |
| `Order.LexLessTotal` | pnl_monitoring.py:209 | Python's string order is total: of two different strings one is smaller |
| `Order.LexLessTransitive` | pnl_monitoring.py:209 | Python's string order is transitive |
| `Order.InsertBySorted` | pnl_monitoring.py:209 | inserting into a sorted list keeps it sorted |
| `Order.InsertByKeyed` | pnl_monitoring.py:209 | inserting behind all equal keys keeps the order of equal-key elements, the new one last |
| `Order.SortByCorrect` | pnl_monitoring.py:209 | `list.sort(key=...)`: the result is ordered by key, a permutation of the input, and stable |
| `Order.SortedDistinctIsStrict` | pnl_monitoring.py:186 | a sorted list with pairwise distinct keys is strictly increasing |
| `Network.Transport.Exchange` | pnl_monitoring.py:53-55 | one HTTP call: the request is appended to the log and the reply is the oracle's answer to the log so far and the request |
| `DeribitClient.DeribitApi.constructor` | pnl_monitoring.py:14-21 | the base URL is the testnet or production one; no token, refresh token or expiry is set |
| `DeribitClient.AuthAttempts` | pnl_monitoring.py:50-72 | the strategies are tried in order up to the first granted reply; on success the token is that reply's result, otherwise all strategies were tried, and every earlier one got no grant |
| `DeribitClient.AuthStopsAtFirstGrant` | pnl_monitoring.py:50-67 | if strategy `k` is the first granted one, exactly `k + 1` strategies are sent and its result is the token |
| `DeribitClient.AuthFailsIffNoGrant` | pnl_monitoring.py:50-72 | authentication fails exactly when no strategy gets a reply whose status `raise_for_status` accepts (outside 400-599), whose body is JSON, and which carries a `result` |
| `DeribitClient.AuthenticateEffect` | pnl_monitoring.py:23-72 | a non-empty prefix of the strategies, in order, is sent; it succeeds exactly when some strategy is granted, and then the first grant's token is stored with `expiry = now + expires_in (default 900) - 60`; failure sends all three strategies and changes no field |
| `DeribitClient.DeribitApi.Authenticate` | pnl_monitoring.py:23-72 | the loop leaves the fields, the transport log and the result that `AuthenticateRun` describes |
| `DeribitClient.SessionValid` | pnl_monitoring.py:74-77 | a missing or empty access token, or a missing or zero expiry, makes the session invalid; a valid session's expiry lies strictly after `now` |
| `DeribitClient.ExpiryIsFinal` | pnl_monitoring.py:74-77 | a session invalid at some time stays invalid at every later time; one valid later was valid earlier |
| `DeribitClient.DeribitApi.IsTokenValid` | pnl_monitoring.py:74-77 | the client's own fields: no or empty access token, or no or zero expiry, is invalid; a valid token's expiry lies strictly after `now` |
| `DeribitClient.EnsureRun` | pnl_monitoring.py:79-83 | a successful ensure step always leaves an access token set |
| `DeribitClient.DeribitApi.EnsureAuthenticated` | pnl_monitoring.py:79-83 | authenticates exactly when the token is not valid at `now`, with the effect `EnsureRun` describes |
| `DeribitClient.RequestGating` | pnl_monitoring.py:74-108 | a valid token (set, non-empty, non-zero expiry, `now` before it) sends only the endpoint call; a failed re-authentication returns None, sends only the three strategies, none carrying an Authorization header, and keeps the session; a successful one is followed by the endpoint call |
| `DeribitClient.TokenReusedUntilExpiry` | pnl_monitoring.py:64-83 | a granted token is reused by every request before `now + expires_in - 60`, and from then on the client authenticates again first |
| `DeribitClient.DeribitApi.MakeRequest` | pnl_monitoring.py:85-108 | the request is the bearer-authenticated GET of `base/endpoint`; the result is the reply's `result` for a 200 JSON reply, None otherwise |
| `DeribitClient.EmailOf` | pnl_monitoring.py:117-119 | an email exists exactly for a non-empty summary whose email is not null; a present email is returned as is, a missing one as "Unknown" |
| `DeribitClient.DeribitApi.GetAccountEmail` | pnl_monitoring.py:110-119 | queries the account summary with `currency` and `extended=true` and returns `EmailOf` of the result |
| `DeribitClient.NonZero` | pnl_monitoring.py:128-130 | exactly the positions with a non-zero size, each as often as in the input, in their original order |
| `DeribitClient.PositionsOf` | pnl_monitoring.py:128-131 | no response gives `[]`; a response gives exactly its records of non-zero size, in order (`NonZero`) |
| `DeribitClient.DeribitApi.GetPositions` | pnl_monitoring.py:121-131 | queries the futures positions of `currency` and returns `PositionsOf` of the result |
| `Accounts.RemoveAllNoOccurrence` | pnl_monitoring.py:166 | `str.replace` changes nothing in a string that does not contain the pattern |
| `Accounts.SuffixStripsPrefix` | pnl_monitoring.py:166 | for a name `DERIBIT_CLIENT_ID + rest` whose rest does not contain the prefix, the suffix is `rest` |
| `Accounts.ClientIdsLastWins` | pnl_monitoring.py:163-167 | a suffix is discovered exactly when some non-empty `DERIBIT_CLIENT_ID*` variable files under it, and the id kept is that of the last such variable |
| `Accounts.SuffixOrder` | pnl_monitoring.py:163-170 | the suffixes the second loop visits are exactly the discovered ones, each once |
| `Accounts.FindClientIds` | pnl_monitoring.py:163-167 | the first loop builds the suffix-to-id dictionary and its insertion order |
| `Accounts.Testnet` | pnl_monitoring.py:160 | without `DERIBIT_TESTNET` the flag is false; `true`, `True` and `TRUE` make it true; a true flag means the variable is set to a four-character value |
| `Accounts.TestnetIsAnyCapitalisation` | pnl_monitoring.py:160 | the flag is true exactly when `DERIBIT_TESTNET` is set to the four letters t, r, u, e, each in either case |
| `Accounts.Collect` | pnl_monitoring.py:170-180 | an account is collected exactly for a discovered suffix with a non-empty secret, carrying that suffix's id and secret and the testnet flag; suffixes stay distinct |
| `Accounts.PairWithSecrets` | pnl_monitoring.py:170-180 | the second loop appends the accounts `Collect` describes |
| `Accounts.SuffixKeyIsLexical` | pnl_monitoring.py:186 | the key `(suffix != "", suffix)` orders suffixes exactly as plain string order; the bare variable's "" comes first |
| `Accounts.SortedAccountsStrict` | pnl_monitoring.py:186 | sorting the collected accounts keeps them, with strictly increasing suffixes |
| `Accounts.AccountsConfigCorrect` | pnl_monitoring.py:157-187 | the ValueError is raised exactly when no discovered suffix has a secret; otherwise the result is non-empty, strictly increasing by suffix, and holds exactly the accounts of discovered suffixes with a secret |
| `Accounts.LoadAccountsConfig` | pnl_monitoring.py:157-187 | the loops, the error and the sort compute `AccountsConfig` |
| `Portfolio.AccountRun` | pnl_monitoring.py:196-206 | an account that fails authentication sends nothing further and yields nothing; otherwise both request steps run (each re-authenticates first if the new token is not valid at `now`), the log is the one they leave, it yields an entry exactly when the email is present and non-empty, and the entry is that email with the filtered positions reply (`[]` when that request failed) |
| `Portfolio.RunAccounts` | pnl_monitoring.py:195-206 | no more entries than accounts, each with a non-empty email and only non-zero positions |
| `Portfolio.QueryAccount` | pnl_monitoring.py:196-206 | one loop iteration with a fresh client sends the requests and yields the entry `AccountRun` describes |
| `Portfolio.AggregateSorted` | pnl_monitoring.py:195-210 | the results are ordered by email, are a permutation of the collected entries, no more than the accounts, keep account order among equal emails, and have non-empty emails and non-zero positions |
| `Portfolio.GetAllPositions` | pnl_monitoring.py:189-214 | a configuration error gives `[]` and sends nothing; otherwise the log is that of the per-account runs and the result is their entries sorted by email |
| `Report.FormatPosition` | pnl_monitoring.py:229-257 | the inline computation of one position's two lines gives `PositionLine` and `LiquidationLine` |
| `Report.AppendPositions` | pnl_monitoring.py:228-257 | the inner loop appends the position lines of the account |
| `Report.AppendAccount` | pnl_monitoring.py:224-263 | one outer iteration appends the account's block and two empty lines |
| `Report.TerminatedIsJoinedAndSeparator` | pnl_monitoring.py:262-269 | the two pops remove exactly the two empty lines left after the last account |
| `Report.FormatPositionMessage` | pnl_monitoring.py:216-271 | the message is the placeholder for no results, otherwise the account blocks joined as `ReportText` lays them out |
| `Report.EmptyReport` | pnl_monitoring.py:218-219 | no results give exactly "No position data available" |
| `Report.DirectionOverridesSign` | pnl_monitoring.py:234-241 | "sell" shows both sizes as `-abs(raw)` and tags SHORT; any other direction shows `abs(raw)` and tags LONG |
| `Report.MinusExactlyForSell` | pnl_monitoring.py:234-256 | both rendered sizes start with '-' exactly for a sell of non-zero size, never for another direction, whatever the raw sign |
| `Report.QuoteSizeText` | pnl_monitoring.py:248-250 | the shown quote size has '-' exactly when the displayed size is negative; without dots it is the digits of `abs(size)`, with a dot every four characters from the right |
| `Report.LiquidationPlaceholder` | pnl_monitoring.py:244-245 | the liquidation field is "-" exactly when the price is absent, null or zero, otherwise the price to two decimals |
| `Report.LiquidationEndsInMark` | pnl_monitoring.py:245 | the liquidation field ends in '-' or a digit |
| `Report.JoinedPairsLayout` | pnl_monitoring.py:253-257 | pairs of lines joined with one empty line put pair `k` at `3k` and `3k+1` and an empty line at `3k+2` |
| `Report.PositionLinesLayout` | pnl_monitoring.py:228-257 | position `k` of an account, in order, has its position line at `3k`, its liquidation line at `3k+1`, and one empty line before the next |
| `Report.AccountBlockLayout` | pnl_monitoring.py:224-260 | every block starts with `<b>Deribit</b> <email>`; an account without positions has exactly `Position: -` and `Liquidation: -` after it |
| `Report.AccountBlockEnds` | pnl_monitoring.py:224-260 | a block's first line is not empty and its last line is the last liquidation line |
| `Report.JoinedAppend` | pnl_monitoring.py:262-263 | joining two runs of blocks puts exactly one separator between them |
| `Report.ReportLinesAppend` | pnl_monitoring.py:262-271 | consecutive accounts are separated by exactly two empty lines, since no block begins or ends with one |
| `Report.ReportLinesEnds` | pnl_monitoring.py:224-269 | the message starts with the first account's header and ends with the last line of the last block, which is not empty |
| `Report.ReportTextEnds` | pnl_monitoring.py:265-271 | the joined text never ends with a newline: its last character is '-' or a digit |
| `Report.NoPositionsLines` | pnl_monitoring.py:258-269 | one account without positions gives exactly three lines: header, `Position: -`, `Liquidation: -` |
| `Report.NoPositionsMessage` | pnl_monitoring.py:258-271 | that message is those three lines joined by newlines, with no trailing blank line |
| `Report.GroupedQuoteExample` | pnl_monitoring.py:248 | 1234567 is shown as `1.234.567` |

## Left out

- Network I/O (`requests.get` / `requests.post`). Modelled as oracles on the request log. Timeouts, concurrency and the real remote behaviour are not modelled.
- `TelegramBot` and `send_message` (`pnl_monitoring.py:133-155`), `send_positions_to_telegram` and `main` (273-306). These only deliver the message.
- `print` logging and the optional `dotenv` import (6-11). Neither affects any returned value.
- `time.time()`. It is a parameter `now`, and one run of `get_all_positions` uses a single `now` for all its calls.
- Report.FormatPosition: floats are scaled integers, so IEEE rounding in `:.5f`, `:.2f` and `:,.0f` is not modelled: a quote size is an integer, and a base size or price has at most five or two decimals. Python prints `-abs(0.0)` as `-0.00000`; `Report.MinusExactlyForSell` states that a zero base size shows no '-', which holds for the integer 0 the source defaults to, not for a float 0.0 from the exchange.
- DeribitClient.DeribitApi.Authenticate: a reply `{"result": null}` makes the source raise `TypeError` at `result["access_token"]` (`pnl_monitoring.py:62`), which nothing catches, so the run crashes. The model treats a null `result` like a missing one and moves on to the next strategy. A body that is not JSON is also modelled as "move on" here, and as a `None` result in `_make_request` (`pnl_monitoring.py:101`, `DeribitClient.DeribitApi.MakeRequest`). Both match requests 2.27 and later, where `JSONDecodeError` is a `RequestException` (caught at `pnl_monitoring.py:69`; in `_make_request` at `105`). With older versions the `ValueError` in either place reaches `pnl_monitoring.py:212`, and the whole result becomes `[]`.
- DeribitClient.NonZero: a record with `"size": null` is kept by the source (`None != 0`), and formatting it then crashes at `abs(None)` (`pnl_monitoring.py:236`, `240`). The model reads a null size as missing (`SizeOf` gives 0) and drops the record.
- Report.FormatPosition: an `"instrument_name": null` prints as `None` in the source; the model does not tell null from missing there and prints `Unknown`. A null `size_currency` makes the source crash at `abs(None)`; the model reads it as 0. (A null `direction` or liquidation price behaves as a missing one in the source too.)
- DeribitClient.DeribitApi.Authenticate: a `result` without `access_token` or `refresh_token` raises `KeyError` in the source. The model assumes both are present (the `Token` record always has them). A non-numeric `expires_in` (`TypeError`) and a JSON body that is not an object are not modelled either.
- DeribitClient.EmailOf: an email value that is neither a string nor null (truthy or falsy by Python's rules) is not modelled. A present email is a string.
- `refresh_token`. It is stored but never used, so no refresh exchange exists.
- Accounts.Testnet: `str.lower()` is modelled for ASCII letters only. Unicode case mapping is not.
- Accounts.LoadAccountsConfig: the environment is a map whose iteration order is a separate sequence listing each key once (`Listed`). Process-wide `os.environ` mutation is not modelled.
- Python's dictionary insertion-order semantics are modelled exactly where they matter: a suffix keeps its first position when a later key overwrites it.
