# HoyoSignIn decision logic in Dafny

HoyoSignIn signs HoYoLAB accounts in to the daily check-in of several games
(HI3, Genshin, ToT, HSR, ZZZ) and reports the results to Telegram. This
project models the parts of it that decide things. HTTP and JSON are
abstracted away: each call becomes an input value that holds either a
decoded payload or the exception the call raised.

- `Sign` (sign.dfy) covers `Sign.run`. Its three-way outcome is: already
  claimed, manual first check-in, or claim. It also covers the reward
  indexing, how claim `retcode`s are classified, the highest-level role
  selection, the header builder and the `get_roles` checks.
- `Checkin` (checkin.dfy) covers `CheckInManager`:
  - result shaping per game and the per-account result dictionary;
  - success and failure counts and the account and total status lines;
  - routing each account's block to its chat, the default chat, or nowhere;
  - the `run_all` early exit and the older `run_check_in` runner.
- `Config` (config.dfy) covers `load_accounts` over an explicit
  environment list. That includes:
  - legacy `@`-lists and the new `ACCOUNT_<ID>_COOKIES` keys with their seen-set;
  - the cookie validator, the header and bot-token validators;
  - the Telegram and proxy settings.
- `HttpClient` (http_client.dfy) covers the bounded retry loop, run against
  a sequence of per-attempt outcomes, and the SOCKS5 proxy map.
- `LegacySettings` (legacy_settings.dfy) covers the older `HttpRequest`
  loop, its proxy and the `USE_PROXY` flag.
- `Text` (text.dfy) holds the Python string operations the code relies on:
  `strip`, `split`, `join`, `replace`, `in`, `lower` and `str(int)`.
- `Wrappers` (wrappers.dfy) holds `Option` and `Result`.

Python dictionaries are modelled as sequences of (key, value) pairs in
insertion order. Putting an existing key keeps its position, just as in a
Python `dict`. A missing payload field takes the default the code passes to
`.get`.

Two points where the code's behaviour is easy to misread:

- An attempt of `HttpClient.request` fails when `session.request` itself
  raises, or when `raise_for_status` raises. In `requests` that method
  raises only for 4xx and 5xx statuses, so the model fails an attempt on
  status 400 to 599 and returns any other status, 3xx included.
- `Sign.run` catches every exception itself. So `run_check_in_for_game`
  reports success whenever the check-in ran, and its `IndexError` branch
  can only be reached by an exception raised outside `Sign.run`.
  `SignCall` keeps that case as an input.

## Model

| member | source | states |
|---|---|---|
| Sign.GetHeader | src/sign.py:47-58 | The header keys are the four base keys plus every `os_headers` key. `os_headers` entries override the base ones, and the Cookie is the account's cookie string unless `os_headers` overrides it. |
| Sign.GetRoles | src/sign.py:101-109 | The role list comes back iff the payload has `retcode` 0 (1 when missing) and non-null `data`. Otherwise the error is "Error getting roles: " plus the message ("Unknown error" when missing). Request and JSON exceptions propagate unchanged. |
| Sign.HighestFrom | src/sign.py:149-156 | The scan from `i` on, starting from a best-so-far that is the first maximum of the prefix, ends at the first role of greatest level (a missing level counts as 0). |
| Sign.HighestRole | src/sign.py:149-156 | For a non-empty list the chosen index is the first of greatest level: every role is at most its level and every earlier role is strictly lower. |
| Sign.FirstHighestUnique | src/sign.py:149-156 | Only one index can be the first of greatest level, so the selection is fully determined: ties keep the earliest role. |
| Sign.SelectRole | src/sign.py:141-161 | Selection succeeds iff `get_roles` succeeds with a non-empty list, and then yields the first highest role. An empty list fails with the server message or "Role list is empty". A `get_roles` error propagates. |
| Sign.ClaimedReward | src/sign.py:224-229 | When already signed, the reward is `awards[total_sign_day - 1]` if `0 < total_sign_day <= len(awards)`, and Unknown x 0 otherwise, negative day counts included. |
| Sign.NextReward | src/sign.py:243-248 | The reward of a fresh claim is `awards[total_sign_day]` with Python's indexing. A day count at or past the length gives Unknown x 0, and a negative one counts from the end. One before the start raises "list index out of range". |
| Sign.ClaimedIsPreviousNext | src/sign.py:224-248 | For a non-negative day count `t`, the reward shown as already claimed on `t + 1` is the one a fresh claim on `t` announces. No reward is claimed at day count 0 or past the list, and the last one is claimed at day count `len(awards)`. |
| Sign.NegativeDayShowsLastAward | src/sign.py:224-248 | At day count -1 a claim is for the last award, while day count 0 shows no claimed award, so the agreement above needs a non-negative count. |
| Sign.ClaimThenAlreadyDone | src/sign.py:223-274 | After a successful claim at a non-negative day count, a later run that sees `is_sign` and the raised day count reports "Already done!" with the same day count and the same reward as the claim. |
| Sign.ClaimOutcome | src/sign.py:254-281 | The day count rises by one iff the claim answer has `retcode` 0 (99999 when missing), and is otherwise unchanged. On success the status is the server message or "Success". On a non-zero code it is "Error: " plus the message, or the unknown-code text. On an exception it is "Error: " plus the exception. |
| Sign.Resolve | src/sign.py:222-281 | The first match wins: `is_sign` gives "Already done!" with the claimed reward; else `first_bind` gives "Please check in manually once" with N/A x 0; else the claim, whose status and day count are exactly what `Sign.ClaimOutcome` gives for the claim answer. A claim POST is issued iff neither flag is set and the next reward could be read; reading it before the start of the list raises "list index out of range" before any POST. |
| Sign.UnclaimedIgnoresClaim | src/sign.py:223-248 | When no POST is issued, the claim response has no influence on the result. |
| Sign.AlreadySignedIgnoresFirstBind | src/sign.py:223-232 | If `is_sign` holds, the result is "Already done!" whatever `first_bind` is. |
| Sign.ClaimRewardIndependentOfResponse | src/sign.py:243-248 | The reward shown, whether a POST is issued, and whether the reward read raises do not depend on the claim response. |
| Sign.MissingRetcodeFails | src/sign.py:243-271 | When the next reward can be read, a claim answer without `retcode` or message is a failure that reports code 99999 and leaves the day count unchanged. |
| Sign.Run | src/sign.py:182-288 | A role, info or award exception yields "Critical error: " plus the exception, and an awards JSON error adds the "Error getting awards: " prefix. An empty info payload yields the fixed error line. A `data: null` in the info or awards payload yields the `'NoneType' object has no attribute 'get'` error. A claim whose reward is read before the start of the list yields "Critical error: list index out of range". Otherwise a filled message is returned, and its status, day count, reward, date, uid, region, nickname and level come from the resolved check-in and the selected role. |
| Sign.RunStopsAtRoleFailure | src/sign.py:191-198 | A role or info failure, or null info data, ends the run with a plain line before the awards and the claim are looked at. |
| Sign.MissingRolesRetcodeFails | src/sign.py:103-107 | A roles payload without `retcode` is treated like `retcode` 1: it fails with the server message or "Unknown error". |
| Checkin.RunForGame | src/checkin.py:71-112 | `success` holds iff `Sign.run` returned, with its message kept as is. An `IndexError` gives the troubleshooting text; any other exception gives "{game} Check-In for account {id}:\n {e}". The account id and the game are always recorded. |
| Checkin.ReturnedCallsAllSucceed | src/checkin.py:72-80 | When `Sign.run` returns for every game, every result of the account is a success and the failure count is 0. |
| Checkin.PutEachAll | src/checkin.py:129-136 | A property that every assigned value has holds for every value of the per-account dictionary. |
| Checkin.AllSuccessCount | src/checkin.py:185-190 | When every result is a success, the success count is the number of results. |
| Checkin.PutLookup | src/checkin.py:136 | After `d[k] = v`, key `k` maps to `v` and every other key keeps its value. |
| Checkin.PutNoDuplicates | src/checkin.py:136 | Assigning into a dictionary never duplicates a key. |
| Checkin.KnownGamesUpToShape | src/checkin.py:129-136 | The recorded games are distinct and are exactly the enabled names that exist in GAME_CONFIGS. |
| Checkin.PutEachKeys | src/checkin.py:129-136 | The keys of the per-account loop are the known names in order of first occurrence. |
| Checkin.PutEachValue | src/checkin.py:129-136 | A known game's entry holds the value of its last occurrence in the enabled list. |
| Checkin.ResultsKeys | src/checkin.py:129-136 | The per-account result keys are the enabled games found in GAME_CONFIGS, each once, in order of first occurrence. |
| Checkin.ResultsValue | src/checkin.py:129-136 | Each known game maps to the result of the check-in at its last position in the enabled list, since duplicates collapse to one entry. |
| Checkin.RunForAccount | src/checkin.py:114-138 | The result keys are distinct, and a game is a key iff it is enabled and in GAME_CONFIGS. Unknown names are skipped. |
| Checkin.CountsPartition | src/checkin.py:185-196 | Per account, successes plus failures equals the number of results. |
| Checkin.AccountStatus | src/checkin.py:194-196 | The status line is "Account {id}: {s}/{t} succeeded" with `s` the successes and `t` the number of results, so failures are counted too. |
| Checkin.Target | src/checkin.py:177-212 | An account with no results gets no block. Otherwise the block goes to its chat id if truthy, else to the default chat if truthy, else it is dropped. Only a truthy chat ever receives one, and an account with results and no chat of its own goes to a truthy default chat. |
| Checkin.RouteNoDuplicates | src/checkin.py:170-212 | The chat grouping has one entry per chat. |
| Checkin.RouteLookup | src/checkin.py:170-212 | Each chat in the grouping holds exactly the blocks addressed to it, in account order, and a chat without blocks has no entry. |
| Checkin.RouteGroups | src/checkin.py:170-212 | The same two facts hold for every chat at once. |
| Checkin.RouteChatsTruthy | src/checkin.py:202-212 | The empty chat id never receives a notification. |
| Checkin.TotalSuccess | src/checkin.py:217-220 | The global successes never exceed the global total. |
| Checkin.DroppedRunsCount | src/checkin.py:215-220 | An account whose block is dropped still adds its results to both global totals. |
| Checkin.RunAll | src/checkin.py:140-226 | No accounts means nothing is sent. Otherwise there is one notification per chat that receives a block and none for other chats, with distinct chats. Each carries app "HoyoSignIn", the global totals line, and exactly that chat's blocks, which are non-empty. The notifications go out in the order in which their chats first entered the grouping. |
| Checkin.NotificationsCover | src/checkin.py:214-226 | Sending one notification per grouping entry reaches every chat with blocks exactly once, each with its own blocks. |
| Checkin.LegacyNotificationFor | src/checkin.py:243-254 | An account is notified iff the game is enabled for it and its chat id, or else the default, is truthy. The notification has app "{game} Helper", status "{id}: Success/Error", and the game run's own message. |
| Checkin.LegacySound | src/checkin.py:243-254 | Every notification of the older runner is the one of some account. |
| Checkin.LegacyComplete | src/checkin.py:243-254 | Every account with the game enabled and a chat is notified. |
| Checkin.RunCheckIn | src/checkin.py:229-254 | Nothing is sent unless both a game name and a configuration are given. Otherwise there is at most one notification per account, each for an account that has the game enabled. |
| Config.ParseHeaders | src/config.py:35-40 | A string or a missing value becomes `{}`, and a mapping is kept. |
| Config.MissingFields | src/config.py:53 | The missing fields keep the order of the required list, and are exactly the required ones that do not occur as substrings. |
| Config.ValidateCookies | src/config.py:50-56 | The cookies are accepted iff each of account_id, cookie_token, ltoken and ltuid occurs in them. Otherwise the error lists the missing ones, in that order. |
| Config.ValidateBotToken | src/config.py:65-69 | The token becomes None iff it is None or non-empty and all whitespace. Otherwise it is kept, the empty string included. |
| Config.Getenv | src/config.py:166 | A variable is found iff some pair has its name, and the value returned is that of the first pair with that name. |
| Config.GetTelegramConfig | src/config.py:206-213 | The token falls back, by truthiness, from the setting to BOT_API and then to BOT_TOKEN, and is validated. The default chat falls back from the setting to BOT_CHAT and then to TELEGRAM_CHAT_ID, so it is truthy iff one of the three is. Notifications are on. |
| Config.GetProxyConfig | src/config.py:216-222 | The proxy is on iff the setting is on or USE_PROXY lower-cases to 'true'. The proxy data falls back to PROXY_DATA when the setting is empty. |
| Config.AccountIdOf | src/config.py:165 | An id is found iff 'account_id=' occurs. The id is the text right after the first occurrence, up to the next ';', the next 'account_id=', or the end, whichever comes first. |
| Config.ValueAfter | src/sign.py:165 | `split(key)[1].split(';')[0]` is the text that starts right after the first `key` and stops at the first ';', the first later `key`, or the end. It holds neither. |
| Config.ValueAtUnique | src/config.py:165 | Only one value can start at a position and stop at the first stop, so the extracted id is fully determined. |
| Config.EnabledGames | src/config.py:167-168 | An unset or empty value gives the fallback. Otherwise there is one entry per comma-separated piece, and each is that piece stripped. |
| Config.LegacyAccount | src/config.py:163-177 | A piece becomes an account iff it is not blank and passes cookie validation. The account is named by its account_id value or `<game>_<idx>`. Its chat is the account's chat variable or, when that is empty or unset, the default. Its games default to the one game. |
| Config.LegacyFallbackIdsDistinct | src/config.py:165 | Two pieces without an `account_id=` at different positions get different `<game>_<idx>` ids. |
| Config.LegacyAccountsFromPieces | src/config.py:161-177 | Every legacy account comes from one piece of the `@`-list, at that piece's position with skipped pieces counted, and holds valid non-blank cookies. |
| Config.LegacyPiecesComplete | src/config.py:162-177 | Every non-blank valid piece becomes an account. A bad piece is skipped, never fatal. |
| Config.LegacyAccounts | src/config.py:157-177 | Every legacy account of every game has valid cookies. |
| Config.NewAccount | src/config.py:188-201 | A new-format value becomes an account iff its cookies are valid. The chat falls back to the default only when its variable is unset, and the games default to every GAME_CONFIGS name. |
| Config.NewAccountsSound | src/config.py:179-201 | Each new-format account comes from one `ACCOUNT_<ID>_COOKIES` variable with a non-blank value, and that variable is the first of the scan with its id. |
| Config.NewAccountsComplete | src/config.py:179-201 | The first `ACCOUNT_<ID>_COOKIES` variable with an unseen id yields its account whenever its value is non-blank and valid. |
| Config.NewAccountsExactly | src/config.py:179-201 | The new-format accounts are exactly those of the first variable with each id, when its value is non-blank and valid. |
| Config.NewAccountsDistinct | src/config.py:180-186 | No two new-format accounts share an id. |
| Config.NewAccountsValid | src/config.py:179-201 | Every new-format account has valid, non-blank cookies. |
| Config.LoadAccounts | src/config.py:143-203 | All legacy accounts come first, then the new-format ones, and every loaded account has valid cookies. |
| HttpClient.RequestFrom | src/http_client.py:81-117 | From an attempt on, the first successful response is returned after exactly that many attempts. Otherwise all attempts are made and the last attempt's own exception is re-raised. |
| HttpClient.Request | src/http_client.py:81-119 | At most `max_retry + 1` attempts are made, and the first successful response is returned at once. When all fail, the last attempt's exception is raised. "All N HTTP requests failed" is raised only when no attempt runs. |
| HttpClient.RequestFailsIffAllAttemptsFail | src/http_client.py:81-117 | The request fails iff none of the first `max_retry + 1` attempts succeeds. |
| HttpClient.RequestIgnoresLaterAttempts | src/http_client.py:98-99 | Attempts after the first success never influence the result. |
| HttpClient.DefaultRequestGivesUpAfterFour | src/http_client.py:55 | With the default `max_retry` of 3, four failing attempts end with the fourth attempt's exception. |
| HttpClient.GetProxy | src/http_client.py:28-35 | There is no proxy iff the proxy data is unset or empty. Otherwise both http and https map to 'socks5://' plus the data. |
| HttpClient.ClientProxy | src/http_client.py:24-26 | An explicit `use_proxy` argument wins over the configured flag, and a disabled proxy is none. |
| LegacySettings.LegacyRequest | settings.py:65-88 | The first attempt that raises nothing is returned, whatever its status. The request fails iff the first `max_retry + 1` attempts all raise, and then exactly `max_retry + 1` attempts were made and the error counts them. |
| LegacySettings.ClientsAgreeWithoutErrorStatus | settings.py:67-86 | On answers without a 4xx or 5xx status, the old and the new client return the same response after the same number of attempts. |
| LegacySettings.ServerErrorReturnedOnlyByLegacy | settings.py:74-86 | A first answer of 503 is returned at once by the old client but retried or raised by the new one. |
| LegacySettings.LegacyDefaultGivesUpAfterThree | settings.py:65-88 | With the default `max_retry` of 2, three raising attempts end in the error for three attempts. |
| LegacySettings.FailureTextOfThree | settings.py:88 | That error reads "All 3 HTTP requests failed, die.". |
| LegacySettings.LegacyProxy | settings.py:53-55 | Both schemes go through 'socks5://' plus PROXY_DATA, and an unset PROXY_DATA raises. |
| LegacySettings.UseProxyOption | settings.py:91 | The flag is on iff USE_PROXY is set and lower-cases to 'true'. |
| LegacySettings.ModuleProxy | settings.py:49-51 | The module client has no proxy unless the flag is on, and then it has the SOCKS5 map or the unset-data error. |
| Text.Strip | src/config.py:163 | `strip()` is the slice left after removing whitespace from both ends: it is empty iff the string is all whitespace, and otherwise it neither starts nor ends with whitespace. |
| Text.StripCharacterized | src/config.py:163 | Any slice with only whitespace around it and none at its ends is the stripped string. |
| Text.Split | src/config.py:161 | `split(sep)` gives pieces free of the separator that, joined with it, give back the string; there is more than one piece iff the separator occurs. The first piece ends at the leftmost occurrence and the rest is the split of what follows it, so the cuts are Python's even for a separator that overlaps itself. |
| Text.RemoveAllIsJoinOfSplit | src/config.py:183 | `replace(pat, '')` equals joining `split(pat)` with nothing. |
| Text.ParseNatToString | src/checkin.py:196 | `str(n)` for a count is its decimal digits, read back as `n`. |

## Left out

- Real HTTP (sessions, timeouts, SOCKS transport) and JSON decoding are left out. Each call is an input value that holds the decoded payload, the request exception, or the JSON error `to_python` re-raises. A null `data` in the info or awards payload is modelled, with the error it raises. Other null fields, a null `awards` list and non-object payloads are modelled as missing.
- The `time.sleep(2)` before the claim, all logging, and the `datetime.now()` date line of each block are left out, because they are side effects or clock reads.
- The Telegram transport, its HTML formatting and the error-log file are left out as I/O. A notification is modelled as the record of the arguments passed to `send`.
- The `MESSAGE_TEMPLATE` layout is left out, because it is presentation only. A check-in message is a record of its fields, and a block is its status line over its results.
- The URL tables of GAME_CONFIGS and the root `config`, and the global user-agent override at src/config.py:225-229, are left out as static data. Only the five game names are used.
- `src/settings.py` is a backward-compatibility copy and is not part of this model.
- The pydantic and dotenv mechanics are left out. The settings and the environment are explicit inputs, and the environment is a list of pairs in `os.environ` order.
- `Role.level` and `total_sign_day` are modelled as an integer or missing. Python could compare or index with other JSON types too.
- The `missing` list that the `IndexError` branch of `run_check_in_for_game` computes only feeds a log line, so it is not modelled.
- `Text.Lower` lower-cases ASCII letters only. This is exact for the comparisons with 'true' that use it.
- HttpClient.Request: it requires the attempt sequence to cover the `max_retry + 1` attempts, because the outcomes stand in for the network.
- LegacySettings.LegacyRequest: it has the same requirement on the attempt sequence.
- Checkin.RunCheckIn: it receives the loaded accounts and the default chat as inputs instead of calling `load_accounts` and reading the Telegram settings itself. Its contract states soundness; completeness is `Checkin.LegacyComplete`.
- Checkin.RunForAccount: its contract states the result keys. The values are stated per game by `Checkin.ResultsValue`.
- Config.LegacyAccounts: its contract states validity only. Where each account comes from is stated per game by `Config.LegacyAccountsFromPieces` and `Config.LegacyPiecesComplete`.
