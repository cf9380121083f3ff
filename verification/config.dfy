/** src/config.py: the configuration records, their validators, and
    `load_accounts`, which reads accounts from the environment in two
    formats.  The process environment is an explicit list of (key, value)
    pairs in `os.environ` order; the pydantic/.env mechanics that build
    `AppSettings` are replaced by an `AppSettings` input.
 */
module Config {
  import opened Wrappers
  import Text

  /** The keys of GAME_CONFIGS, in their definition order. */
  const GameNames: seq<string> := ["HI3", "Genshin", "ToT", "HSR", "ZZZ"]

  /** `GameConfig`: one game's endpoints and request headers. */
  datatype GameConfig = GameConfig(
    lang: string,
    actId: string,
    refererUrl: string,
    rewardUrl: string,
    roleUrl: string,
    infoUrl: string,
    signUrl: string,
    userAgent: string,
    osHeaders: map<string, string>)

  /** The raw value handed to the `os_headers` validator. */
  datatype HeadersInput = HeadersText(text: string) | HeadersNone | HeadersMap(entries: map<string, string>)

  /** `GameConfig.parse_headers`: a string (kept for compatibility) and a
      missing value both become `{}`; a mapping is kept. */
  function ParseHeaders(v: HeadersInput): (r: map<string, string>)
    ensures r != map[] <==> v.HeadersMap? && v.entries != map[]
    ensures v.HeadersMap? ==> r == v.entries
  {
    match v
    case HeadersText(_) => map[]
    case HeadersNone => map[]
    case HeadersMap(m) => m
  }

  /** `AccountConfig`: one account, as `load_accounts` builds it. */
  datatype AccountConfig = AccountConfig(
    accountId: string,
    cookies: string,
    telegramChatId: Option<string>,
    enabledGames: seq<string>)

  /** The cookie fields an account cannot be built without, in the order the
      validator reports them. */
  const RequiredCookieFields: seq<string> := ["account_id", "cookie_token", "ltoken", "ltuid"]

  /** `a` keeps some of the elements of `b`, in `b`'s order. */
  predicate IsSubsequence(a: seq<string>, b: seq<string>)
    decreases |b|
  {
    if a == [] then true
    else if b == [] then false
    else if a[0] == b[0] then IsSubsequence(a[1..], b[1..])
    else IsSubsequence(a, b[1..])
  }

  /** The fields of `fields` that do not occur in `cookies`, in order. */
  function MissingFields(fields: seq<string>, cookies: string): (m: seq<string>)
    ensures IsSubsequence(m, fields)
    ensures forall f :: f in m <==> f in fields && !Text.Contains(cookies, f)
  {
    if fields == [] then []
    else if Text.Contains(cookies, fields[0]) then MissingFields(fields[1..], cookies)
    else [fields[0]] + MissingFields(fields[1..], cookies)
  }

  /** Every required field occurs in the cookie string. */
  predicate CookiesValid(cookies: string) {
    forall f :: f in RequiredCookieFields ==> Text.Contains(cookies, f)
  }

  /** `AccountConfig.validate_cookies`: accepted iff each required field
      occurs as a substring; otherwise the error lists the missing ones. */
  function ValidateCookies(cookies: string): (r: Result<string, seq<string>>)
    ensures r.Success? <==> CookiesValid(cookies)
    ensures r.Success? ==> r.value == cookies
    ensures r.Failure? ==>
      r.error != [] && IsSubsequence(r.error, RequiredCookieFields)
      && forall f :: f in r.error <==> f in RequiredCookieFields && !Text.Contains(cookies, f)
  {
    var missing := MissingFields(RequiredCookieFields, cookies);
    assert missing != [] ==> missing[0] in missing;
    if missing == [] then Success(cookies) else Failure(missing)
  }

  /** `TelegramConfig`. */
  datatype TelegramConfig = TelegramConfig(
    botToken: Option<string>,
    defaultChatId: Option<string>,
    enableNotifications: bool)

  /** `TelegramConfig.validate_bot_token`: a non-empty token made only of
      whitespace becomes None; anything else is kept, the empty one too. */
  function ValidateBotToken(v: Option<string>): (r: Option<string>)
    ensures r.None? <==> v.None? || (v.value != "" && Text.AllSpace(v.value))
    ensures r.Some? ==> r == v
  {
    if v.Some? && v.value != "" && Text.Strip(v.value) == "" then None else v
  }

  /** `ProxyConfig`. */
  datatype ProxyConfig = ProxyConfig(useProxy: bool, proxyData: Option<string>)

  /** `AppSettings`, as pydantic would have read it. */
  datatype AppSettings = AppSettings(
    userAgent: Option<string>,
    useProxy: bool,
    proxyData: Option<string>,
    botToken: Option<string>,
    defaultChatId: Option<string>)

  /** The process environment, in `os.environ` order. */
  type Env = seq<(string, string)>

  /** `os.getenv(key)`: the value of the first pair with that name. */
  function Getenv(env: Env, key: string): (r: Option<string>)
    ensures r.None? <==> forall i :: 0 <= i < |env| ==> env[i].0 != key
    ensures r.Some? ==> exists i :: 0 <= i < |env| && env[i] == (key, r.value) && FirstNamed(env, key, i)
  {
    if env == [] then None
    else if env[0].0 == key then
      assert FirstNamed(env, key, 0);
      Some(env[0].1)
    else
      var r := Getenv(env[1..], key);
      if r.None? then r
      else
        var i :| 0 <= i < |env[1..]| && env[1..][i] == (key, r.value) && FirstNamed(env[1..], key, i);
        assert env[i + 1] == (key, r.value) && FirstNamed(env, key, i + 1);
        r
  }

  /** No pair before `i` has the name `key`. */
  predicate FirstNamed(env: Env, key: string, i: int) {
    forall j :: 0 <= j < i && j < |env| ==> env[j].0 != key
  }

  /** Python truthiness of an optional string. */
  predicate Truthy(s: Option<string>) {
    s.Some? && s.value != ""
  }

  /** Python's `a or b` on optional strings. */
  function Or(a: Option<string>, b: Option<string>): Option<string> {
    if Truthy(a) then a else b
  }

  /** `get_telegram_config`: each setting falls back, by truthiness, to its
      environment variables in turn; the token is then validated. */
  function GetTelegramConfig(settings: AppSettings, env: Env): (t: TelegramConfig)
    ensures Truthy(settings.botToken) ==> t.botToken == ValidateBotToken(settings.botToken)
    ensures !Truthy(settings.botToken) && Truthy(Getenv(env, "BOT_API")) ==>
      t.botToken == ValidateBotToken(Getenv(env, "BOT_API"))
    ensures !Truthy(settings.botToken) && !Truthy(Getenv(env, "BOT_API")) ==>
      t.botToken == ValidateBotToken(Getenv(env, "BOT_TOKEN"))
    ensures Truthy(settings.defaultChatId) ==> t.defaultChatId == settings.defaultChatId
    ensures !Truthy(settings.defaultChatId) && Truthy(Getenv(env, "BOT_CHAT")) ==>
      t.defaultChatId == Getenv(env, "BOT_CHAT")
    ensures !Truthy(settings.defaultChatId) && !Truthy(Getenv(env, "BOT_CHAT")) ==>
      t.defaultChatId == Getenv(env, "TELEGRAM_CHAT_ID")
    ensures Truthy(t.defaultChatId) <==>
      Truthy(settings.defaultChatId) || Truthy(Getenv(env, "BOT_CHAT")) || Truthy(Getenv(env, "TELEGRAM_CHAT_ID"))
    ensures t.enableNotifications
  {
    TelegramConfig(
      ValidateBotToken(Or(Or(settings.botToken, Getenv(env, "BOT_API")), Getenv(env, "BOT_TOKEN"))),
      Or(Or(settings.defaultChatId, Getenv(env, "BOT_CHAT")), Getenv(env, "TELEGRAM_CHAT_ID")),
      true)
  }

  /** `get_proxy_config`: the proxy is on if the setting is on or USE_PROXY
      (default 'False') lower-cases to 'true'; the proxy data falls back to
      PROXY_DATA when the setting is empty. */
  function GetProxyConfig(settings: AppSettings, env: Env): (p: ProxyConfig)
    ensures p.useProxy <==>
      settings.useProxy || (Getenv(env, "USE_PROXY").Some? && Text.IsTrueInAnyCase(Getenv(env, "USE_PROXY").value))
    ensures p.proxyData == if Truthy(settings.proxyData) then settings.proxyData else Getenv(env, "PROXY_DATA")
  {
    Text.LowerIsTrue(Getenv(env, "USE_PROXY").GetOr("False"));
    ProxyConfig(
      settings.useProxy || Text.Lower(Getenv(env, "USE_PROXY").GetOr("False")) == "true",
      Or(settings.proxyData, Getenv(env, "PROXY_DATA")))
  }

  /** The cookie field that names the account. */
  const AccountIdKey: string := "account_id="

  /** The first piece of a split on ";" is the prefix before the first ";". */
  lemma UpToSemicolon(h: string)
    ensures var v := Text.Split(h, ";")[0];
      |v| <= |h| && v == h[..|v|] && ';' !in v && (|v| == |h| || h[|v|] == ';')
  {
    var v := Text.Split(h, ";")[0];
    Text.SplitHead(h, ";");
    if ';' in v {
      var j :| 0 <= j < |v| && v[j] == ';';
      Text.CharOccurs(v, ';', j);
    }
    if |v| < |h| {
      assert h[|v|..|v| + 1] == ";";
    }
  }

  /** A value that starts at `start` ends where a cookie value may end: at
      the end of the string, at a `;`, or where `key` occurs again. */
  predicate StopsAt(s: string, key: string, start: int, v: string) {
    var end := start + |v|;
    0 <= end <= |s| && (end == |s| || s[end] == ';' || Text.OccursAt(s, key, end))
  }

  lemma CutsCombine(s: string, key: string, start: nat, t: string, h: string, v: string)
    requires start <= |s| && t == s[start..]
    requires |h| <= |t| && h == t[..|h|] && (|h| == |t| || Text.OccursAt(t, key, |h|))
    requires forall p :: 0 <= p < |h| ==> !Text.OccursAt(t, key, p)
    requires |v| <= |h| && v == h[..|v|] && (|v| == |h| || h[|v|] == ';')
    ensures Text.OccursAt(s, v, start)
    ensures StopsAt(s, key, start, v)
    ensures KeyFree(s, key, start, v)
  {
    forall p | start <= p < start + |v| ensures !Text.OccursAt(s, key, p) {
      Text.OccursInSuffix(s, key, start, p - start);
    }
    assert s[start..start + |v|] == t[..|v|];
    if |v| < |h| {
      assert s[start + |v|] == t[|v|] == h[|v|];
    } else if |h| < |t| {
      Text.OccursInSuffix(s, key, start, |h|);
    }
  }

  /** No occurrence of `key` starts inside the value at `start`. */
  predicate KeyFree(s: string, key: string, start: int, v: string) {
    forall p :: start <= p < start + |v| ==> !Text.OccursAt(s, key, p)
  }

  /** `v` is a cookie value that starts at `start` of `s`: it holds no `;`
      and no start of `key`, and stops where a cookie value may stop. */
  predicate ValueAt(s: string, key: string, start: int, v: string) {
    Text.OccursAt(s, v, start) && ';' !in v && KeyFree(s, key, start, v) && StopsAt(s, key, start, v)
  }

  /** A value stops at its first stop, so there is only one: the value
      after the first `key` is fully determined. */
  lemma ValueAtUnique(s: string, key: string, start: int, v: string, w: string)
    requires ValueAt(s, key, start, v) && ValueAt(s, key, start, w)
    ensures v == w
  {
    assert forall j :: 0 <= j < |v| ==> v[j] == s[start + j];
    assert forall j :: 0 <= j < |w| ==> w[j] == s[start + j];
    assert v == s[start..start + |v|] && w == s[start..start + |w|];
  }

  /** Where the value after the first `key` starts. */
  function ValueStart(s: string, key: string): int {
    Text.IndexOf(s, key) + |key|
  }

  /** The second piece of the split on `key`, cut at its first `;`, is the
      value right after the first `key`. */
  lemma ValueAfterParts(s: string, key: string, h: string, v: string)
    requires key != [] && Text.Contains(s, key)
    requires h == Text.Split(s, key)[1] && v == Text.Split(h, ";")[0]
    ensures ValueAt(s, key, ValueStart(s, key), v)
  {
    var start := ValueStart(s, key);
    var t := s[start..];
    Text.SplitSecond(s, key);
    Text.SplitHead(t, key);
    UpToSemicolon(h);
    CutsCombine(s, key, start, t, h, v);
  }

  /** `s.split(key)[1].split(';')[0]` for a key that occurs in `s`: the text
      after the first `key` up to the next `;`, the next `key`, or the end. */
  function ValueAfter(s: string, key: string): (v: string)
    requires key != [] && Text.Contains(s, key)
    ensures ValueAt(s, key, ValueStart(s, key), v)
  {
    ValueAfterParts(s, key, Text.Split(s, key)[1], Text.Split(Text.Split(s, key)[1], ";")[0]);
    Text.Split(Text.Split(s, key)[1], ";")[0]
  }

  /** The account id a cookie string names: the `account_id=` value when
      the field is present (`'account_id=' in cookie`), else none. */
  function AccountIdOf(cookie: string): (r: Option<string>)
    ensures r.None? <==> !Text.Contains(cookie, AccountIdKey)
    ensures r.Some? ==> r.value == ValueAfter(cookie, AccountIdKey)
  {
    if Text.Contains(cookie, AccountIdKey) then Some(ValueAfter(cookie, AccountIdKey)) else None
  }

  /** Strips every piece. */
  function StripAll(parts: seq<string>): (r: seq<string>)
    ensures |r| == |parts|
    ensures forall i :: 0 <= i < |r| ==> r[i] == Text.Strip(parts[i])
  {
    if parts == [] then [] else [Text.Strip(parts[0])] + StripAll(parts[1..])
  }

  /** `[g.strip() for g in s.split(',')] if s else fallback`. */
  function EnabledGames(value: Option<string>, fallback: seq<string>): (r: seq<string>)
    ensures value.GetOr("") == "" ==> r == fallback
    ensures value.GetOr("") != "" ==>
      && |r| == |Text.Split(value.value, ",")|
      && (forall i :: 0 <= i < |r| ==> r[i] == Text.Strip(Text.Split(value.value, ",")[i]))
      && forall i :: 0 <= i < |r| ==>
           && !Text.Contains(r[i], ",")
           && (r[i] == "" || (!Text.IsSpace(r[i][0]) && !Text.IsSpace(r[i][|r[i]| - 1])))
  {
    var s := value.GetOr("");
    if s == "" then fallback
    else
      var pieces := Text.Split(s, ",");
      var r := StripAll(pieces);
      assert forall i :: 0 <= i < |r| ==> !Text.Contains(r[i], ",") by {
        forall i | 0 <= i < |r| ensures !Text.Contains(r[i], ",") {
          StripKeepsAbsent(pieces[i], ",");
        }
      }
      r
  }

  /** Stripping cannot make a pattern appear. */
  lemma StripKeepsAbsent(s: string, pat: string)
    requires !Text.Contains(s, pat)
    ensures !Text.Contains(Text.Strip(s), pat)
  {
    var r := Text.Strip(s);
    var a, b :| 0 <= a <= b <= |s| && r == s[a..b] && Text.AllSpace(s[..a]) && Text.AllSpace(s[b..]);
    assert r == s[a..][..|r|];
    forall j | 0 <= j <= |r| - |pat| ensures !Text.OccursAt(r, pat, j) {
      if Text.OccursAt(r, pat, j) {
        Text.OccursInPrefix(s[a..], pat, |r|, j);
        Text.OccursInSuffix(s, pat, a, j);
      }
    }
  }

  function ChatIdKey(accountId: string): string {
    "ACCOUNT_" + accountId + "_TELEGRAM_CHAT_ID"
  }

  function GamesKey(accountId: string): string {
    "ACCOUNT_" + accountId + "_ENABLED_GAMES"
  }

  /** The id of a legacy account: its `account_id=` value, or
      `<game>_<idx>` with `idx` the piece's position in the `@`-list. */
  function LegacyAccountId(game: string, cookie: string, idx: nat): string {
    match AccountIdOf(cookie)
    case Some(id) => id
    case None => game + "_" + Text.NatToString(idx)
  }

  /** Two pieces of one game's list without an `account_id=` get distinct
      ids: the position suffix tells them apart. */
  lemma LegacyFallbackIdsDistinct(game: string, c1: string, c2: string, i: nat, j: nat)
    requires AccountIdOf(c1).None? && AccountIdOf(c2).None? && i != j
    ensures LegacyAccountId(game, c1, i) != LegacyAccountId(game, c2, j)
  {
    var p := game + "_";
    assert (p + Text.NatToString(i))[|p|..] == Text.NatToString(i);
    assert (p + Text.NatToString(j))[|p|..] == Text.NatToString(j);
    Text.ParseNatToString(i);
    Text.ParseNatToString(j);
  }

  /** The account one piece of an `OS_COOKIE_<game>` list becomes: none for
      a blank piece or a piece that fails validation. */
  function LegacyAccount(env: Env, settings: AppSettings, game: string, cookie: string, idx: nat): (r: Option<AccountConfig>)
    ensures r.Some? <==> !Text.AllSpace(cookie) && CookiesValid(cookie)
    ensures r.Some? ==>
      var id := LegacyAccountId(game, cookie, idx);
      && r.value.accountId == id
      && r.value.cookies == cookie
      && r.value.telegramChatId == Or(Getenv(env, ChatIdKey(id)), settings.defaultChatId)
      && r.value.enabledGames == EnabledGames(Getenv(env, GamesKey(id)), [game])
  {
    if Text.Strip(cookie) == "" then None
    else
      var id := LegacyAccountId(game, cookie, idx);
      var chat := Or(Getenv(env, ChatIdKey(id)), settings.defaultChatId);
      var games := EnabledGames(Getenv(env, GamesKey(id)), [game]);
      match ValidateCookies(cookie)
      case Success(c) => Some(AccountConfig(id, c, chat, games))
      case Failure(_) => None
  }

  /** The defined values of `f` over `pieces[i..]`, in order, where a piece
      is passed its position in `pieces`. */
  function Collect<T>(f: (string, nat) -> Option<T>, pieces: seq<string>, i: nat): seq<T>
    requires i <= |pieces|
    decreases |pieces| - i
  {
    if i == |pieces| then []
    else
      var head := match f(pieces[i], i)
        case Some(a) => [a]
        case None => [];
      head + Collect(f, pieces, i + 1)
  }

  lemma {:induction false} CollectSound<T>(f: (string, nat) -> Option<T>, pieces: seq<string>, i: nat)
    requires i <= |pieces|
    ensures forall a :: a in Collect(f, pieces, i) ==>
      exists k :: i <= k < |pieces| && f(pieces[k], k) == Some(a)
    decreases |pieces| - i
  {
    if i < |pieces| {
      CollectSound(f, pieces, i + 1);
    }
  }

  lemma {:induction false} CollectComplete<T>(f: (string, nat) -> Option<T>, pieces: seq<string>, i: nat, k: nat)
    requires i <= k < |pieces| && f(pieces[k], k).Some?
    ensures f(pieces[k], k).value in Collect(f, pieces, i)
    decreases k - i
  {
    if i < k {
      CollectComplete(f, pieces, i + 1, k);
    }
  }

  /** `LegacyAccount` for one game, as a function of a piece and its position. */
  function LegacyAccountOf(env: Env, settings: AppSettings, game: string): (string, nat) -> Option<AccountConfig> {
    (c: string, i: nat) => LegacyAccount(env, settings, game, c, i)
  }

  /** The accounts of the pieces of an `@`-list. */
  function LegacyFromPieces(env: Env, settings: AppSettings, game: string, pieces: seq<string>): seq<AccountConfig> {
    Collect(LegacyAccountOf(env, settings, game), pieces, 0)
  }

  /** Each legacy account comes from one piece of the list, is named after
      that piece's position (skipped pieces included), and carries a
      non-blank cookie string that passes validation. */
  lemma LegacyAccountsFromPieces(env: Env, settings: AppSettings, game: string, pieces: seq<string>)
    ensures forall a :: a in LegacyFromPieces(env, settings, game, pieces) ==>
      exists k :: 0 <= k < |pieces| && LegacyAccount(env, settings, game, pieces[k], k) == Some(a)
    ensures forall a :: a in LegacyFromPieces(env, settings, game, pieces) ==>
      CookiesValid(a.cookies) && !Text.AllSpace(a.cookies)
  {
    var f := LegacyAccountOf(env, settings, game);
    CollectSound(f, pieces, 0);
    forall a | a in LegacyFromPieces(env, settings, game, pieces)
      ensures exists k :: 0 <= k < |pieces| && LegacyAccount(env, settings, game, pieces[k], k) == Some(a)
      ensures CookiesValid(a.cookies) && !Text.AllSpace(a.cookies)
    {
      var k :| 0 <= k < |pieces| && f(pieces[k], k) == Some(a);
      assert LegacyAccount(env, settings, game, pieces[k], k) == Some(a);
    }
  }

  /** Every non-blank piece that passes validation becomes an account:
      a bad piece is skipped, never fatal. */
  lemma LegacyPiecesComplete(env: Env, settings: AppSettings, game: string, pieces: seq<string>, k: nat)
    requires k < |pieces| && !Text.AllSpace(pieces[k]) && CookiesValid(pieces[k])
    ensures LegacyAccount(env, settings, game, pieces[k], k).Some?
    ensures LegacyAccount(env, settings, game, pieces[k], k).value
      in LegacyFromPieces(env, settings, game, pieces)
  {
    var f := LegacyAccountOf(env, settings, game);
    assert f(pieces[k], k) == LegacyAccount(env, settings, game, pieces[k], k);
    CollectComplete(f, pieces, 0, k);
  }

  /** The legacy accounts of one game: its `OS_COOKIE_<game>` list, split on
      `@`. */
  function LegacyAccountsFor(env: Env, settings: AppSettings, game: string): seq<AccountConfig> {
    var list := Getenv(env, "OS_COOKIE_" + game).GetOr("");
    if list == "" then [] else LegacyFromPieces(env, settings, game, Text.Split(list, "@"))
  }

  lemma LegacyAccountsForValid(env: Env, settings: AppSettings, game: string)
    ensures forall a :: a in LegacyAccountsFor(env, settings, game) ==> CookiesValid(a.cookies)
  {
    var list := Getenv(env, "OS_COOKIE_" + game).GetOr("");
    if list != "" {
      LegacyAccountsFromPieces(env, settings, game, Text.Split(list, "@"));
    }
  }

  /** The legacy accounts of all games, game after game. */
  function LegacyAccounts(env: Env, settings: AppSettings, games: seq<string>): (r: seq<AccountConfig>)
    ensures forall a :: a in r ==> CookiesValid(a.cookies)
  {
    if games == [] then []
    else
      LegacyAccountsForValid(env, settings, games[0]);
      LegacyAccountsFor(env, settings, games[0]) + LegacyAccounts(env, settings, games[1..])
  }

  /** A new-format key: `ACCOUNT_<ID>_COOKIES`. */
  predicate IsCookiesKey(key: string) {
    Text.StartsWith(key, "ACCOUNT_") && Text.EndsWith(key, "_COOKIES")
  }

  /** `key.replace('ACCOUNT_', '').replace('_COOKIES', '')`: every
      occurrence is removed, not just the prefix and the suffix. */
  function KeyAccountId(key: string): string {
    Text.RemoveAll(Text.RemoveAll(key, "ACCOUNT_"), "_COOKIES")
  }

  /** The account a new-format variable becomes: the chat id falls back to
      the default only when its variable is unset. */
  function NewAccount(env: Env, settings: AppSettings, id: string, value: string): (r: Option<AccountConfig>)
    ensures r.Some? <==> CookiesValid(value)
    ensures r.Some? ==>
      && r.value.accountId == id
      && r.value.cookies == value
      && r.value.telegramChatId == (if Getenv(env, ChatIdKey(id)).Some? then Getenv(env, ChatIdKey(id)) else settings.defaultChatId)
      && r.value.enabledGames == EnabledGames(Getenv(env, GamesKey(id)), GameNames)
  {
    var chat := match Getenv(env, ChatIdKey(id))
      case Some(c) => Some(c)
      case None => settings.defaultChatId;
    var games := EnabledGames(Getenv(env, GamesKey(id)), GameNames);
    match ValidateCookies(value)
    case Success(c) => Some(AccountConfig(id, c, chat, games))
    case Failure(_) => None
  }

  /** The new-format scan over `env[i..]`, with `seen` the ids met so far.
      An id is marked seen before its value is checked, so a later key with
      the same id is skipped even when the first one was blank or invalid. */
  function NewAccountsFrom(env: Env, settings: AppSettings, i: nat, seen: set<string>): seq<AccountConfig>
    requires i <= |env|
    decreases |env| - i
  {
    if i == |env| then []
    else
      var (key, value) := env[i];
      if !IsCookiesKey(key) then NewAccountsFrom(env, settings, i + 1, seen)
      else
        var id := KeyAccountId(key);
        if id in seen then NewAccountsFrom(env, settings, i + 1, seen)
        else
          var head := if Text.Strip(value) == "" then [] else
            match NewAccount(env, settings, id, value)
            case Some(a) => [a]
            case None => [];
          head + NewAccountsFrom(env, settings, i + 1, seen + {id})
  }

  /** The variable at `k` is a new-format key whose non-blank value becomes
      the account `a`. */
  predicate NewAccountAt(env: Env, settings: AppSettings, k: int, a: AccountConfig)
    requires 0 <= k < |env|
  {
    IsCookiesKey(env[k].0) && !Text.AllSpace(env[k].1)
    && NewAccount(env, settings, KeyAccountId(env[k].0), env[k].1) == Some(a)
  }

  /** The variable at `k` is the first new-format key of `env[i..]` with
      its id: the scan meets the id there first and skips every later one. */
  predicate FirstWithId(env: Env, i: int, k: int)
    requires 0 <= i <= k < |env|
  {
    forall j :: i <= j < k ==> !(IsCookiesKey(env[j].0) && KeyAccountId(env[j].0) == KeyAccountId(env[k].0))
  }

  lemma FirstWithIdExtend(env: Env, i: nat, k: nat)
    requires i < k < |env| && FirstWithId(env, i + 1, k)
    requires !(IsCookiesKey(env[i].0) && KeyAccountId(env[i].0) == KeyAccountId(env[k].0))
    ensures FirstWithId(env, i, k)
  {
  }

  /** Each new-format account comes from one `ACCOUNT_<ID>_COOKIES` variable
      whose id was not met before: the first key with that id wins. */
  lemma {:induction false} NewAccountsSound(env: Env, settings: AppSettings, i: nat, seen: set<string>)
    requires i <= |env|
    ensures forall a :: a in NewAccountsFrom(env, settings, i, seen) ==>
      && a.accountId !in seen
      && (exists k :: i <= k < |env| && NewAccountAt(env, settings, k, a)
            && KeyAccountId(env[k].0) !in seen && FirstWithId(env, i, k))
    decreases |env| - i
  {
    if i < |env| {
      var (key, value) := env[i];
      var seen' := if IsCookiesKey(key) then seen + {KeyAccountId(key)} else seen;
      NewAccountsSound(env, settings, i + 1, seen');
      var tail := NewAccountsFrom(env, settings, i + 1, seen');
      forall a | a in tail
        ensures exists k :: (i <= k < |env| && NewAccountAt(env, settings, k, a)
          && KeyAccountId(env[k].0) !in seen' && FirstWithId(env, i, k))
      {
        var k :| i + 1 <= k < |env| && NewAccountAt(env, settings, k, a)
          && KeyAccountId(env[k].0) !in seen' && FirstWithId(env, i + 1, k);
        FirstWithIdExtend(env, i, k);
      }
      if IsCookiesKey(key) && KeyAccountId(key) !in seen {
        var acc := NewAccount(env, settings, KeyAccountId(key), value);
        var head := if Text.Strip(value) == "" then [] else
          match acc
          case Some(a) => [a]
          case None => [];
        assert NewAccountsFrom(env, settings, i, seen) == head + tail;
        assert Text.Strip(value) != "" && acc.Some? ==> NewAccountAt(env, settings, i, acc.value) && FirstWithId(env, i, i);
      } else {
        assert seen' == seen;
        assert NewAccountsFrom(env, settings, i, seen) == tail;
      }
    }
  }

  /** Conversely, the first key of `env[i..]` with an unseen id yields its
      account whenever its value is non-blank and valid. */
  lemma {:induction false} NewAccountsComplete(env: Env, settings: AppSettings, i: nat, seen: set<string>, k: nat, a: AccountConfig)
    requires i <= k < |env| && NewAccountAt(env, settings, k, a)
    requires KeyAccountId(env[k].0) !in seen && FirstWithId(env, i, k)
    ensures a in NewAccountsFrom(env, settings, i, seen)
    decreases |env| - i
  {
    var (key, value) := env[i];
    if IsCookiesKey(key) {
      var id := KeyAccountId(key);
      if id !in seen {
        var head := if Text.Strip(value) == "" then [] else
          match NewAccount(env, settings, id, value)
          case Some(a) => [a]
          case None => [];
        assert NewAccountsFrom(env, settings, i, seen) == head + NewAccountsFrom(env, settings, i + 1, seen + {id});
        if k == i {
          assert head == [a];
        } else {
          NewAccountsComplete(env, settings, i + 1, seen + {id}, k, a);
        }
      } else {
        NewAccountsComplete(env, settings, i + 1, seen, k, a);
      }
    } else {
      NewAccountsComplete(env, settings, i + 1, seen, k, a);
    }
  }

  /** The new-format accounts are exactly those of the first key with each
      id, when its value is non-blank and valid. */
  lemma NewAccountsExactly(env: Env, settings: AppSettings, a: AccountConfig)
    ensures a in NewAccountsFrom(env, settings, 0, {}) <==>
      exists k :: 0 <= k < |env| && NewAccountAt(env, settings, k, a) && FirstWithId(env, 0, k)
  {
    NewAccountsSound(env, settings, 0, {});
    if exists k :: 0 <= k < |env| && NewAccountAt(env, settings, k, a) && FirstWithId(env, 0, k) {
      var k :| 0 <= k < |env| && NewAccountAt(env, settings, k, a) && FirstWithId(env, 0, k);
      NewAccountsComplete(env, settings, 0, {}, k, a);
    }
  }

  /** No two accounts of `r` share an id. */
  predicate DistinctIds(r: seq<AccountConfig>) {
    forall x, y :: 0 <= x < y < |r| ==> r[x].accountId != r[y].accountId
  }

  lemma DistinctIdsCons(head: seq<AccountConfig>, tail: seq<AccountConfig>, id: string)
    requires |head| <= 1 && forall a :: a in head ==> a.accountId == id
    requires DistinctIds(tail) && forall a :: a in tail ==> a.accountId != id
    ensures DistinctIds(head + tail)
  {
    var r := head + tail;
    forall x, y | 0 <= x < y < |r|
      ensures r[x].accountId != r[y].accountId
    {
      if x < |head| {
        assert r[x] in head && r[y] == tail[y - |head|];
      } else {
        assert r[x] == tail[x - |head|] && r[y] == tail[y - |head|];
      }
    }
  }

  /** No two new-format accounts share an id. */
  lemma {:induction false} NewAccountsDistinct(env: Env, settings: AppSettings, i: nat, seen: set<string>)
    requires i <= |env|
    ensures DistinctIds(NewAccountsFrom(env, settings, i, seen))
    decreases |env| - i
  {
    if i < |env| {
      var (key, value) := env[i];
      if IsCookiesKey(key) && KeyAccountId(key) !in seen {
        var id := KeyAccountId(key);
        NewAccountsDistinct(env, settings, i + 1, seen + {id});
        NewAccountsSound(env, settings, i + 1, seen + {id});
        var tail := NewAccountsFrom(env, settings, i + 1, seen + {id});
        var head := if Text.Strip(value) == "" then [] else
          match NewAccount(env, settings, id, value)
          case Some(a) => [a]
          case None => [];
        assert NewAccountsFrom(env, settings, i, seen) == head + tail;
        DistinctIdsCons(head, tail, id);
      } else {
        NewAccountsDistinct(env, settings, i + 1, seen);
      }
    }
  }

  /** Every new-format account is valid and non-blank. */
  lemma NewAccountsValid(env: Env, settings: AppSettings)
    ensures forall a :: a in NewAccountsFrom(env, settings, 0, {}) ==>
      CookiesValid(a.cookies) && !Text.AllSpace(a.cookies)
  {
    NewAccountsSound(env, settings, 0, {});
    forall a | a in NewAccountsFrom(env, settings, 0, {})
      ensures CookiesValid(a.cookies) && !Text.AllSpace(a.cookies)
    {
      var k :| 0 <= k < |env| && NewAccountAt(env, settings, k, a);
    }
  }

  /** `load_accounts`: every legacy account, then every new-format one. */
  function LoadAccounts(env: Env, settings: AppSettings): (r: seq<AccountConfig>)
    ensures forall a :: a in r ==> CookiesValid(a.cookies)
    ensures |LegacyAccounts(env, settings, GameNames)| <= |r|
    ensures r[..|LegacyAccounts(env, settings, GameNames)|] == LegacyAccounts(env, settings, GameNames)
    ensures r[|LegacyAccounts(env, settings, GameNames)|..] == NewAccountsFrom(env, settings, 0, {})
  {
    NewAccountsValid(env, settings);
    LegacyAccounts(env, settings, GameNames) + NewAccountsFrom(env, settings, 0, {})
  }
}
