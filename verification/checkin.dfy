/** src/checkin.py: `CheckInManager` runs every enabled game of every
    account, counts the outcomes, and groups one block per account into one
    notification per chat; `run_check_in` is the older one-game runner.
    What each `Sign(...).run()` call does is an input, as is the default
    chat of the Telegram configuration; the Telegram transport and the
    date line are not modelled.
 */
module Checkin {
  import opened Wrappers
  import Text
  import Config
  import Sign

  /** What one `Sign(cookies, game_config).run()` call did. */
  datatype SignCall = Returned(output: Sign.RunOutput) | RaisedIndexError | RaisedOther(error: string)

  /** The result dictionary of `run_check_in_for_game`. */
  datatype GameResult = GameResult(success: bool, message: Sign.RunOutput, accountId: string, game: string)

  // ------------------------------------------------------- ordered mappings

  /** A Python dict: its (key, value) pairs in insertion order. */
  type Dict<V> = seq<(string, V)>

  function Keys<V>(d: Dict<V>): (ks: seq<string>)
    ensures |ks| == |d|
    ensures forall i :: 0 <= i < |d| ==> ks[i] == d[i].0
  {
    seq(|d|, i requires 0 <= i < |d| => d[i].0)
  }

  predicate NoDuplicates(s: seq<string>) {
    forall i, j :: 0 <= i < j < |s| ==> s[i] != s[j]
  }

  /** The first position at or after `i` that holds key `k`, or -1. */
  function FindKey<V>(d: Dict<V>, k: string, i: nat): (j: int)
    requires i <= |d|
    ensures j == -1 || i <= j < |d|
    ensures j >= 0 ==> d[j].0 == k && forall m :: i <= m < j ==> d[m].0 != k
    ensures j < 0 ==> forall m :: i <= m < |d| ==> d[m].0 != k
    decreases |d| - i
  {
    if i == |d| then -1
    else if d[i].0 == k then i
    else FindKey(d, k, i + 1)
  }

  /** The first position of a key is determined by the keys alone. */
  lemma {:induction false} FindKeyByKeys<V>(d: Dict<V>, e: Dict<V>, k: string, i: nat)
    requires Keys(d) == Keys(e) && i <= |d|
    ensures FindKey(d, k, i) == FindKey(e, k, i)
    decreases |d| - i
  {
    if i < |d| {
      assert d[i].0 == Keys(d)[i] == e[i].0;
      FindKeyByKeys(d, e, k, i + 1);
    }
  }

  /** `d.get(k)`. */
  function Lookup<V>(d: Dict<V>, k: string): (r: Option<V>)
    ensures r.Some? <==> k in Keys(d)
  {
    var j := FindKey(d, k, 0);
    if j < 0 then
      assert forall m :: 0 <= m < |d| ==> Keys(d)[m] != k;
      None
    else Some(d[j].1)
  }

  /** `d[k] = v`: an existing key keeps its place, a new key goes last. */
  function Put<V>(d: Dict<V>, k: string, v: V): (r: Dict<V>)
    ensures k in Keys(d) ==> Keys(r) == Keys(d)
    ensures k !in Keys(d) ==> Keys(r) == Keys(d) + [k]
  {
    var j := FindKey(d, k, 0);
    if j < 0 then d + [(k, v)] else d[j := (k, v)]
  }

  /** After `d[k] = v`, `k` maps to `v` and every other key is unchanged. */
  lemma PutLookup<V>(d: Dict<V>, k: string, v: V, q: string)
    ensures Lookup(Put(d, k, v), q) == if q == k then Some(v) else Lookup(d, q)
  {
    var r := Put(d, k, v);
    var j := FindKey(d, k, 0);
    if j >= 0 {
      FindKeyByKeys(d, r, q, 0);
    } else {
      var i := FindKey(d, q, 0);
      var l := FindKey(r, q, 0);
      if q == k {
        assert r[|d|].0 == k;
      } else if i >= 0 {
        assert r[i].0 == q;
      }
    }
  }

  /** Putting keeps the keys distinct. */
  lemma PutNoDuplicates<V>(d: Dict<V>, k: string, v: V)
    requires NoDuplicates(Keys(d))
    ensures NoDuplicates(Keys(Put(d, k, v)))
  {
    if k !in Keys(d) {
      var ks := Keys(d) + [k];
      forall i, j | 0 <= i < j < |ks| ensures ks[i] != ks[j] {
        if j == |ks| - 1 {
          assert ks[i] == Keys(d)[i];
        }
      }
    }
  }

  /** With distinct keys, looking up the key at `i` finds the value at `i`. */
  lemma LookupDistinct<V>(d: Dict<V>, i: nat)
    requires NoDuplicates(Keys(d)) && i < |d|
    ensures Lookup(d, d[i].0) == Some(d[i].1)
  {
    var j := FindKey(d, d[i].0, 0);
    assert Keys(d)[i] == d[i].0;
    assert 0 <= j ==> Keys(d)[j] == d[i].0;
  }

  // ------------------------------------------------- run_check_in_for_game

  /** The advice an `IndexError` from `Sign.run` is reported with. */
  const TroubleshootingSteps: string :=
    " Check-In: Try these troubleshooting steps:\n"
    + "- Log out and log back in\n"
    + "- Make sure you are on the Daily Rewards page, not the HoyoLab Forums page\n"
    + "- Try incognito mode\n"
    + "- Try clearing browser history/cache\n"
    + "- Try using another browser\n"

  /** The text an `IndexError` from `Sign.run` is reported with. */
  function TroubleshootingText(game: string): string {
    game + TroubleshootingSteps
  }

  /** The text any other exception from `Sign.run` is reported with. */
  function ExceptionText(game: string, accountId: string, error: string): string {
    game + " Check-In for account " + accountId + ":\n " + error
  }

  /** `run_check_in_for_game`: a normal return is a success whatever the
      message says; an exception is a failure, reported with the
      troubleshooting text for an `IndexError` and with the exception text
      otherwise. */
  function RunForGame(game: string, account: Config.AccountConfig, call: SignCall): (r: GameResult)
    ensures r.success <==> call.Returned?
    ensures r.accountId == account.accountId && r.game == game
    ensures call.Returned? ==> r.message == call.output
    ensures call.RaisedIndexError? ==> r.message == Sign.Plain(TroubleshootingText(game))
    ensures call.RaisedOther? ==> r.message == Sign.Plain(ExceptionText(game, account.accountId, call.error))
  {
    match call
    case Returned(out) => GameResult(true, out, account.accountId, game)
    case RaisedIndexError => GameResult(false, Sign.Plain(TroubleshootingText(game)), account.accountId, game)
    case RaisedOther(e) =>
      GameResult(false, Sign.Plain(ExceptionText(game, account.accountId, e)), account.accountId, game)
  }

  type Results = Dict<GameResult>

  /** Each of `keys[..n]` found in GAME_CONFIGS put in turn, with the value
      at the same position; later values replace earlier ones. */
  function PutEach<V>(keys: seq<string>, vals: seq<V>, n: nat): Dict<V>
    requires n <= |keys| == |vals|
  {
    if n == 0 then []
    else
      var d := PutEach(keys, vals, n - 1);
      if keys[n - 1] in Config.GameNames then Put(d, keys[n - 1], vals[n - 1]) else d
  }

  /** What each enabled game's check-in yields, in order. */
  function GameResults(account: Config.AccountConfig, calls: seq<SignCall>): (r: seq<GameResult>)
    requires |account.enabledGames| == |calls|
    ensures |r| == |calls|
    ensures forall j :: 0 <= j < |r| ==> r[j] == RunForGame(account.enabledGames[j], account, calls[j])
  {
    seq(|calls|, j requires 0 <= j < |calls| => RunForGame(account.enabledGames[j], account, calls[j]))
  }

  /** The loop of `run_check_in_for_account` after its first `n` games:
      `calls[j]` is what the check-in of the `j`-th enabled game does; a
      name missing from GAME_CONFIGS is skipped. */
  function ResultsUpTo(account: Config.AccountConfig, calls: seq<SignCall>, n: nat): Results
    requires n <= |account.enabledGames| == |calls|
  {
    PutEach(account.enabledGames, GameResults(account, calls), n)
  }

  /** The known games among the first `n`, each once, where it first occurs. */
  function KnownGamesUpTo(games: seq<string>, n: nat): seq<string>
    requires n <= |games|
  {
    if n == 0 then []
    else
      var p := KnownGamesUpTo(games, n - 1);
      var game := games[n - 1];
      if game in Config.GameNames && game !in p then p + [game] else p
  }

  /** The known games come each once, and are exactly the known names
      among the first `n`. */
  lemma {:induction false} KnownGamesUpToShape(games: seq<string>, n: nat)
    requires n <= |games|
    ensures NoDuplicates(KnownGamesUpTo(games, n))
    ensures forall g :: g in KnownGamesUpTo(games, n) <==> g in Config.GameNames && g in games[..n]
  {
    if n > 0 {
      KnownGamesUpToShape(games, n - 1);
      assert games[..n] == games[..n - 1] + [games[n - 1]];
      var p := KnownGamesUpTo(games, n - 1);
      if games[n - 1] in Config.GameNames && games[n - 1] !in p {
        var ks := p + [games[n - 1]];
        forall i, j | 0 <= i < j < |ks| ensures ks[i] != ks[j] {
          if j == |ks| - 1 {
            assert ks[i] == p[i];
          }
        }
      }
    }
  }

  /** The keys put are the known names, each once, in order of first
      occurrence. */
  lemma {:induction false} PutEachKeys<V>(keys: seq<string>, vals: seq<V>, n: nat)
    requires n <= |keys| == |vals|
    ensures Keys(PutEach(keys, vals, n)) == KnownGamesUpTo(keys, n)
  {
    if n > 0 {
      PutEachKeys(keys, vals, n - 1);
    }
  }

  /** The last of the first `n` positions that hold `g`, or -1. */
  function LastIndex(games: seq<string>, g: string, n: nat): (j: int)
    requires n <= |games|
    ensures j == -1 || (0 <= j < n && games[j] == g)
    ensures forall m :: j < m < n ==> games[m] != g
  {
    if n == 0 then -1
    else if games[n - 1] == g then n - 1
    else LastIndex(games, g, n - 1)
  }

  /** A known key holds the value put last for it. */
  lemma {:induction false} PutEachValue<V>(keys: seq<string>, vals: seq<V>, n: nat, g: string)
    requires n <= |keys| == |vals|
    requires g in Config.GameNames && LastIndex(keys, g, n) >= 0
    ensures Lookup(PutEach(keys, vals, n), g) == Some(vals[LastIndex(keys, g, n)])
  {
    var d := PutEach(keys, vals, n - 1);
    if keys[n - 1] == g {
      PutLookup(d, g, vals[n - 1], g);
    } else {
      PutEachValue(keys, vals, n - 1, g);
      if keys[n - 1] in Config.GameNames {
        PutLookup(d, keys[n - 1], vals[n - 1], g);
      }
    }
  }

  /** Every value put is one of `vals`, so a property of all of them holds
      of every entry. */
  lemma {:induction false} PutEachAll<V>(keys: seq<string>, vals: seq<V>, n: nat, p: V -> bool)
    requires n <= |keys| == |vals|
    requires forall j :: 0 <= j < |vals| ==> p(vals[j])
    ensures forall i :: 0 <= i < |PutEach(keys, vals, n)| ==> p(PutEach(keys, vals, n)[i].1)
  {
    if n > 0 {
      PutEachAll(keys, vals, n - 1, p);
      var d := PutEach(keys, vals, n - 1);
      if keys[n - 1] in Config.GameNames {
        var r := Put(d, keys[n - 1], vals[n - 1]);
        assert p(vals[n - 1]);
        forall i | 0 <= i < |r| ensures p(r[i].1) {
          assert r[i].1 == vals[n - 1] || r[i] == d[i];
        }
      }
    }
  }

  /** The result keys are the enabled games found in GAME_CONFIGS, each
      once, in order of first occurrence. */
  lemma ResultsKeys(account: Config.AccountConfig, calls: seq<SignCall>, n: nat)
    requires n <= |account.enabledGames| == |calls|
    ensures Keys(ResultsUpTo(account, calls, n)) == KnownGamesUpTo(account.enabledGames, n)
  {
    PutEachKeys(account.enabledGames, GameResults(account, calls), n);
  }

  /** A known game's entry holds the result of its last check-in. */
  lemma ResultsValue(account: Config.AccountConfig, calls: seq<SignCall>, n: nat, g: string)
    requires n <= |account.enabledGames| == |calls|
    requires g in Config.GameNames && LastIndex(account.enabledGames, g, n) >= 0
    ensures Lookup(ResultsUpTo(account, calls, n), g)
      == Some(RunForGame(g, account, calls[LastIndex(account.enabledGames, g, n)]))
  {
    PutEachValue(account.enabledGames, GameResults(account, calls), n, g);
  }

  /** `run_check_in_for_account`. */
  function RunForAccount(account: Config.AccountConfig, calls: seq<SignCall>): (r: Results)
    requires |account.enabledGames| == |calls|
    ensures NoDuplicates(Keys(r))
    ensures forall g :: g in Keys(r) <==> g in Config.GameNames && g in account.enabledGames
  {
    ResultsKeys(account, calls, |calls|);
    KnownGamesUpToShape(account.enabledGames, |calls|);
    assert account.enabledGames[..|calls|] == account.enabledGames;
    ResultsUpTo(account, calls, |calls|)
  }

  // ------------------------------------------------------------- counting

  /** The successes among the results. */
  function CountSuccess(results: Results): (n: nat)
    ensures n <= |results|
  {
    if results == [] then 0
    else (if results[0].1.success then 1 else 0) + CountSuccess(results[1..])
  }

  /** The failures among the results. */
  function CountFail(results: Results): nat {
    if results == [] then 0
    else (if results[0].1.success then 0 else 1) + CountFail(results[1..])
  }

  /** Every result is a success or a failure, so the account's total is the
      number of results. */
  lemma {:induction false} CountsPartition(results: Results)
    ensures CountSuccess(results) + CountFail(results) == |results|
  {
    if results != [] {
      CountsPartition(results[1..]);
    }
  }

  /** Results that all succeeded count in full. */
  lemma {:induction false} AllSuccessCount(results: Results)
    requires forall i :: 0 <= i < |results| ==> results[i].1.success
    ensures CountSuccess(results) == |results|
  {
    if results != [] {
      AllSuccessCount(results[1..]);
    }
  }

  /** `Sign.run` returns a message on every path, so when every check-in of
      an account returned, all its results count as successes and none as
      failures. */
  lemma ReturnedCallsAllSucceed(account: Config.AccountConfig, calls: seq<SignCall>)
    requires |account.enabledGames| == |calls|
    requires forall j :: 0 <= j < |calls| ==> calls[j].Returned?
    ensures CountSuccess(RunForAccount(account, calls)) == |RunForAccount(account, calls)|
    ensures CountFail(RunForAccount(account, calls)) == 0
  {
    var vals := GameResults(account, calls);
    PutEachAll(account.enabledGames, vals, |calls|, (r: GameResult) => r.success);
    var results := RunForAccount(account, calls);
    AllSuccessCount(results);
    CountsPartition(results);
  }

  /** "Account {id}: {s}/{t} succeeded". */
  function AccountStatus(accountId: string, results: Results): (s: string)
    ensures Text.StartsWith(s, "Account " + accountId + ": ")
    ensures s == "Account " + accountId + ": " + Text.IntToString(CountSuccess(results)) + "/"
      + Text.IntToString(|results|) + " succeeded"
  {
    CountsPartition(results);
    "Account " + accountId + ": " + Text.IntToString(CountSuccess(results)) + "/"
      + Text.IntToString(CountSuccess(results) + CountFail(results)) + " succeeded"
  }

  // -------------------------------------------------------------- routing

  /** One entry of `all_results`. */
  datatype AccountRun = AccountRun(accountId: string, chatId: Option<string>, results: Results)

  /** The block an account contributes: its status line over its results
      (the date line and the template layout are not modelled). */
  datatype Block = Block(status: string, accountId: string, results: Results)

  function BlockOf(run: AccountRun): Block {
    Block(AccountStatus(run.accountId, run.results), run.accountId, run.results)
  }

  /** The chat an account's block goes to: none without results; else the
      account's chat when truthy, else the default chat when truthy, else
      the block is dropped. */
  function Target(run: AccountRun, defaultChat: Option<string>): (t: Option<string>)
    ensures t.Some? ==> Config.Truthy(t) && run.results != []
    ensures t.Some? <==> run.results != [] && (Config.Truthy(run.chatId) || Config.Truthy(defaultChat))
    ensures Config.Truthy(run.chatId) && run.results != [] ==> t == run.chatId
    ensures !Config.Truthy(run.chatId) && run.results != [] && Config.Truthy(defaultChat) ==> t == defaultChat
  {
    if run.results == [] then None
    else if Config.Truthy(run.chatId) then run.chatId
    else if Config.Truthy(defaultChat) then defaultChat
    else None
  }

  /** The grouping loop of `_send_notifications` over the first `n` runs. */
  function RouteUpTo(runs: seq<AccountRun>, defaultChat: Option<string>, n: nat): Dict<seq<Block>>
    requires n <= |runs|
  {
    if n == 0 then []
    else
      var d := RouteUpTo(runs, defaultChat, n - 1);
      match Target(runs[n - 1], defaultChat)
      case None => d
      case Some(c) => Put(d, c, Lookup(d, c).GetOr([]) + [BlockOf(runs[n - 1])])
  }

  /** Reference definition: the blocks of the first `n` runs addressed to
      chat `c`, in account order. */
  function BlocksFor(runs: seq<AccountRun>, defaultChat: Option<string>, c: string, n: nat): seq<Block>
    requires n <= |runs|
  {
    if n == 0 then []
    else
      BlocksFor(runs, defaultChat, c, n - 1)
      + (if Target(runs[n - 1], defaultChat) == Some(c) then [BlockOf(runs[n - 1])] else [])
  }

  /** The grouping has one entry per chat. */
  lemma {:induction false} RouteNoDuplicates(runs: seq<AccountRun>, defaultChat: Option<string>, n: nat)
    requires n <= |runs|
    ensures NoDuplicates(Keys(RouteUpTo(runs, defaultChat, n)))
  {
    if n > 0 {
      RouteNoDuplicates(runs, defaultChat, n - 1);
      var d := RouteUpTo(runs, defaultChat, n - 1);
      match Target(runs[n - 1], defaultChat)
      case None =>
      case Some(t) =>
        PutNoDuplicates(d, t, Lookup(d, t).GetOr([]) + [BlockOf(runs[n - 1])]);
    }
  }

  /** The grouping gives chat `c` exactly the blocks addressed to it, in
      account order, and no entry when there are none. */
  lemma {:induction false} RouteLookup(runs: seq<AccountRun>, defaultChat: Option<string>, n: nat, c: string)
    requires n <= |runs|
    ensures Lookup(RouteUpTo(runs, defaultChat, n), c)
      == (if BlocksFor(runs, defaultChat, c, n) == [] then None else Some(BlocksFor(runs, defaultChat, c, n)))
  {
    if n > 0 {
      RouteLookup(runs, defaultChat, n - 1, c);
      var d := RouteUpTo(runs, defaultChat, n - 1);
      match Target(runs[n - 1], defaultChat)
      case None =>
        assert RouteUpTo(runs, defaultChat, n) == d;
        assert BlocksFor(runs, defaultChat, c, n) == BlocksFor(runs, defaultChat, c, n - 1);
      case Some(t) =>
        var b := BlockOf(runs[n - 1]);
        var prev := BlocksFor(runs, defaultChat, c, n - 1);
        assert RouteUpTo(runs, defaultChat, n) == Put(d, t, Lookup(d, t).GetOr([]) + [b]);
        PutLookup(d, t, Lookup(d, t).GetOr([]) + [b], c);
        if t == c {
          assert Lookup(d, t).GetOr([]) == prev;
          assert BlocksFor(runs, defaultChat, c, n) == prev + [b];
        } else {
          assert BlocksFor(runs, defaultChat, c, n) == prev;
        }
    }
  }

  /** The whole grouping: distinct chats, each with its own blocks. */
  lemma RouteGroups(runs: seq<AccountRun>, defaultChat: Option<string>, n: nat)
    requires n <= |runs|
    ensures NoDuplicates(Keys(RouteUpTo(runs, defaultChat, n)))
    ensures forall c ::
      Lookup(RouteUpTo(runs, defaultChat, n), c) == (if BlocksFor(runs, defaultChat, c, n) == [] then None else Some(BlocksFor(runs, defaultChat, c, n)))
  {
    RouteNoDuplicates(runs, defaultChat, n);
    forall c
      ensures Lookup(RouteUpTo(runs, defaultChat, n), c)
        == (if BlocksFor(runs, defaultChat, c, n) == [] then None else Some(BlocksFor(runs, defaultChat, c, n)))
    {
      RouteLookup(runs, defaultChat, n, c);
    }
  }

  /** Only truthy chats receive anything. */
  lemma RouteChatsTruthy(runs: seq<AccountRun>, defaultChat: Option<string>)
    ensures Lookup(RouteUpTo(runs, defaultChat, |runs|), "").None?
  {
    RouteGroups(runs, defaultChat, |runs|);
    BlocksForEmpty(runs, defaultChat, |runs|);
  }

  lemma {:induction false} BlocksForEmpty(runs: seq<AccountRun>, defaultChat: Option<string>, n: nat)
    requires n <= |runs|
    ensures BlocksFor(runs, defaultChat, "", n) == []
  {
    if n > 0 {
      BlocksForEmpty(runs, defaultChat, n - 1);
    }
  }

  // --------------------------------------------------------------- totals

  /** The successes over every account, routed or dropped. */
  function TotalSuccess(runs: seq<AccountRun>): (n: nat)
    ensures n <= TotalAll(runs)
  {
    if runs == [] then 0 else CountSuccess(runs[0].results) + TotalSuccess(runs[1..])
  }

  /** The results over every account, routed or dropped. */
  function TotalAll(runs: seq<AccountRun>): nat {
    if runs == [] then 0 else |runs[0].results| + TotalAll(runs[1..])
  }

  /** "Total: {s}/{t} succeeded". */
  function TotalsText(runs: seq<AccountRun>): string {
    "Total: " + Text.IntToString(TotalSuccess(runs)) + "/" + Text.IntToString(TotalAll(runs)) + " succeeded"
  }

  /** A dropped block still counts: an account without any chat adds its
      results to the totals. */
  lemma {:induction false} DroppedRunsCount(runs: seq<AccountRun>, run: AccountRun)
    ensures TotalAll(runs + [run]) == TotalAll(runs) + |run.results|
    ensures TotalSuccess(runs + [run]) == TotalSuccess(runs) + CountSuccess(run.results)
  {
    if runs != [] {
      assert (runs + [run])[1..] == runs[1..] + [run];
      DroppedRunsCount(runs[1..], run);
    } else {
      assert [run][1..] == [];
    }
  }

  // -------------------------------------------------------------- run_all

  /** One `telegram.send(...)` call of `_send_notifications`. */
  datatype Notification = Notification(chatId: string, app: string, status: string, blocks: seq<Block>)

  /** The runs of every account: `calls[i][j]` is what the check-in of
      account `i`'s `j`-th enabled game does. */
  function AccountRuns(accounts: seq<Config.AccountConfig>, calls: seq<seq<SignCall>>): (runs: seq<AccountRun>)
    requires |calls| == |accounts|
    requires forall i :: 0 <= i < |accounts| ==> |calls[i]| == |accounts[i].enabledGames|
    ensures |runs| == |accounts|
    ensures forall i :: 0 <= i < |accounts| ==>
      runs[i].accountId == accounts[i].accountId && runs[i].chatId == accounts[i].telegramChatId
      && runs[i].results == RunForAccount(accounts[i], calls[i])
  {
    seq(|accounts|, i requires 0 <= i < |accounts| =>
      AccountRun(accounts[i].accountId, accounts[i].telegramChatId, RunForAccount(accounts[i], calls[i])))
  }

  /** `run_all`: nothing is sent without accounts; otherwise every chat
      that receives a block gets one notification with its blocks and the
      global totals. */
  function RunAll(accounts: seq<Config.AccountConfig>, calls: seq<seq<SignCall>>, defaultChat: Option<string>): (r: seq<Notification>)
    requires |calls| == |accounts|
    requires forall i :: 0 <= i < |accounts| ==> |calls[i]| == |accounts[i].enabledGames|
    ensures accounts == [] ==> r == []
    ensures forall i :: 0 <= i < |r| ==>
      r[i].app == "HoyoSignIn" && r[i].status == TotalsText(AccountRuns(accounts, calls))
    ensures forall i :: 0 <= i < |r| ==>
      r[i].blocks == BlocksFor(AccountRuns(accounts, calls), defaultChat, r[i].chatId, |accounts|)
      && r[i].blocks != []
    ensures forall i, j :: 0 <= i < j < |r| ==> r[i].chatId != r[j].chatId
    ensures accounts != [] ==> forall c :: BlocksFor(AccountRuns(accounts, calls), defaultChat, c, |accounts|) != [] ==>
      exists i :: 0 <= i < |r| && r[i].chatId == c
    ensures accounts != [] ==> r == NotificationsOf(RouteUpTo(AccountRuns(accounts, calls), defaultChat, |accounts|), TotalsText(AccountRuns(accounts, calls)))
  {
    if accounts == [] then []
    else
      var runs := AccountRuns(accounts, calls);
      var route := RouteUpTo(runs, defaultChat, |runs|);
      RouteGroups(runs, defaultChat, |runs|);
      NotificationsCover(route, runs, defaultChat, TotalsText(runs));
      NotificationsOf(route, TotalsText(runs))
  }

  /** One notification per entry of the grouping, all with the same totals. */
  function NotificationsOf(route: Dict<seq<Block>>, status: string): (r: seq<Notification>)
    ensures |r| == |route|
    ensures forall i :: 0 <= i < |r| ==> r[i] == Notification(route[i].0, "HoyoSignIn", status, route[i].1)
  {
    seq(|route|, i requires 0 <= i < |route| => Notification(route[i].0, "HoyoSignIn", status, route[i].1))
  }

  /** A grouping that holds exactly the non-empty block lists gives one
      notification per chat that receives a block, and no other. */
  lemma NotificationsCover(route: Dict<seq<Block>>, runs: seq<AccountRun>, defaultChat: Option<string>, status: string)
    requires NoDuplicates(Keys(route))
    requires forall c ::
      Lookup(route, c) == (if BlocksFor(runs, defaultChat, c, |runs|) == [] then None else Some(BlocksFor(runs, defaultChat, c, |runs|)))
    ensures forall i :: 0 <= i < |NotificationsOf(route, status)| ==>
      NotificationsOf(route, status)[i].blocks == BlocksFor(runs, defaultChat, NotificationsOf(route, status)[i].chatId, |runs|)
      && NotificationsOf(route, status)[i].blocks != []
    ensures forall i, j :: 0 <= i < j < |NotificationsOf(route, status)| ==>
      NotificationsOf(route, status)[i].chatId != NotificationsOf(route, status)[j].chatId
    ensures forall c :: BlocksFor(runs, defaultChat, c, |runs|) != [] ==>
      exists i :: 0 <= i < |NotificationsOf(route, status)| && NotificationsOf(route, status)[i].chatId == c
  {
    RouteEntries(route, runs, defaultChat);
    var r := NotificationsOf(route, status);
    forall i, j | 0 <= i < j < |r| ensures r[i].chatId != r[j].chatId {
      assert Keys(route)[i] == r[i].chatId && Keys(route)[j] == r[j].chatId;
    }
    forall c | BlocksFor(runs, defaultChat, c, |runs|) != []
      ensures exists i :: 0 <= i < |r| && r[i].chatId == c
    {
      var i :| 0 <= i < |route| && route[i].0 == c;
      assert r[i].chatId == c;
    }
  }

  /** Each entry of the grouping holds the blocks addressed to its chat. */
  lemma RouteEntries(route: Dict<seq<Block>>, runs: seq<AccountRun>, defaultChat: Option<string>)
    requires NoDuplicates(Keys(route))
    requires forall c ::
      Lookup(route, c) == (if BlocksFor(runs, defaultChat, c, |runs|) == [] then None else Some(BlocksFor(runs, defaultChat, c, |runs|)))
    ensures forall i :: 0 <= i < |route| ==>
      route[i].1 == BlocksFor(runs, defaultChat, route[i].0, |runs|) && route[i].1 != []
    ensures forall c :: BlocksFor(runs, defaultChat, c, |runs|) != [] ==>
      exists i :: 0 <= i < |route| && route[i].0 == c
  {
    forall c | BlocksFor(runs, defaultChat, c, |runs|) != []
      ensures exists i :: 0 <= i < |route| && route[i].0 == c
    {
      assert Lookup(route, c).Some?;
      var i :| 0 <= i < |route| && Keys(route)[i] == c;
    }
    forall i | 0 <= i < |route|
      ensures route[i].1 == BlocksFor(runs, defaultChat, route[i].0, |runs|) && route[i].1 != []
    {
      LookupDistinct(route, i);
    }
  }

  // ---------------------------------------------------------- run_check_in

  /** One `telegram.send(...)` call of the older runner. */
  datatype LegacyNotification = LegacyNotification(chatId: string, app: string, status: string, msg: Sign.RunOutput)

  /** The status line of the older runner. */
  function LegacyStatus(accountId: string, success: bool): string {
    accountId + ": " + (if success then "Success" else "Error")
  }

  /** The notification of one account in `run_check_in`: none unless the
      account has the game enabled and a truthy chat (its own, else the
      default). */
  function LegacyNotificationFor(game: string, account: Config.AccountConfig, call: SignCall,
                                 defaultChat: Option<string>): (r: Option<LegacyNotification>)
    ensures r.Some? <==> game in account.enabledGames && Config.Truthy(Config.Or(account.telegramChatId, defaultChat))
    ensures r.Some? ==>
      && r.value.chatId == Config.Or(account.telegramChatId, defaultChat).value
      && r.value.app == game + " Helper"
      && r.value.status == LegacyStatus(account.accountId, call.Returned?)
      && r.value.msg == RunForGame(game, account, call).message
  {
    if game !in account.enabledGames then None
    else
      var result := RunForGame(game, account, call);
      var chat := Config.Or(account.telegramChatId, defaultChat);
      if !Config.Truthy(chat) then None
      else Some(LegacyNotification(chat.value, game + " Helper",
                                   LegacyStatus(result.accountId, result.success),
                                   result.message))
  }

  /** The loop of `run_check_in` from account `i` on. */
  function LegacyFrom(game: string, accounts: seq<Config.AccountConfig>, calls: seq<SignCall>,
                      defaultChat: Option<string>, i: nat): (r: seq<LegacyNotification>)
    requires i <= |accounts| == |calls|
    ensures |r| <= |accounts| - i
    decreases |accounts| - i
  {
    if i == |accounts| then []
    else
      var head := LegacyNotificationFor(game, accounts[i], calls[i], defaultChat);
      (if head.Some? then [head.value] else []) + LegacyFrom(game, accounts, calls, defaultChat, i + 1)
  }

  /** Every notification of the loop is the one of some account from `i` on. */
  lemma {:induction false} LegacySound(game: string, accounts: seq<Config.AccountConfig>, calls: seq<SignCall>,
                                       defaultChat: Option<string>, i: nat)
    requires i <= |accounts| == |calls|
    ensures forall n :: n in LegacyFrom(game, accounts, calls, defaultChat, i) ==>
      exists k :: i <= k < |accounts| && LegacyNotificationFor(game, accounts[k], calls[k], defaultChat) == Some(n)
    decreases |accounts| - i
  {
    if i < |accounts| {
      LegacySound(game, accounts, calls, defaultChat, i + 1);
    }
  }

  /** `run_check_in(game_name, game_config)`: nothing without both
      arguments; otherwise one notification per account that has the game
      enabled and a chat to send to, in account order. */
  function RunCheckIn(game: Option<string>, gameConfig: Option<Config.GameConfig>,
                      accounts: seq<Config.AccountConfig>, calls: seq<SignCall>,
                      defaultChat: Option<string>): (r: seq<LegacyNotification>)
    requires |calls| == |accounts|
    ensures !(Config.Truthy(game) && gameConfig.Some?) ==> r == []
    ensures |r| <= |accounts|
    ensures forall n :: n in r ==>
      (exists k :: 0 <= k < |accounts| && game.Some? && game.value in accounts[k].enabledGames
        && LegacyNotificationFor(game.value, accounts[k], calls[k], defaultChat) == Some(n))
  {
    if Config.Truthy(game) && gameConfig.Some? then
      LegacySound(game.value, accounts, calls, defaultChat, 0);
      LegacyFrom(game.value, accounts, calls, defaultChat, 0)
    else []
  }

  /** Every account with the game enabled and a chat is notified. */
  lemma {:induction false} LegacyComplete(game: string, accounts: seq<Config.AccountConfig>, calls: seq<SignCall>,
                                          defaultChat: Option<string>, i: nat, k: nat)
    requires i <= k < |accounts| == |calls|
    requires LegacyNotificationFor(game, accounts[k], calls[k], defaultChat).Some?
    ensures LegacyNotificationFor(game, accounts[k], calls[k], defaultChat).value
      in LegacyFrom(game, accounts, calls, defaultChat, i)
    decreases k - i
  {
    var head := LegacyNotificationFor(game, accounts[i], calls[i], defaultChat);
    var tail := LegacyFrom(game, accounts, calls, defaultChat, i + 1);
    assert LegacyFrom(game, accounts, calls, defaultChat, i) == (if head.Some? then [head.value] else []) + tail;
    if i < k {
      LegacyComplete(game, accounts, calls, defaultChat, i + 1, k);
    }
  }
}
