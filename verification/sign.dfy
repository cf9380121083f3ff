/** src/sign.py: one game's daily check-in for one account.  The three API
    calls (roles, check-in info, awards) and the claim POST are replaced by
    their decoded payloads, or by the exception the call ended with; the
    message template is replaced by the record of its fields.
 */
module Sign {
  import opened Wrappers
  import Text
  import Config

  /** What one API call of `Sign` produces: the decoded JSON payload, the
      exception `HttpClient.request` ended with, or the `JSONDecodeError`
      `HttpClient.to_python` re-raises; each exception by its text. */
  datatype Fetch<T> = Fetched(payload: T) | RequestRaised(error: string) | JsonInvalid(error: string)

  /** One entry of the role list; a field the server leaves out is `None`. */
  datatype Role = Role(
    level: Option<int>,
    regionName: Option<string>,
    gameUid: Option<string>,
    nickname: Option<string>)

  /** The role-list response.  `data` is `None` when the key is missing or
      null; a `data` object without a `list` is `Some([])`. */
  datatype RolesPayload = RolesPayload(
    retcode: Option<int>,
    message: Option<string>,
    data: Option<seq<Role>>)

  /** The `data` object of the check-in info response. */
  datatype SignInfo = SignInfo(
    today: Option<string>,
    totalSignDay: Option<int>,
    isSign: Option<bool>,
    firstBind: Option<bool>)

  /** A `data` field read with `.get('data', {})`: a missing key gives the
      empty object, a JSON null gives `None`, on which the next `.get`
      raises. */
  datatype Field<T> = Missing | Null | Present(value: T)
  {
    /** The object the field holds, `empty` standing for `{}`. */
    function GetOr(empty: T): T {
      if Present? then value else empty
    }
  }

  /** The check-in info response: an empty (falsy) payload, or an object
      whose `data` may be missing or null. */
  datatype InfoPayload = EmptyInfo | InfoObject(data: Field<SignInfo>)

  /** One entry of the award list. */
  datatype Award = Award(name: Option<string>, cnt: Option<int>)

  /** The awards response: its `data` object stands for its `awards` list,
      which is `[]` when the key is missing. */
  datatype AwardsPayload = AwardsPayload(data: Field<seq<Award>>)

  /** What Python says when `.get` is called on `None`. */
  const NoneGetError: string := "'NoneType' object has no attribute 'get'"

  /** The info `data` of a missing key: every field takes its default. */
  const NoInfo: SignInfo := SignInfo(None, None, None, None)

  /** The claim response. */
  datatype ClaimPayload = ClaimPayload(retcode: Option<int>, message: Option<string>)

  /** The reward shown in the message. */
  datatype Reward = Reward(name: string, cnt: int)

  /** The fields of MESSAGE_TEMPLATE. */
  datatype SignMessage = SignMessage(
    today: string,
    regionName: string,
    uid: string,
    level: string,
    nickName: string,
    totalSignDay: int,
    awardName: string,
    awardCnt: int,
    status: string)

  /** What `Sign.run` returns: the filled-in template, or a one-line error. */
  datatype RunOutput = Report(msg: SignMessage) | Plain(text: string)

  // ---------------------------------------------------------------- headers

  /** The headers every request of a game sends before `os_headers` is
      applied. */
  function BaseHeaders(config: Config.GameConfig, cookie: string): map<string, string> {
    map["User-Agent" := config.userAgent,
        "Referer" := config.refererUrl,
        "Accept-Encoding" := "gzip, deflate, br",
        "Cookie" := cookie]
  }

  /** `BaseSign.get_header`: the four base headers, overridden and extended
      by the game's `os_headers`. */
  function GetHeader(config: Config.GameConfig, cookie: string): (h: map<string, string>)
    ensures h.Keys == {"User-Agent", "Referer", "Accept-Encoding", "Cookie"} + config.osHeaders.Keys
    ensures forall k :: k in config.osHeaders ==> h[k] == config.osHeaders[k]
    ensures "Cookie" !in config.osHeaders ==> h["Cookie"] == cookie
    ensures "User-Agent" !in config.osHeaders ==> h["User-Agent"] == config.userAgent
    ensures "Referer" !in config.osHeaders ==> h["Referer"] == config.refererUrl
    ensures "Accept-Encoding" !in config.osHeaders ==> h["Accept-Encoding"] == "gzip, deflate, br"
  {
    var base := BaseHeaders(config, cookie);
    if config.osHeaders != map[] then base + config.osHeaders else base
  }

  // ------------------------------------------------------------------ roles

  /** `Roles.get_roles`: a request or JSON exception propagates; a payload
      whose `retcode` (1 when missing) is not 0, or whose `data` is null,
      is an error carrying the server message ("Unknown error" when
      missing). */
  function GetRoles(f: Fetch<RolesPayload>): (r: Result<seq<Role>, string>)
    ensures r.Success? <==> f.Fetched? && f.payload.retcode == Some(0) && f.payload.data.Some?
    ensures r.Success? ==> r.value == f.payload.data.value
    ensures f.Fetched? && r.Failure? ==>
      r.error == "Error getting roles: " + f.payload.message.GetOr("Unknown error")
    ensures !f.Fetched? ==> r.Failure? && r.error == f.error
  {
    match f
    case RequestRaised(e) => Failure(e)
    case JsonInvalid(e) => Failure(e)
    case Fetched(p) =>
      if p.retcode.GetOr(1) != 0 || p.data.None? then
        Failure("Error getting roles: " + p.message.GetOr("Unknown error"))
      else Success(p.data.value)
  }

  /** A role reply without `retcode` is rejected whatever its data, as if
      it carried the error code 1. */
  lemma MissingRolesRetcodeFails(message: Option<string>, data: Option<seq<Role>>)
    ensures GetRoles(Fetched(RolesPayload(None, message, data)))
      == GetRoles(Fetched(RolesPayload(Some(1), message, data)))
    ensures GetRoles(Fetched(RolesPayload(None, message, data)))
      == Failure("Error getting roles: " + message.GetOr("Unknown error"))
  {
  }

  /** The level roles are compared by: a missing level counts as 0. */
  function LevelOf(role: Role): int {
    role.level.GetOr(0)
  }

  /** `r` is the first role of greatest level. */
  predicate IsFirstHighest(roles: seq<Role>, r: int) {
    && 0 <= r < |roles|
    && (forall k :: 0 <= k < |roles| ==> LevelOf(roles[k]) <= LevelOf(roles[r]))
    && (forall k :: 0 <= k < r ==> LevelOf(roles[k]) < LevelOf(roles[r]))
  }

  /** The scan of `Sign.get_info` from index `i` on, with `best` the index
      of the highest level so far; only a strictly higher level moves it. */
  function HighestFrom(roles: seq<Role>, i: nat, best: nat): (r: nat)
    requires best < i <= |roles|
    requires forall k :: 0 <= k < i ==> LevelOf(roles[k]) <= LevelOf(roles[best])
    requires forall k :: 0 <= k < best ==> LevelOf(roles[k]) < LevelOf(roles[best])
    ensures IsFirstHighest(roles, r)
    ensures best <= r
    decreases |roles| - i
  {
    if i == |roles| then best
    else if LevelOf(roles[i]) > LevelOf(roles[best]) then HighestFrom(roles, i + 1, i)
    else HighestFrom(roles, i + 1, best)
  }

  /** The index of the role `Sign.get_info` selects from a non-empty list. */
  function HighestRole(roles: seq<Role>): (r: nat)
    requires roles != []
    ensures IsFirstHighest(roles, r)
  {
    HighestFrom(roles, 1, 0)
  }

  /** There is only one first role of greatest level, so the scan's choice
      is the only possible one. */
  lemma FirstHighestUnique(roles: seq<Role>, r: int, q: int)
    requires IsFirstHighest(roles, r)
    ensures IsFirstHighest(roles, q) <==> q == r
  {
    if 0 <= q < r {
      assert LevelOf(roles[q]) < LevelOf(roles[r]);
    } else if r < q < |roles| {
      assert LevelOf(roles[r]) < LevelOf(roles[q]) ==> !IsFirstHighest(roles, r);
    }
  }

  /** The first part of `Sign.get_info`: fetch the roles and select the
      highest one.  An empty list is an error whose text is the server
      message, or "Role list is empty" without one. */
  function SelectRole(f: Fetch<RolesPayload>): (r: Result<Role, string>)
    ensures r.Success? <==> GetRoles(f).Success? && GetRoles(f).value != []
    ensures r.Success? ==> exists i :: IsFirstHighest(GetRoles(f).value, i) && r.value == GetRoles(f).value[i]
    ensures GetRoles(f).Failure? ==> r == Failure(GetRoles(f).error)
    ensures GetRoles(f) == Success([]) ==> r == Failure(f.payload.message.GetOr("Role list is empty"))
  {
    match GetRoles(f)
    case Failure(e) => Failure(e)
    case Success(roles) =>
      if roles == [] then Failure(f.payload.message.GetOr("Role list is empty"))
      else Success(roles[HighestRole(roles)])
  }

  // ------------------------------------------------------------ the resolver

  /** The reward an award entry shows: 'Unknown' x 0 for missing fields. */
  function RewardOf(a: Award): Reward {
    Reward(a.name.GetOr("Unknown"), a.cnt.GetOr(0))
  }

  const UnknownReward: Reward := Reward("Unknown", 0)
  const ManualReward: Reward := Reward("N/A", 0)

  const AlreadyDoneStatus: string := "Already done!"
  const ManualStatus: string := "Please check in manually once"

  /** The status of a claim the server rejected without a message. */
  function UnknownCodeText(code: int): string {
    "Unknown error (code: " + Text.IntToString(code) + ")"
  }

  /** The check-in info with the code's defaults for missing fields. */
  function TotalSignDay(info: SignInfo): int { info.totalSignDay.GetOr(0) }
  predicate IsSign(info: SignInfo) { info.isSign.GetOr(false) }
  predicate FirstBind(info: SignInfo) { info.firstBind.GetOr(false) }

  /** What the decision part of `Sign.run` settles: the reward, the status,
      the day count reported, and whether the claim POST was sent. */
  datatype Resolution = Resolution(reward: Reward, status: string, totalSignDay: int, claimed: bool)

  /** The reward reported when today is already claimed: the award of day
      `total_sign_day`, when that day exists. */
  function ClaimedReward(awards: seq<Award>, total: int): (w: Reward)
    ensures 0 < total <= |awards| ==> w == RewardOf(awards[total - 1])
    ensures !(0 < total <= |awards|) ==> w == UnknownReward
  {
    if 0 < total <= |awards| then RewardOf(awards[total - 1]) else UnknownReward
  }

  /** The text of the `IndexError` Python raises for an index before the
      start of a list. */
  const IndexErrorText: string := "list index out of range"

  /** The reward a fresh claim is for: `awards[total_sign_day]` below the
      length, with Python's indexing, so a negative day count counts from
      the end and one before the start raises; Unknown x 0 otherwise. */
  function NextReward(awards: seq<Award>, total: int): (w: Result<Reward, string>)
    ensures w.Failure? <==> total < -|awards|
    ensures w.Failure? ==> w.error == IndexErrorText
    ensures 0 <= total < |awards| ==> w == Success(RewardOf(awards[total]))
    ensures -|awards| <= total < 0 ==> w == Success(RewardOf(awards[|awards| + total]))
    ensures total >= |awards| ==> w == Success(UnknownReward)
  {
    if total >= |awards| then Success(UnknownReward)
    else if total >= 0 then Success(RewardOf(awards[total]))
    else if total >= -|awards| then Success(RewardOf(awards[|awards| + total]))
    else Failure(IndexErrorText)
  }

  /** The two indexings agree on day counts the server can send: the day
      just claimed is the one a fresh claim was for, day 0 has no claimed
      award, and past the list there is no next one. */
  lemma ClaimedIsPreviousNext(awards: seq<Award>, total: int)
    requires total >= 0
    ensures NextReward(awards, total) == Success(ClaimedReward(awards, total + 1))
    ensures ClaimedReward(awards, 0) == UnknownReward
    ensures NextReward(awards, |awards|) == Success(UnknownReward)
    ensures ClaimedReward(awards, |awards| + 1) == UnknownReward
    ensures awards != [] ==> ClaimedReward(awards, |awards|) == RewardOf(awards[|awards| - 1])
  {
  }

  /** A negative day count breaks that agreement: a claim at day count -1
      is for the last award, while a run that sees the raised count 0
      reports Unknown x 0. */
  lemma NegativeDayShowsLastAward(awards: seq<Award>)
    requires awards != []
    ensures NextReward(awards, -1) == Success(RewardOf(awards[|awards| - 1]))
    ensures ClaimedReward(awards, 0) == UnknownReward
  {
  }

  /** What the claim POST settles: the status shown and the day count
      reported. */
  datatype ClaimResult = ClaimResult(status: string, totalSignDay: int)

  /** The outcome of the claim POST: the day count goes up by one only when
      the server answers with `retcode` 0 (99999 when missing). */
  function ClaimOutcome(claim: Fetch<ClaimPayload>, total: int): (r: ClaimResult)
    ensures r.totalSignDay == total + 1 <==> claim.Fetched? && claim.payload.retcode == Some(0)
    ensures r.totalSignDay != total + 1 ==> r.totalSignDay == total
    ensures claim.Fetched? && claim.payload.retcode == Some(0) ==>
      r.status == claim.payload.message.GetOr("Success")
    ensures claim.Fetched? && claim.payload.retcode != Some(0) ==>
      r.status == "Error: " + claim.payload.message.GetOr(UnknownCodeText(claim.payload.retcode.GetOr(99999)))
    ensures !claim.Fetched? ==> r.status == "Error: " + claim.error
  {
    match claim
    case RequestRaised(e) => ClaimResult("Error: " + e, total)
    case JsonInvalid(e) => ClaimResult("Error: " + e, total)
    case Fetched(p) =>
      var code := p.retcode.GetOr(99999);
      if code != 0 then ClaimResult("Error: " + p.message.GetOr(UnknownCodeText(code)), total)
      else ClaimResult(p.message.GetOr("Success"), total + 1)
  }

  /** The three-way decision of `Sign.run`, first match wins: already signed
      today, manual first check-in required, or claim.  `claim` is what the
      POST would give; it is looked at only when the POST is sent.  Reading
      the next reward happens before the POST, so when it raises no POST is
      sent and the error is the outcome. */
  function Resolve(info: SignInfo, awards: seq<Award>, claim: Fetch<ClaimPayload>): (r: Result<Resolution, string>)
    ensures IsSign(info) ==>
      r == Success(Resolution(ClaimedReward(awards, TotalSignDay(info)), AlreadyDoneStatus, TotalSignDay(info), false))
    ensures !IsSign(info) && FirstBind(info) ==>
      r == Success(Resolution(ManualReward, ManualStatus, TotalSignDay(info), false))
    ensures !IsSign(info) && !FirstBind(info) ==>
      (r.Failure? <==> NextReward(awards, TotalSignDay(info)).Failure?)
    ensures r.Failure? ==> r.error == IndexErrorText
    ensures r.Success? ==> (r.value.claimed <==> !IsSign(info) && !FirstBind(info))
    ensures r.Success? && r.value.claimed ==> NextReward(awards, TotalSignDay(info)) == Success(r.value.reward)
    ensures r.Success? && r.value.claimed ==>
      ClaimResult(r.value.status, r.value.totalSignDay) == ClaimOutcome(claim, TotalSignDay(info))
    ensures r.Success? && r.value.claimed ==>
      (r.value.totalSignDay == TotalSignDay(info) + 1 <==> claim.Fetched? && claim.payload.retcode == Some(0))
    ensures r.Success? && r.value.claimed ==>
      r.value.totalSignDay == TotalSignDay(info) || r.value.totalSignDay == TotalSignDay(info) + 1
  {
    var total := TotalSignDay(info);
    if IsSign(info) then Success(Resolution(ClaimedReward(awards, total), AlreadyDoneStatus, total, false))
    else if FirstBind(info) then Success(Resolution(ManualReward, ManualStatus, total, false))
    else
      match NextReward(awards, total)
      case Failure(e) => Failure(e)
      case Success(reward) =>
        var outcome := ClaimOutcome(claim, total);
        Success(Resolution(reward, outcome.status, outcome.totalSignDay, true))
  }

  /** A successful claim at a non-negative day count reports the award that
      the next run, now seeing today as signed with the new day count, shows
      as already claimed. */
  lemma ClaimThenAlreadyDone(info: SignInfo, awards: seq<Award>, claim: Fetch<ClaimPayload>,
                             later: Fetch<ClaimPayload>)
    requires !IsSign(info) && !FirstBind(info) && TotalSignDay(info) >= 0
    requires claim.Fetched? && claim.payload.retcode == Some(0)
    ensures var r := Resolve(info, awards, claim);
      var next := info.(isSign := Some(true), totalSignDay := Some(TotalSignDay(info) + 1));
      && r.Success?
      && r.value.totalSignDay == TotalSignDay(next)
      && Resolve(next, awards, later) == Success(Resolution(r.value.reward, AlreadyDoneStatus, TotalSignDay(next), false))
  {
    ClaimedIsPreviousNext(awards, TotalSignDay(info));
  }

  /** Without a claim the claim response is never looked at. */
  lemma UnclaimedIgnoresClaim(info: SignInfo, awards: seq<Award>, c1: Fetch<ClaimPayload>, c2: Fetch<ClaimPayload>)
    requires !(Resolve(info, awards, c1).Success? && Resolve(info, awards, c1).value.claimed)
    ensures Resolve(info, awards, c1) == Resolve(info, awards, c2)
  {
  }

  /** Already signed wins over a pending manual bind. */
  lemma AlreadySignedIgnoresFirstBind(info: SignInfo, awards: seq<Award>, claim: Fetch<ClaimPayload>, bind: Option<bool>)
    requires IsSign(info)
    ensures Resolve(info.(firstBind := bind), awards, claim) == Resolve(info, awards, claim)
    ensures Resolve(info, awards, claim).Success? && Resolve(info, awards, claim).value.status == AlreadyDoneStatus
  {
  }

  /** The reward of a fresh claim is chosen before the POST and reported
      whatever the POST gives; so is whether the run gets that far. */
  lemma ClaimRewardIndependentOfResponse(info: SignInfo, awards: seq<Award>, c1: Fetch<ClaimPayload>, c2: Fetch<ClaimPayload>)
    ensures Resolve(info, awards, c1).Success? == Resolve(info, awards, c2).Success?
    ensures Resolve(info, awards, c1).Success? ==>
      && Resolve(info, awards, c1).value.reward == Resolve(info, awards, c2).value.reward
      && Resolve(info, awards, c1).value.claimed == Resolve(info, awards, c2).value.claimed
  {
  }

  /** A claim answer without a `retcode` is a failure, and without a
      message it reports the code 99999. */
  lemma MissingRetcodeFails(info: SignInfo, awards: seq<Award>)
    requires !IsSign(info) && !FirstBind(info) && TotalSignDay(info) >= -|awards|
    ensures var r := Resolve(info, awards, Fetched(ClaimPayload(None, None)));
      && r.Success?
      && r.value.totalSignDay == TotalSignDay(info)
      && r.value.status == "Error: " + UnknownCodeText(99999)
  {
  }

  // --------------------------------------------------------------- Sign.run

  /** The message fields the selected role contributes; a missing field
      shows as 'NA'. */
  function RoleLevelText(role: Role): string {
    match role.level
    case None => "NA"
    case Some(l) => Text.IntToString(l)
  }

  /** The message a completed run fills in from the selected role, the
      check-in info and the resolved check-in. */
  function Fill(role: Role, si: SignInfo, r: Resolution): SignMessage {
    SignMessage(
      si.today.GetOr(""),
      role.regionName.GetOr("NA"),
      role.gameUid.GetOr("NA"),
      RoleLevelText(role),
      role.nickname.GetOr("NA"),
      r.totalSignDay,
      r.reward.name,
      r.reward.cnt,
      r.status)
  }

  /** The run gets past the info call: a role was selected and the info is
      an object whose `data` is not null. */
  predicate InfoUsable(roles: Fetch<RolesPayload>, info: Fetch<InfoPayload>) {
    SelectRole(roles).Success? && info.Fetched? && info.payload.InfoObject? && !info.payload.data.Null?
  }

  /** `Sign.run` given what each call would produce: any exception of the
      role, info or award calls ends in "Critical error: ...", a null `data`
      in the `AttributeError` that `.get` on `None` raises, an empty info
      payload in the fixed error line, a next reward read before the start
      of the list in the `IndexError` line, and otherwise the resolved
      check-in fills the message. */
  function Run(roles: Fetch<RolesPayload>, info: Fetch<InfoPayload>, awards: Fetch<AwardsPayload>,
               claim: Fetch<ClaimPayload>): (out: RunOutput)
    ensures SelectRole(roles).Failure? ==> out == Plain("Critical error: " + SelectRole(roles).error)
    ensures SelectRole(roles).Success? && !info.Fetched? ==> out == Plain("Critical error: " + info.error)
    ensures SelectRole(roles).Success? && info == Fetched(EmptyInfo) ==>
      out == Plain("Error: failed to get check-in information")
    ensures SelectRole(roles).Success? && info == Fetched(InfoObject(Null)) ==>
      out == Plain("Critical error: " + NoneGetError)
    ensures InfoUsable(roles, info) && awards.RequestRaised? ==>
      out == Plain("Critical error: " + awards.error)
    ensures InfoUsable(roles, info) && awards.JsonInvalid? ==>
      out == Plain("Critical error: Error getting awards: " + awards.error)
    ensures InfoUsable(roles, info) && awards == Fetched(AwardsPayload(Null)) ==>
      out == Plain("Critical error: " + NoneGetError)
    ensures
      (&& InfoUsable(roles, info) && awards.Fetched? && !awards.payload.data.Null?
       && Resolve(info.payload.data.GetOr(NoInfo), awards.payload.data.GetOr([]), claim).Failure?)
      ==> out == Plain("Critical error: " + IndexErrorText)
    ensures out.Report? <==>
      && InfoUsable(roles, info) && awards.Fetched? && !awards.payload.data.Null?
      && Resolve(info.payload.data.GetOr(NoInfo), awards.payload.data.GetOr([]), claim).Success?
    ensures out.Report? ==>
      var role := SelectRole(roles).value;
      var si := info.payload.data.GetOr(NoInfo);
      var r := Resolve(si, awards.payload.data.GetOr([]), claim).value;
      && out.msg.status == r.status
      && out.msg.totalSignDay == r.totalSignDay
      && out.msg.awardName == r.reward.name
      && out.msg.awardCnt == r.reward.cnt
      && out.msg.today == si.today.GetOr("")
      && out.msg.uid == role.gameUid.GetOr("NA")
      && out.msg.regionName == role.regionName.GetOr("NA")
      && out.msg.nickName == role.nickname.GetOr("NA")
      && out.msg.level == RoleLevelText(role)
  {
    match SelectRole(roles)
    case Failure(e) => Plain("Critical error: " + e)
    case Success(role) =>
      match info
      case RequestRaised(e) => Plain("Critical error: " + e)
      case JsonInvalid(e) => Plain("Critical error: " + e)
      case Fetched(EmptyInfo) => Plain("Error: failed to get check-in information")
      case Fetched(InfoObject(Null)) => Plain("Critical error: " + NoneGetError)
      case Fetched(InfoObject(data)) =>
        match awards
        case RequestRaised(e) => Plain("Critical error: " + e)
        case JsonInvalid(e) => Plain("Critical error: Error getting awards: " + e)
        case Fetched(AwardsPayload(Null)) => Plain("Critical error: " + NoneGetError)
        case Fetched(AwardsPayload(list)) =>
          var si := data.GetOr(NoInfo);
          match Resolve(si, list.GetOr([]), claim)
          case Failure(e) => Plain("Critical error: " + e)
          case Success(r) => Report(Fill(role, si, r))
  }

  /** `Sign.run` never raises: every outcome of the calls is a returned
      message, and a role or info failure, or null info data, stops before
      the awards and the claim are looked at. */
  lemma RunStopsAtRoleFailure(roles: Fetch<RolesPayload>, info: Fetch<InfoPayload>,
                              a1: Fetch<AwardsPayload>, c1: Fetch<ClaimPayload>,
                              a2: Fetch<AwardsPayload>, c2: Fetch<ClaimPayload>)
    requires !InfoUsable(roles, info)
    ensures Run(roles, info, a1, c1) == Run(roles, info, a2, c2)
    ensures Run(roles, info, a1, c1).Plain?
  {
  }
}
