/** The `/revoke` command, its confirmation buttons, and the `/botstats`
    command. A button carries its action and the id of the user it was
    made for in its callback data, `<action>_<user id>`; a press is acted
    on only for that user. */
module Revoke {
  import opened Wrappers
  import opened Text
  import opened Storage
  import opened MultiBot

  const RevokePrefix: string := "revoke_request_"
  const ConfirmPrefix: string := "confirm_revoke_"
  const CancelPrefix: string := "cancel_revoke_"

  /** The button kinds, one callback handler each. */
  datatype Action = AskRevoke | ConfirmRevoke | CancelRevoke

  function Prefix(a: Action): (p: string)
    ensures |p| >= 1 && p[|p| - 1] == '_'
  {
    match a
    case AskRevoke => RevokePrefix
    case ConfirmRevoke => ConfirmPrefix
    case CancelRevoke => CancelPrefix
  }

  /** The callback data of a button: `f"{prefix}{user_id}"`. */
  function CallbackData(a: Action, userId: UserId): string
  {
    Prefix(a) + IntToString(userId)
  }

  /** The handler the data is routed to: the one whose prefix it starts with. */
  function Route(data: string): (r: Option<Action>)
    ensures r.Some? ==> StartsWith(data, Prefix(r.value))
    ensures r.None? ==> forall a :: !StartsWith(data, Prefix(a))
  {
    if StartsWith(data, RevokePrefix) then Some(AskRevoke)
    else if StartsWith(data, ConfirmPrefix) then Some(ConfirmRevoke)
    else if StartsWith(data, CancelPrefix) then Some(CancelRevoke)
    else None
  }

  /** `int(data.split("_")[-1])`: the user id is read from the text after
      the last `_` (all of `data` when it has none); `None` is the
      `ValueError`. */
  function ParseUserId(data: string): (r: Option<UserId>)
    ensures exists k ::
              && 0 <= k <= |data| && (k == 0 || data[k - 1] == '_')
              && '_' !in data[k..] && r == ParseInt(data[k..])
  {
    var parts := Split(data, '_');
    LastFieldAfterUnderscore(data);
    ParseInt(parts[|parts| - 1])
  }

  lemma LastFieldAfterUnderscore(data: string)
    ensures var parts := Split(data, '_');
      exists k ::
        && 0 <= k <= |data| && (k == 0 || data[k - 1] == '_')
        && '_' !in data[k..] && parts[|parts| - 1] == data[k..]
  {
    var parts := Split(data, '_');
    SplitLastIsSuffix(data, '_');
    assert parts[|parts| - 1] in parts;
  }

  lemma NoUnderscoreInId(u: UserId)
    ensures '_' !in IntToString(u)
  {
    var digits := NatToString(if u < 0 then -u else u);
    assert forall i :: 0 <= i < |digits| ==> digits[i] != '_';
    if u < 0 {
      assert IntToString(u) == "-" + digits;
    }
  }

  lemma ReadsBackUserId(a: Action, userId: UserId)
    ensures ParseUserId(CallbackData(a, userId)) == Some(userId)
  {
    var data := CallbackData(a, userId);
    NoUnderscoreInId(userId);
    LastFieldAfterSeparator(Prefix(a), IntToString(userId), '_');
    ParseIntOfIntToString(userId);
  }

  /** Every button routes to its own handler, which reads back the user id
      it was made for. */
  lemma CallbackDataRoundTrip(a: Action, userId: UserId)
    ensures Route(CallbackData(a, userId)) == Some(a)
    ensures ParseUserId(CallbackData(a, userId)) == Some(userId)
  {
    ReadsBackUserId(a, userId);
    RoutesToOwnHandler(a, userId);
  }

  lemma RoutesToOwnHandler(a: Action, userId: UserId)
    ensures Route(CallbackData(a, userId)) == Some(a)
  {
    var data := CallbackData(a, userId);
    assert data[..|Prefix(a)|] == Prefix(a);
    match a
    case AskRevoke =>
    case ConfirmRevoke =>
      assert data[..|RevokePrefix|] != RevokePrefix by { assert data[0] != RevokePrefix[0]; }
    case CancelRevoke =>
      assert data[..|RevokePrefix|] != RevokePrefix by { assert data[0] != RevokePrefix[0]; }
      assert data[..|ConfirmPrefix|] != ConfirmPrefix by { assert data[1] != ConfirmPrefix[1]; }
  }

  /** Why a button press was turned away. */
  datatype Refusal =
    | Malformed  // the id field is not an int: the handler raises
    | NotOwner   // "You can only ... your own requests!"

  /** The owner guard of the three callback handlers: the id in the data
      must be the id of the user who pressed. */
  function Guard(clicker: UserId, data: string): (r: Result<UserId, Refusal>)
    ensures r.Ok? <==> ParseUserId(data) == Some(clicker)
    ensures r.Ok? ==> r.value == clicker
    ensures r == Err(NotOwner) <==> ParseUserId(data).Some? && ParseUserId(data).value != clicker
  {
    match ParseUserId(data)
    case None => Err(Malformed)
    case Some(u) => if u != clicker then Err(NotOwner) else Ok(u)
  }

  /** A user's own button always passes the guard; anyone else's never does. */
  lemma GuardOnOwnButton(a: Action, owner: UserId, clicker: UserId)
    ensures Guard(clicker, CallbackData(a, owner)) == if clicker == owner then Ok(owner) else Err(NotOwner)
  {
    CallbackDataRoundTrip(a, owner);
  }

  /** Python's `int(x / 60)`: whole minutes, truncated toward zero. */
  function Minutes(seconds: int): (m: int)
    ensures seconds >= 0 ==> 0 <= m && 60 * m <= seconds < 60 * m + 60
    ensures seconds < 0 ==> m <= 0 && 60 * m - 60 < seconds <= 60 * m
  {
    if seconds >= 0 then seconds / 60 else -((-seconds) / 60)
  }

  /** What the command or a callback shows. */
  datatype Reply =
    | Refused(why: Refusal)
    | NoRequest                                  // "No Active Request Found" / "Request Not Found"
    | Prompt(request: Request, minutes: int, confirm: string, cancel: string)
    | Revoked                                    // "Request Revoked Successfully"
    | RevokeFailed                               // "Failed to Revoke"
    | Kept                                       // "Request Preserved"

  /** The confirmation prompt for the user's request. */
  function PromptFor(request: Request, userId: UserId, now: int): Reply
  {
    Prompt(request, Minutes(now - request.startTime), CallbackData(ConfirmRevoke, userId), CallbackData(CancelRevoke, userId))
  }

  /** `revoke_request_command`: with no request, only a notice; otherwise
      the confirmation prompt, whose buttons carry the user's id. */
  method RevokeRequestCommand(db: Database, userId: UserId, now: int) returns (r: Reply)
    ensures r == NoRequest <==> db.GetUserActiveRequest(userId).None?
    ensures r != NoRequest ==>
      && r.Prompt? && r.request == db.GetUserActiveRequest(userId).value && r.request.userId == userId
      && ParseUserId(r.confirm) == Some(userId) && Route(r.confirm) == Some(ConfirmRevoke)
      && ParseUserId(r.cancel) == Some(userId) && Route(r.cancel) == Some(CancelRevoke)
  {
    var active := db.GetUserActiveRequest(userId);
    if active.None? {
      return NoRequest;
    }
    CallbackDataRoundTrip(ConfirmRevoke, userId);
    CallbackDataRoundTrip(CancelRevoke, userId);
    r := PromptFor(active.value, userId, now);
  }

  /** `revoke_request_callback`: the owner gets the confirmation prompt
      (or a notice when the request is gone); nobody else gets anything. */
  method RevokeRequestCallback(db: Database, clicker: UserId, data: string, now: int) returns (r: Reply)
    ensures Guard(clicker, data).Err? ==> r == Refused(Guard(clicker, data).error)
    ensures Guard(clicker, data).Ok? ==>
      && (r == NoRequest <==> db.GetUserActiveRequest(clicker).None?)
      && (r != NoRequest ==> r == PromptFor(db.GetUserActiveRequest(clicker).value, clicker, now))
  {
    var guard := Guard(clicker, data);
    if guard.Err? {
      return Refused(guard.error);
    }
    var active := db.GetUserActiveRequest(clicker);
    if active.None? {
      return NoRequest;
    }
    r := PromptFor(active.value, clicker, now);
  }

  /** `confirm_revoke_callback`: the owner's press deletes their request
      row and reports whether there was one; any other press changes
      nothing. */
  method ConfirmRevokeCallback(db: Database, clicker: UserId, data: string) returns (r: Reply)
    modifies db
    ensures db.users == old(db.users) && db.banned == old(db.banned)
    ensures db.files == old(db.files) && db.nextId == old(db.nextId)
    ensures Guard(clicker, data).Err? ==> r == Refused(Guard(clicker, data).error) && db.requests == old(db.requests)
    ensures Guard(clicker, data).Ok? ==>
      && (r == Revoked <==> old(db.GetUserActiveRequest(clicker)).Some?)
      && (r != Revoked ==> r == RevokeFailed)
      && db.requests == RemoveFirstWith(old(db.requests), RequestKey, clicker)
    ensures Guard(clicker, data).Ok? && OneRowPerUser(old(db.requests)) ==>
      db.GetUserActiveRequest(clicker).None? && OneRowPerUser(db.requests)
  {
    var guard := Guard(clicker, data);
    if guard.Err? {
      return Refused(guard.error);
    }
    if OneRowPerUser(db.requests) {
      RemoveOnlyRow(db.requests, clicker);
    }
    var success := db.RevokeUserRequest(clicker);
    r := if success then Revoked else RevokeFailed;
  }

  /** `cancel_revoke_callback`: it reads nothing and changes nothing; the
      owner is told the request is kept. */
  method CancelRevokeCallback(clicker: UserId, data: string) returns (r: Reply)
    ensures r == Kept <==> Guard(clicker, data).Ok?
    ensures r != Kept ==> r == Refused(Guard(clicker, data).error)
  {
    var guard := Guard(clicker, data);
    if guard.Err? {
      return Refused(guard.error);
    }
    r := Kept;
  }

  /** The statistics the `/botstats` command shows. */
  datatype Report =
    | SingleBot
    | MultiBotReport(totalBots: StatValue, active: bool, loads: map<string, int>, activeRequests: nat)

  /** The exception the command raises while reading the stats dict. */
  datatype StatsError = KeyMissing(key: string) | NotALoadsDict

  /** Python truthiness of a stats value. */
  function Truthy(v: StatValue): bool
  {
    match v
    case Flag(b) => b
    case Name(n) => n != ""
    case Count(c) => c != 0
    case Loads(l) => l != map[]
  }

  /** The report built from a stats dict reading the bot count under
      `countKey` and the loads under `loadsKey`. */
  function ReportFrom(multiBotMode: bool, stats: map<string, StatValue>, countKey: string, loadsKey: string,
                      requests: nat): (r: Result<Report, StatsError>)
    ensures !multiBotMode ==> r == Ok(SingleBot)
    ensures multiBotMode && countKey !in stats ==> r == Err(KeyMissing(countKey))
    ensures multiBotMode && {countKey, "active", loadsKey} <= stats.Keys && stats[loadsKey].Loads? ==>
      r == Ok(MultiBotReport(stats[countKey], Truthy(stats["active"]), stats[loadsKey].loads, requests))
  {
    if !multiBotMode then Ok(SingleBot)
    else if countKey !in stats then Err(KeyMissing(countKey))
    else if "active" !in stats then Err(KeyMissing("active"))
    else if loadsKey !in stats then Err(KeyMissing(loadsKey))
    else if !stats[loadsKey].Loads? then Err(NotALoadsDict)
    else Ok(MultiBotReport(stats[countKey], Truthy(stats["active"]), stats[loadsKey].loads, requests))
  }

  /** `bot_stats_command` as written: it reads `total_bots` and `loads`,
      keys `get_bot_stats` never returns, so in multi-bot mode it always
      raises `KeyError`. */
  method BotStatsCommandAsWritten(pool: MultiBotManager, db: Database, multiBotMode: bool)
    returns (r: Result<Report, StatsError>)
    requires pool.Valid()
    ensures !multiBotMode ==> r == Ok(SingleBot)
    ensures multiBotMode ==> r == Err(KeyMissing("total_bots"))
  {
    if !multiBotMode {
      return Ok(SingleBot);
    }
    var stats := pool.GetBotStats();
    r := ReportFrom(multiBotMode, stats, "total_bots", "loads", |db.requests|);
  }

  /** `bot_stats_command` reading the keys `get_bot_stats` returns: the
      number of processors, whether the pool is active, every processor's
      load and the number of request rows. */
  method BotStatsCommand(pool: MultiBotManager, db: Database, multiBotMode: bool)
    returns (r: Result<Report, StatsError>)
    requires pool.Valid()
    ensures !multiBotMode ==> r == Ok(SingleBot)
    ensures multiBotMode ==>
      r == Ok(MultiBotReport(Count(|pool.processingBots.keys|), pool.active, pool.botLoads.entries, |db.requests|))
  {
    if !multiBotMode {
      return Ok(SingleBot);
    }
    var stats := pool.GetBotStats();
    r := ReportFrom(multiBotMode, stats, "total_processors", "processor_loads", |db.requests|);
  }
}
