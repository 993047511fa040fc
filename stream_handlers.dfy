/** The two upload handlers of the bot: a file sent in a private chat, and a
    file posted in a channel. Both bracket their work between a lease on a
    processing bot (its load counter goes up) and a release in `finally`
    (it goes down again); the private handler also brackets it between
    adding the user's active-request row and removing it. Telegram I/O is
    not modelled: where it can raise, the handler takes the step that
    raises as a parameter. */
module StreamHandlers {
  import opened Wrappers
  import opened Text
  import opened Dicts
  import opened Clients
  import opened Storage
  import opened MultiBot

  /** The steps of the private handler's `try` block that can raise. */
  datatype Step =
    | AddRequest      // recording the active request
    | ProcessingReply // sending "Processing your file..."
    | MarkGenerating  // status "generating_link"
    | StoreFile       // storing the file record
    | Publish         // fetching the file ids, building the link, the final reply
    | MarkCompleted   // status "completed"

  function Order(s: Step): nat
  {
    match s
    case AddRequest => 0
    case ProcessingReply => 1
    case MarkGenerating => 2
    case StoreFile => 3
    case Publish => 4
    case MarkCompleted => 5
  }

  /** The step `s` runs to completion when the handler raises at `fault`. */
  predicate Completes(fault: Option<Step>, s: Step)
  {
    fault.None? || Order(s) < Order(fault.value)
  }

  datatype PrivateOutcome =
    | Refused        // an admission gate said no
    | Busy           // the user already holds a live request
    | Linked(id: FileId)
    | Failed(at: Step)

  /** The user's request row, when it is the only one, is the last row. */
  lemma AppendedRowIsFirst(rs: seq<Request>, row: Request)
    requires FirstWith(rs, RequestKey, row.userId).None?
    ensures FirstWith(rs + [row], RequestKey, row.userId) == Some(|rs|)
  {
    var s := rs + [row];
    assert RequestKey(s[|rs|]) == row.userId;
  }

  /** A status update of a user whose only row is the last one rewrites that row. */
  lemma StatusOfAppendedRow(rs: seq<Request>, row: Request, status: string, now: int)
    requires FirstWith(rs, RequestKey, row.userId).None?
    ensures SetStatus(rs + [row], row.userId, status, now) == rs + [row.(status := status, updatedTime := Some(now))]
  {
    AppendedRowIsFirst(rs, row);
  }

  /** Deleting the row of a user whose only row is the last one gives back
      the rows before it. */
  lemma RemoveAppendedRow(rs: seq<Request>, row: Request)
    requires FirstWith(rs, RequestKey, row.userId).None?
    ensures RemoveFirstWith(rs + [row], RequestKey, row.userId) == rs
  {
    AppendedRowIsFirst(rs, row);
    assert (rs + [row])[..|rs|] == rs;
  }

  /** A release after a lease on the same counter restores it. */
  lemma ReleaseUndoesLease(loads: map<string, int>, target: Option<string>)
    requires target.Some? ==> target.value in loads && loads[target.value] >= 0
    ensures Decremented(Incremented(loads, target), target) == loads
  {
    if target.Some? {
      var k := target.value;
      assert Decremented(Incremented(loads, target), target) == loads[k := Max0(loads[k] + 1 - 1)];
    }
  }

  /** The file store after storing a file under `id`: a file already
      stored (same owner and dedup key) is left alone; otherwise a new
      record, expiring `FileTtl` seconds from now, is added. */
  predicate Stored(before: map<FileId, FileRecord>, after: map<FileId, FileRecord>, id: FileId,
                   info: FileInfo, now: int, channel: Option<int>)
  {
    && id in after
    && after[id].info.ownerId == info.ownerId && after[id].info.uniqueId == info.uniqueId
    && if id in before then after == before
       else after == before[id := FileRecord(info, Some(now), Some(now + FileTtl), channel)]
  }

  /** The statuses a request row takes, in turn, when the handler raises at `fault`. */
  function Trail(fault: Option<Step>): (r: seq<string>)
    ensures fault.None? ==> r == ["processing", "generating_link", "completed"]
  {
    ["processing"]
      + (if Completes(fault, MarkGenerating) then ["generating_link"] else [])
      + (if Completes(fault, MarkCompleted) then ["completed"] else [])
  }

  /** The start of the `try` block of `private_receive_handler`: records
      the request, then leases `processor` when `leased`; nothing happens
      when recording raises. */
  method RecordRequest(
    db: Database, pool: MultiBotManager, userId: UserId, now: int, preview: FilePreview,
    processor: Client, leased: bool, fault: Option<Step>)
    requires pool.Valid()
    modifies db, pool
    ensures pool.Valid()
    ensures db.users == old(db.users) && db.banned == old(db.banned)
    ensures db.files == old(db.files) && db.nextId == old(db.nextId)
    ensures pool.processingBots == old(pool.processingBots) && pool.active == old(pool.active)
    ensures pool.mainBot == old(pool.mainBot) && pool.botLoads.keys == old(pool.botLoads.keys)
    ensures fault == Some(AddRequest) ==> db.requests == old(db.requests) && pool.botLoads == old(pool.botLoads)
    ensures fault != Some(AddRequest) ==>
      && db.requests == old(db.requests) + [Request(userId, now, "file_upload", "processing", Some(preview), None)]
      && pool.botLoads.entries
         == if leased
            then Incremented(old(pool.botLoads.entries), FirstMatch(pool.processingBots.keys, pool.processingBots.entries, processor.meId))
            else old(pool.botLoads.entries)
  {
    if fault == Some(AddRequest) {
      return;
    }
    db.AddActiveRequest(userId, now, "file_upload", Some(preview));
    if leased {
      pool.IncrementProcessorLoad(processor);
    }
  }

  /** `add_file` or `add_channel_file`, seen through `Stored`. */
  method Store(db: Database, info: FileInfo, now: int, channel: Option<int>) returns (id: FileId)
    requires db.Valid()
    modifies db
    ensures db.Valid()
    ensures db.banned == old(db.banned) && db.requests == old(db.requests)
    ensures Stored(old(db.files), db.files, id, info, now, channel)
  {
    id := db.AddFile(info, now, channel);
  }

  /** `update_request_status` when the user's row is the last of the rows. */
  method Mark(db: Database, userId: UserId, status: string, now: int, ghost rows: seq<Request>, ghost row: Request)
    requires |db.requests| == |rows| + 1
    modifies db
    ensures db.users == old(db.users) && db.banned == old(db.banned)
    ensures db.files == old(db.files) && db.nextId == old(db.nextId)
    ensures |db.requests| == |rows| + 1
    ensures FirstWith(rows, RequestKey, userId).None? && old(db.requests) == rows + [row] && row.userId == userId ==>
      db.requests == rows + [row.(status := status, updatedTime := Some(now))]
  {
    db.UpdateRequestStatus(userId, status, now);
    if FirstWith(rows, RequestKey, userId).None? && db.requests == rows + [row] && row.userId == userId {
      StatusOfAppendedRow(rows, row, status, now);
    }
  }

  /** The rest of the `try` block of `private_receive_handler`, after the
      request row `row` was appended to the rows `rows`: marks the request
      "generating_link", stores the file and marks the request "completed",
      stopping at the step `fault` that raises. `statuses` are the statuses
      the row takes in turn. */
  method Process(db: Database, userId: UserId, now: int, info: FileInfo, fault: Option<Step>,
                 ghost rows: seq<Request>, ghost row: Request)
    returns (stored: Option<FileId>, ghost statuses: seq<string>)
    requires db.Valid() && fault != Some(AddRequest)
    requires db.requests == rows + [row] && row.userId == userId && row.status == "processing"
    modifies db
    ensures db.Valid()
    ensures db.banned == old(db.banned)
    // Requests: with no earlier row of the user, only the new row changes.
    ensures |db.requests| == |rows| + 1
    ensures FirstWith(rows, RequestKey, userId).None? ==>
      && db.requests == rows + [db.requests[|rows|]]
      && db.requests[|rows|].userId == userId
      && statuses == Trail(fault)
    // Files.
    ensures stored.Some? <==> Completes(fault, StoreFile)
    ensures stored.None? ==> db.files == old(db.files) && db.users == old(db.users) && db.nextId == old(db.nextId)
    ensures stored.Some? ==> Stored(old(db.files), db.files, stored.value, info, now, None)
  {
    stored := None;
    statuses := [db.requests[|rows|].status];
    ghost var current := row;
    if fault == Some(ProcessingReply) || fault == Some(MarkGenerating) {
      return;
    }
    Mark(db, userId, "generating_link", now, rows, current);
    current := current.(status := "generating_link", updatedTime := Some(now));
    statuses := statuses + [db.requests[|rows|].status];
    if fault == Some(StoreFile) {
      return;
    }
    assert Completes(fault, StoreFile);
    var id := Store(db, info, now, None);
    stored := Some(id);
    if fault == Some(Publish) || fault == Some(MarkCompleted) {
      return;
    }
    Mark(db, userId, "completed", now, rows, current);
    statuses := statuses + [db.requests[|rows|].status];
  }

  /** The whole `try` block of `private_receive_handler`. */
  method Attempt(
    db: Database, pool: MultiBotManager, userId: UserId, now: int, preview: FilePreview, info: FileInfo,
    processor: Client, leased: bool, fault: Option<Step>)
    returns (stored: Option<FileId>, ghost statuses: seq<string>)
    requires db.Valid() && pool.Valid()
    modifies db, pool
    ensures db.Valid() && pool.Valid()
    ensures db.banned == old(db.banned)
    ensures pool.processingBots == old(pool.processingBots) && pool.active == old(pool.active)
    ensures pool.mainBot == old(pool.mainBot) && pool.botLoads.keys == old(pool.botLoads.keys)
    ensures fault == Some(AddRequest) ==>
      db.requests == old(db.requests) && pool.botLoads == old(pool.botLoads) && statuses == []
    ensures fault != Some(AddRequest) ==>
      && |db.requests| == |old(db.requests)| + 1
      && pool.botLoads.entries
         == if leased
            then Incremented(old(pool.botLoads.entries), FirstMatch(pool.processingBots.keys, pool.processingBots.entries, processor.meId))
            else old(pool.botLoads.entries)
    ensures fault != Some(AddRequest) && FirstWith(old(db.requests), RequestKey, userId).None? ==>
      && db.requests == old(db.requests) + [db.requests[|old(db.requests)|]]
      && db.requests[|old(db.requests)|].userId == userId
      && statuses == Trail(fault)
    ensures stored.Some? <==> Completes(fault, StoreFile)
    ensures stored.None? ==> db.files == old(db.files) && db.users == old(db.users) && db.nextId == old(db.nextId)
    ensures stored.Some? ==> Stored(old(db.files), db.files, stored.value, info, now, None)
  {
    ghost var rows := db.requests;
    RecordRequest(db, pool, userId, now, preview, processor, leased, fault);
    if fault == Some(AddRequest) {
      return None, [];
    }
    stored, statuses := Process(db, userId, now, info, fault, rows,
      Request(userId, now, "file_upload", "processing", Some(preview), None));
  }

  /** The `finally` block of `private_receive_handler`: deletes the user's
      request row and releases the lease on `processor` when `leased`. */
  method Finish(db: Database, pool: MultiBotManager, userId: UserId, processor: Client, leased: bool,
                ghost rows: seq<Request>)
    requires pool.Valid()
    modifies db, pool
    ensures pool.Valid()
    ensures db.users == old(db.users) && db.banned == old(db.banned)
    ensures db.files == old(db.files) && db.nextId == old(db.nextId)
    ensures pool.processingBots == old(pool.processingBots) && pool.active == old(pool.active)
    ensures pool.mainBot == old(pool.mainBot) && pool.botLoads.keys == old(pool.botLoads.keys)
    ensures pool.botLoads.entries
      == if leased
         then Decremented(old(pool.botLoads.entries), FirstMatch(pool.processingBots.keys, pool.processingBots.entries, processor.meId))
         else old(pool.botLoads.entries)
    ensures FirstWith(rows, RequestKey, userId).None? && old(db.requests) == rows ==> db.requests == rows
    ensures (FirstWith(rows, RequestKey, userId).None? && |old(db.requests)| == |rows| + 1
         && old(db.requests) == rows + [old(db.requests)[|rows|]] && old(db.requests)[|rows|].userId == userId) ==>
      db.requests == rows
  {
    if FirstWith(rows, RequestKey, userId).None? && |db.requests| == |rows| + 1
       && db.requests == rows + [db.requests[|rows|]] && db.requests[|rows|].userId == userId {
      RemoveAppendedRow(rows, db.requests[|rows|]);
    }
    db.RemoveActiveRequest(userId);
    if leased {
      pool.DecrementProcessorLoad(processor);
    }
  }

  /** `private_receive_handler`. `admitted` is the verdict of the
      authorisation, ban and forced-subscription gates; `fault` is the step
      of the `try` block that raises, if any. `processor` is the bot the
      work is leased to, `stored` the id of the stored file, and `statuses`
      the statuses the new request row takes in turn. */
  method PrivateReceive(
    db: Database, pool: MultiBotManager, bot: Client, userId: UserId, now: int,
    admitted: bool, multiBotMode: bool, preview: FilePreview, info: FileInfo, fault: Option<Step>)
    returns (outcome: PrivateOutcome, processor: Client, stored: Option<FileId>, ghost statuses: seq<string>)
    requires db.Valid() && pool.Valid() && pool.mainBot == Some(bot)
    modifies db, pool
    ensures db.Valid() && pool.Valid()
    ensures db.banned == old(db.banned)
    ensures pool.processingBots == old(pool.processingBots) && pool.active == old(pool.active)
    ensures pool.mainBot == old(pool.mainBot) && pool.botLoads.keys == old(pool.botLoads.keys)
    // Gates: a refused or busy user changes nothing.
    ensures !admitted ==> outcome == Refused && unchanged(db) && unchanged(pool)
    ensures admitted ==> (outcome == Busy <==> CheckRequesting(old(db.requests), userId, now).0)
    ensures outcome == Busy ==> db.requests == old(db.requests)
    ensures outcome.Refused? || outcome.Busy? ==> stored.None? && processor == bot
    // The processor: the least loaded one in multi-bot mode, the main bot otherwise.
    ensures !multiBotMode ==> processor == bot
    ensures multiBotMode && outcome != Refused && outcome != Busy && old(pool.active) ==>
      processor == old(pool.processingBots.entries[MinKey(pool.botLoads)])
    ensures multiBotMode && (!old(pool.active) || old(pool.botLoads.keys) == []) ==> processor == bot
    // How the run ends.
    ensures admitted && !CheckRequesting(old(db.requests), userId, now).0 ==>
      && (stored.Some? <==> Completes(fault, StoreFile))
      && outcome == if fault.None? then Linked(stored.value) else Failed(fault.value)
    // Leases: released on every path that took one; the main bot is never leased.
    ensures outcome != Failed(AddRequest) || processor.meId == bot.meId ==> pool.botLoads == old(pool.botLoads)
    ensures outcome == Failed(AddRequest) && processor.meId != bot.meId ==>
      pool.botLoads.entries
        == Decremented(old(pool.botLoads.entries), FirstMatch(pool.processingBots.keys, pool.processingBots.entries, processor.meId))
    // Requests: when the requesting check leaves the user no row, the rows
    // end as that check left them, and the user's row went through `Trail`.
    ensures ((outcome.Linked? || outcome.Failed?)
             && FirstWith(CheckRequesting(old(db.requests), userId, now).1, RequestKey, userId).None?) ==>
      && db.requests == CheckRequesting(old(db.requests), userId, now).1
      && FirstWith(db.requests, RequestKey, userId).None?
      && (outcome.Linked? ==> statuses == Trail(None))
    // Files: nothing is stored before `StoreFile` completes.
    ensures stored.None? ==> db.files == old(db.files) && db.users == old(db.users) && db.nextId == old(db.nextId)
    ensures stored.Some? ==> Stored(old(db.files), db.files, stored.value, info, now, None)
  {
    processor := bot;
    stored := None;
    statuses := [];
    if !admitted {
      return Refused, processor, stored, statuses;
    }
    var requesting := db.IsUserRequesting(userId, now);
    if requesting {
      assert FirstWith(old(db.requests), RequestKey, userId).Some?;
      return Busy, processor, stored, statuses;
    }
    if multiBotMode {
      var least := pool.GetLeastLoadedProcessor();
      processor := least.value;
    }
    var leased := processor.meId != bot.meId;
    ghost var rows := db.requests;
    ghost var loads := pool.botLoads.entries;
    ghost var target := FirstMatch(pool.processingBots.keys, pool.processingBots.entries, processor.meId);

    stored, statuses := Attempt(db, pool, userId, now, preview, info, processor, leased, fault);
    outcome := if fault.None? then Linked(stored.value) else Failed(fault.value);
    if leased && fault != Some(AddRequest) {
      ReleaseUndoesLease(loads, target);
    }
    Finish(db, pool, userId, processor, leased, rows);
  }

  /** `is_auth_channel`: the authorised channel is configured (a non-empty
      setting) and its text equals the chat id's. */
  predicate IsAuthChannel(authChannel: string, chatId: int)
  {
    authChannel != "" && IntToString(chatId) == authChannel
  }

  /** Only one chat is the authorised channel. */
  lemma OneAuthChannel(authChannel: string, a: int, b: int)
    requires IsAuthChannel(authChannel, a) && IsAuthChannel(authChannel, b)
    ensures a == b
  {
    IntToStringInjective(a, b);
  }

  /** The steps of the channel handler's `try` block that can raise. */
  datatype ChannelStep =
    | StoreChannelFile // storing the file record
    | PublishChannel   // fetching the file ids, editing the buttons, the log message

  datatype ChannelOutcome =
    | Ignored             // the channel is banned
    | Posted(id: FileId)
    | PostFailed(at: ChannelStep)

  /** `channel_receive_handler`. `banned` is the verdict of the channel ban
      gate; `fault` is the step of the `try` block that raises, if any. */
  method ChannelReceive(
    db: Database, pool: MultiBotManager, bot: Client, authChannel: string, chatId: int, now: int,
    banned: bool, multiBotMode: bool, info: FileInfo, fault: Option<ChannelStep>)
    returns (outcome: ChannelOutcome, processor: Client, stored: Option<FileId>)
    requires db.Valid() && pool.Valid() && pool.mainBot == Some(bot)
    modifies db, pool
    ensures db.Valid() && pool.Valid()
    ensures banned ==> outcome == Ignored && stored.None? && unchanged(db) && unchanged(pool)
    // The processor: a random one only for the authorised channel in multi-bot mode.
    ensures !(IsAuthChannel(authChannel, chatId) && multiBotMode) ==> processor == bot
    ensures !banned && IsAuthChannel(authChannel, chatId) && multiBotMode && pool.active ==>
      processor in pool.processingBots.entries.Values
    // The lease is released on every path.
    ensures pool.processingBots == old(pool.processingBots) && pool.active == old(pool.active)
    ensures pool.mainBot == old(pool.mainBot) && pool.botLoads == old(pool.botLoads)
    ensures db.banned == old(db.banned) && db.requests == old(db.requests)
    ensures !banned ==>
      && (fault.None? ==> outcome.Posted? && stored == Some(outcome.id))
      && (fault.Some? ==> outcome == PostFailed(fault.value))
      && (stored.Some? <==> fault != Some(StoreChannelFile))
    // Files: the channel is recorded iff the post comes from the authorised channel.
    ensures stored.None? ==> db.files == old(db.files) && db.users == old(db.users) && db.nextId == old(db.nextId)
    ensures stored.Some? ==>
      Stored(old(db.files), db.files, stored.value, info, now, if IsAuthChannel(authChannel, chatId) then Some(chatId) else None)
  {
    processor := bot;
    stored := None;
    if banned {
      return Ignored, processor, stored;
    }
    var isAuth := authChannel != "" && IntToString(chatId) == authChannel;
    if isAuth && multiBotMode {
      var random := pool.GetRandomProcessor();
      processor := random.value;
    }
    var leased := multiBotMode && processor.meId != bot.meId;
    ghost var loads := pool.botLoads;
    ghost var target := FirstMatch(pool.processingBots.keys, pool.processingBots.entries, processor.meId);

    // try
    if leased {
      pool.IncrementProcessorLoad(processor);
    }
    match fault {
      case Some(StoreChannelFile) =>
        outcome := PostFailed(StoreChannelFile);
      case _ =>
        var id := Store(db, info, now, if isAuth then Some(chatId) else None);
        stored := Some(id);
        outcome := if fault.None? then Posted(id) else PostFailed(PublishChannel);
    }

    // finally
    if leased {
      ReleaseUndoesLease(loads.entries, target);
      pool.DecrementProcessorLoad(processor);
      assert pool.botLoads == loads;
    }
  }
}
