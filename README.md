# FileStreamBot core, modelled in Dafny

FileStreamBot is a Telegram bot that stores the files users send it and hands
out time-limited links to stream or download them over HTTP. This project models
the parts of it that decide things:

- the download path of the HTTP server (`media_streamer`):
  - which backend client serves a request;
  - the per-client streamer cache;
  - reading the `Range` header (a single range `bytes=a-[b]`, a restricted form of
    section 2.1 of RFC 7233) and the 416 answer with `Content-Range: bytes */size`
    (sections 4.2 and 4.4 of RFC 7233);
  - the chunk-plan arithmetic handed to the streamer, and what that plan delivers;
- the response middleware that marks successful `/dl/` and `/watch/` answers as
  cacheable, and the `loads` map of `/status`;
- the pool of processing bots (`MultiBotManager`) with its in-flight counters;
- the document store (`Database`):
  - users with their link counters and the ban list;
  - file records with dedup on owner and file key, a one-hour expiry and the sweep
    of expired files;
  - the active-request rows that keep a user to one upload at a time, with their
    five-minute liveness and the sweep of stale rows;
- the two upload handlers, which bracket their work between adding a request row
  and removing it, and between leasing a processing bot and releasing it;
- the `/revoke` command and its confirmation buttons, whose callback data carries
  the owner's id, and the `/botstats` command;
- the `/watch` page: expired records are evicted when viewed, and the remaining
  time is shown in hours and minutes;
- the one-off migration that back-fills an expiry on records stored before
  expiries existed.

Collections are held in memory:
- the users, the ban list and the request rows are sequences, because the store
  keeps insertion order and `find_one` and `delete_one` act on the first match;
- file records are a map from store-assigned ids, issued in increasing order;
- Python dicts whose order matters are a key sequence plus a map (`Dicts.Dict`).

Time is whole seconds passed in as `now`. Telegram clients are abstract handles
(`Clients.Client`). A step that can raise is chosen by a parameter (`fault`,
`lookup`, `started`), so every exit path of a handler is covered.

Modules and files:

| file | module | source |
|---|---|---|
| wrappers.dfy | Wrappers | `None` returns and exceptions as `Option`/`Result` |
| text.dfy | Text | `str(n)`, `int(s)`, `split`, `replace`, `strip`, `startswith`, slicing |
| dicts.dfy | Dicts | insertion-ordered dicts, `min(d, key=d.get)` |
| clients.dfy | Clients | Pyrogram clients |
| database.dfy | Storage | FileStream/utils/database.py |
| multi_bot_manager.dfy | MultiBot | FileStream/utils/multi_bot_manager.py |
| range_plan.dfy | RangePlan | FileStream/server/stream_routes.py, lines 109-133 |
| stream_routes.dfy | StreamRoutes | FileStream/server/stream_routes.py |
| stream_handlers.dfy | StreamHandlers | FileStream/bot/plugins/stream.py |
| revoke.dfy | Revoke | FileStream/bot/plugins/revoke.py |
| render_page.dfy | Viewer | FileStream/utils/render_template.py, lines 10-43 |
| migrate.dfy | Migration | migrate_files.py |

The 416 test of `media_streamer` (line 117 of stream_routes.py) accepts
`until == file_size`, after which the clamp pulls `until` below `from` and the
plan's `req_length` is zero (`bytes=5-5` on a 5-byte file). As written, no
response is built from that plan: the headers read unbound names first
(Finding 3), so the request is answered 500. The defect is latent and
surfaces once Finding 3 is corrected.
`RangePlan.RejectedAsWritten` is the test as written. `RangePlan.Rejected` is the
model's corrected test, which accepts a range only when
`0 <= from <= until < file_size`, so that every accepted range lies in the file
and sends at least one byte. The difference is Finding 2 below.

## Model

| member | source | states |
|---|---|---|
| Storage.FirstWith | FileStream/utils/database.py:141 | `find_one` settles on the first document with the key; None means no document has it |
| Storage.RemoveFirstWith | FileStream/utils/database.py:185 | `delete_one` removes exactly the first document with the key, or nothing when there is none |
| Storage.RemoveFirstWithCount | FileStream/utils/database.py:60 | `delete_one` lowers the number of documents with the key by one when there is one |
| Storage.DecodeId | FileStream/utils/database.py:91 | an id is accepted only when it is the canonical text of a store id |
| Storage.DecodeEncodeId | FileStream/utils/database.py:91 | the text of every store id decodes back to that id |
| Storage.NewUser | FileStream/utils/database.py:18-23 | a new user has the given id and join date and no links |
| Storage.AdjustLinks | FileStream/utils/database.py:134-136 | `$inc` on the first user with the id changes only that user's counter, by exactly the delta; with no such user nothing changes |
| Storage.LinksDelta | FileStream/utils/database.py:132-136 | "+" adds one, "-" removes one, any other operation string changes nothing |
| Storage.DebitExpired | FileStream/utils/database.py:228-230 | debiting owners keeps the same users at the same positions (same length, same id at every position), so the first user of every id stays where it was |
| Storage.DebitExpiredPerOwner | FileStream/utils/database.py:228-230 | each owner's counter goes down once per expired file of theirs |
| Storage.CountExpired | FileStream/utils/database.py:227-231 | the loop's count is the number of expired files below the id bound |
| Storage.Unexpired | FileStream/utils/database.py:234 | `delete_many` keeps exactly the files that have not expired, unchanged; a record with no expiry never matches |
| Storage.RemovedAreExpired | FileStream/utils/database.py:234-235 | the number of files the sweep removes equals the number of expired files |
| Storage.FindUnique | FileStream/utils/database.py:102 | finds a file of that owner with that dedup key, or none exists in the id range |
| Storage.IdsDescending | FileStream/utils/database.py:82-85 | exactly the matching ids, strictly newest first |
| Storage.Window | FileStream/utils/database.py:83-84 | `skip(first - 1)` and `limit(n)` select consecutive entries from position `first`: all that remain when `abs(n)` is zero (a zero limit meaning no limit) or at least what remains, otherwise exactly `abs(n)` of them |
| Storage.CheckRequesting | FileStream/utils/database.py:139-149 | true exactly when the user's first row is live; a stale first row is deleted, and nothing else changes |
| Storage.RequestingIffLiveRow | FileStream/utils/database.py:139-149 | with one row per user, true iff the user holds a live row, and afterwards no stale row of theirs is left |
| Storage.StaleRowHidesLiveRow | FileStream/utils/database.py:141-148 | with two rows for one user, a stale first row hides a live second one |
| Storage.RemoveOnlyRow | FileStream/utils/database.py:183-185 | deleting a user's only row leaves none of theirs and keeps one row per user |
| Storage.NotRequestingLeavesNoRow | FileStream/utils/database.py:146-149 | a user found not requesting is left with no row |
| Storage.AppendKeepsOneRow | FileStream/utils/database.py:151-162 | appending a row for a user without one keeps one row per user |
| Storage.RevokeLeavesDuplicate | FileStream/utils/database.py:175-181 | since inserts are unchecked, one revoke can leave the user a second row |
| Storage.SetStatus | FileStream/utils/database.py:164-169 | only the user's first row changes, getting the new status and update time; with no row nothing changes |
| Storage.SweepRequests | FileStream/utils/database.py:237-241 | exactly the rows started at or after `now - 300` remain, every copy of each, in their original order |
| Storage.SweepCountsStale | FileStream/utils/database.py:239-241 | the sweep removes exactly one row per row started before `now - 300` |
| Storage.SweepKeepsRowAtTtl | FileStream/utils/database.py:144 | a row exactly 300 s old no longer blocks its user, yet the sweep keeps it |
| Storage.Database.constructor | FileStream/utils/database.py:9-15 | all collections start empty |
| Storage.Database.AddUser | FileStream/utils/database.py:26-28 | appends exactly the new-user document |
| Storage.Database.IsUserBanned | FileStream/utils/database.py:62-64 | true iff some ban document has the id |
| Storage.Database.BanUser | FileStream/utils/database.py:55-57 | appends a ban document, after which the user is banned |
| Storage.Database.UnbanUser | FileStream/utils/database.py:59-60 | removes one ban document of the user, if any |
| Storage.Database.CountLinks | FileStream/utils/database.py:132-136 | changes only the user's link counter, by the operation's delta |
| Storage.Database.GetFileByUniqueId | FileStream/utils/database.py:98-105 | returns a stored file of that owner and dedup key, or reports that none exists |
| Storage.Database.GetFilesByUniqueId | FileStream/utils/database.py:99-100 | every stored file with the dedup key, whoever owns it |
| Storage.Database.AddFile | FileStream/utils/database.py:71-78 | a duplicate keeps its id and changes nothing; otherwise one record expiring in 3600 s is stored under a fresh id and the owner gains exactly one link (also `add_channel_file`, lines 188-201) |
| Storage.Database.GetFile | FileStream/utils/database.py:89-96 | a malformed id or a missing record is FileNotFound; otherwise the stored record |
| Storage.Database.GetFileOfEncodedId | FileStream/utils/database.py:89-96 | a stored file's link id leads back to it |
| Storage.Database.FindFiles | FileStream/utils/database.py:81-87 | the owner's files newest first in the requested window, as many as `Window` selects (a zero limit meaning no limit), and the owner's total; a window starting before 1 is an error |
| Storage.Database.DeleteExpiredFiles | FileStream/utils/database.py:222-235 | removes exactly the expired files, debits each owner once per removed file, reports the number removed |
| Storage.Database.DebitExpiredOwners | FileStream/utils/database.py:227-231 | the loop debits exactly the expired files' owners and counts them; files are untouched |
| Storage.Database.DebitIfExpired | FileStream/utils/database.py:229-231 | one iteration debits the owner iff the file has expired |
| Storage.Database.IsUserRequesting | FileStream/utils/database.py:139-149 | answer and new rows are those of `CheckRequesting`; nothing else changes |
| Storage.Database.AddActiveRequest | FileStream/utils/database.py:151-162 | appends one "processing" row, with the preview only when given |
| Storage.Database.UpdateRequestStatus | FileStream/utils/database.py:164-169 | the rows become `SetStatus` of the old rows |
| Storage.Database.GetUserActiveRequest | FileStream/utils/database.py:171-173 | some row iff the user has one, and it is the user's first row, as `find_one` returns |
| Storage.Database.RevokeUserRequest | FileStream/utils/database.py:175-181 | true iff the user had a row, and one row of theirs is deleted |
| Storage.Database.RemoveActiveRequest | FileStream/utils/database.py:183-185 | deletes the user's first row only |
| Storage.Database.CleanupOldRequests | FileStream/utils/database.py:237-241 | keeps exactly the rows `SweepRequests` keeps and reports the number of rows started before `now - 300` |
| Storage.Database.DeleteFile | FileStream/utils/database.py:114-115 | removes only that record |
| Storage.Database.SetExpiry | migrate_files.py:32-35 | sets only that record's expiry |
| Dicts.Put | FileStream/utils/multi_bot_manager.py:45-46 | `d[k] = v`: a new key goes last, an existing key keeps its place |
| Dicts.MinKey | FileStream/server/stream_routes.py:76 | `min(d, key=d.get)`: a key of least value, the first such in insertion order, and no other key is |
| MultiBot.ProcessorKeyInjective | FileStream/utils/multi_bot_manager.py:27 | distinct token positions get distinct `processor_i` keys |
| MultiBot.FirstMatch | FileStream/utils/multi_bot_manager.py:86-89 | the first processor logged in as the bot, or none when no processor is |
| MultiBot.IncrementedTimesAdds | FileStream/utils/multi_bot_manager.py:84-89 | n increments add n to the target only |
| MultiBot.DecrementedTimesSubtracts | FileStream/utils/multi_bot_manager.py:91-96 | n decrements subtract n from the target, never below zero |
| MultiBot.LeasesThenReleasesRestore | FileStream/utils/multi_bot_manager.py:84-96 | n increments followed by n decrements restore every counter |
| MultiBot.RegisteredBotsAt | FileStream/utils/multi_bot_manager.py:26-52 | a token whose bot started registers it under `processor_i`; a failed token leaves its key alone |
| MultiBot.RegisteredBotsOnlyStarted | FileStream/utils/multi_bot_manager.py:26-52 | initialisation adds no key but those of bots that started |
| MultiBot.RegisteredLoadsAt | FileStream/utils/multi_bot_manager.py:45-46 | every started bot's counter is zero |
| MultiBot.MultiBotManager.constructor | FileStream/utils/multi_bot_manager.py:9-13 | empty pool, inactive, no main bot |
| MultiBot.MultiBotManager.InitializeMultiBots | FileStream/utils/multi_bot_manager.py:15-55 | disabled mode or no tokens leaves the pool inactive; otherwise the started bots are registered with zero loads and the pool is active iff it has a processor |
| MultiBot.MultiBotManager.RegisterProcessor | FileStream/utils/multi_bot_manager.py:45-46 | registers one bot under its key with a zero counter |
| MultiBot.MultiBotManager.GetLeastLoadedProcessor | FileStream/utils/multi_bot_manager.py:57-67 | the main bot when inactive or empty; otherwise the processor of least load, the first such in insertion order |
| MultiBot.MultiBotManager.GetRandomProcessor | FileStream/utils/multi_bot_manager.py:69-78 | the main bot when inactive or empty; otherwise some processor |
| MultiBot.MultiBotManager.IncrementProcessorLoad | FileStream/utils/multi_bot_manager.py:84-89 | adds one to the first matching processor's counter and changes nothing else |
| MultiBot.MultiBotManager.DecrementProcessorLoad | FileStream/utils/multi_bot_manager.py:91-96 | lowers the first matching processor's counter by one, floored at zero; counters stay non-negative |
| MultiBot.MultiBotManager.FindProcessor | FileStream/utils/multi_bot_manager.py:86-87 | the scan finds the first processor logged in as the bot |
| MultiBot.MultiBotManager.GetBotStats | FileStream/utils/multi_bot_manager.py:98-105 | exactly the four keys, with the processor count and a copy of the loads |
| MultiBot.MultiBotManager.StopAllBots | FileStream/utils/multi_bot_manager.py:107-118 | both maps empty and the pool inactive, whatever the state before (so a second call changes nothing); the main bot is kept |
| RangePlan.ParseRange | FileStream/server/stream_routes.py:109-115 | no header covers the whole file; an empty header raises; a parsed header starts at a non-negative byte |
| RangePlan.SpacedRangeIsRead | FileStream/server/stream_routes.py:109-112 | bounds padded with whitespace are read as the numbers, as `int()` reads them |
| Text.ParseInt | FileStream/server/stream_routes.py:111-112 | `int(s)`: a number exactly when the stripped text is an optional sign and digits with single underscores between them; negative only after a `-` |
| Text.ParseIntOfIntToString | FileStream/server/stream_routes.py:111-112 | `int(str(i)) == i` |
| Text.ParseIntOfPadded | FileStream/server/stream_routes.py:111-112 | `int()` ignores whitespace around the number |
| Text.ParseIntOfUnderscores | FileStream/server/stream_routes.py:111-112 | `int("1_0")` is 10, while `"1__0"`, `"_10"` and `"10_"` raise |
| RangePlan.ParseRangeOfRangeHeader | FileStream/server/stream_routes.py:109-112 | `bytes=a-b` reads as `(a, b)` and `bytes=a-` as `(a, file_size - 1)` |
| RangePlan.CeilDiv | FileStream/server/stream_routes.py:133 | `math.ceil(a / b)` is the least q with `a <= q * b` |
| RangePlan.MakePlan | FileStream/server/stream_routes.py:126-132 | `until` clamped to the last byte; `offset` a chunk boundary at or before `from`; cuts within a chunk; `req_length` the range's length |
| RangePlan.PartCountAsWrittenVersusSpan | FileStream/server/stream_routes.py:133 | `part_count` as written equals the chunks spanned unless `until % C == 0`, where it is one short |
| RangePlan.PlanByChunks | FileStream/server/stream_routes.py:128-133 | an accepted range's plan in terms of the chunks holding its first and last byte |
| RangePlan.DeliverIsRequestedSlice | FileStream/server/stream_routes.py:128-148 | with the corrected check and part count, the fetches deliver exactly bytes `from..until`, `req_length` of them |
| RangePlan.ChunkBoundaryRangeShortAsWritten | FileStream/server/stream_routes.py:133 | as written, `bytes=0-C` on a two-chunk file fetches one chunk and sends one byte while announcing C + 1 |
| RangePlan.EmptyPlanAsWrittenIff | FileStream/server/stream_routes.py:117-126 | as written, an accepted range sends nothing exactly when it starts at `file_size` |
| RangePlan.AcceptedRangeIsInsideFile | FileStream/server/stream_routes.py:117-126 | the corrected check accepts only ranges inside the file, which the clamp leaves alone and which send at least one byte |
| StreamRoutes.SelectClient | FileStream/server/stream_routes.py:69-91 | 503 exactly when no loads; else the first least-loaded index if it is a client, else the first client; no clients is an error |
| StreamRoutes.NotSatisfiable | FileStream/server/stream_routes.py:118-122 | 416 with only `Content-Range: bytes */size` |
| StreamRoutes.ContentType | FileStream/server/stream_routes.py:150-155 | the stored mime type when there is one, never empty |
| StreamRoutes.ServeAsWritten | FileStream/server/stream_routes.py:107-164 | as written, the only answer for a found file is 416 |
| StreamRoutes.Serve | FileStream/server/stream_routes.py:107-164 | raises only on a malformed header; 416 only for a rejected range; otherwise 206 iff a header was sent, a stream from the chosen client over a range inside the file, with the download headers; a parsed range is answered by `Answer` |
| StreamRoutes.DlStatusAsWritten | FileStream/server/stream_routes.py:47-62 | an exception becomes 403, 404 or 500 |
| StreamRoutes.DlStatus | FileStream/server/stream_routes.py:47-62 | as `DlStatusAsWritten`, except that no client to serve with is 503 |
| StreamRoutes.DownloadNeverSucceedsAsWritten | FileStream/server/stream_routes.py:137-152 | as written, every download ends in 403, 404, 416 or 500 |
| StreamRoutes.NoClientsIs500AsWritten | FileStream/server/stream_routes.py:70-72 | as written, no clients gives 500; with the 503 kept it gives 503 |
| StreamRoutes.DownloadDeliversWhatItAnnounces | FileStream/server/stream_routes.py:132-161 | corrected, the answer to a satisfiable range is 206 iff a header was sent, the body is exactly the requested bytes, and `Content-Length` reads back as their number |
| StreamRoutes.EmptyFileNotSatisfiable | FileStream/server/stream_routes.py:114-117 | an empty file without a header gets 416 |
| StreamRoutes.ByteStreamer.constructor | FileStream/server/stream_routes.py:101 | the streamer keeps its client |
| StreamRoutes.AdapterCache.constructor | FileStream/server/stream_routes.py:64 | the cache starts empty |
| StreamRoutes.AdapterCache.Get | FileStream/server/stream_routes.py:96-102 | a hit returns the stored streamer unchanged; a miss builds and stores a fresh one; nothing is removed |
| StreamRoutes.MediaStreamer | FileStream/server/stream_routes.py:66-164 | the outcome of the corrected streamer; with no client the cache is untouched, else the chosen client's streamer is cached |
| StreamRoutes.WithCacheHeaders | FileStream/server/stream_routes.py:189-193 | a 200 on `/dl/` or `/watch/` gains the two headers, every other header kept; anything else passes unchanged |
| StreamRoutes.CacheHeadersIdempotent | FileStream/server/stream_routes.py:186-195 | the middleware applied twice leaves what it left once |
| StreamRoutes.CacheMiddleware | FileStream/server/stream_routes.py:186-195 | returns the handler's response with its headers as `WithCacheHeaders` says |
| StreamRoutes.InsertDescending | FileStream/server/stream_routes.py:27 | inserting into a non-increasing list keeps it non-increasing and adds exactly the element |
| StreamRoutes.SortDescending | FileStream/server/stream_routes.py:27 | `sorted(..., reverse=True)`: non-increasing and a permutation |
| StreamRoutes.RankNamesDistinct | FileStream/server/stream_routes.py:25 | different ranks get different `botN` names |
| StreamRoutes.RankedLists | FileStream/server/stream_routes.py:24-29 | the dict lists `bot1`, `bot2`, ... with the sorted loads in order |
| StreamRoutes.StatusLoads | FileStream/server/stream_routes.py:24-29 | one `botN` per client, loads from most to least, exactly the loads there are |
| StreamHandlers.StatusOfAppendedRow | FileStream/bot/plugins/stream.py:82 | a status update reaches the user's appended row when it is their only one |
| StreamHandlers.RemoveAppendedRow | FileStream/bot/plugins/stream.py:123 | removing the user's appended only row restores the rows before it |
| StreamHandlers.ReleaseUndoesLease | FileStream/bot/plugins/stream.py:124-125 | a release after a lease restores the counters |
| StreamHandlers.Trail | FileStream/bot/plugins/stream.py:65-106 | on success the row goes processing, generating_link, completed |
| StreamHandlers.RecordRequest | FileStream/bot/plugins/stream.py:59-69 | a failed insert changes nothing; otherwise one row is added and the processor leased when it is not the main bot |
| StreamHandlers.Store | FileStream/bot/plugins/stream.py:85 | the file is stored as `add_file` promises |
| StreamHandlers.Mark | FileStream/bot/plugins/stream.py:82 | a status update rewrites only the user's appended row |
| StreamHandlers.Process | FileStream/bot/plugins/stream.py:81-106 | the statuses follow `Trail`; a file is stored iff the storing step completes |
| StreamHandlers.Attempt | FileStream/bot/plugins/stream.py:59-106 | the whole `try` block: one row added, the lease taken, statuses and storing as above |
| StreamHandlers.Finish | FileStream/bot/plugins/stream.py:121-125 | the row is removed and the lease released under the same guard |
| StreamHandlers.PrivateReceive | FileStream/bot/plugins/stream.py:29-125 | refused or busy users change nothing; on every other path the row is gone and the counters restored, except that when recording the request raises, the release still runs without a lease; the main bot's counter is never touched; in multi-bot mode the processor is the least-loaded one when the pool is active, otherwise the main bot |
| StreamHandlers.OneAuthChannel | FileStream/bot/plugins/stream.py:147-148 | only one chat id is the authorised channel |
| StreamHandlers.ChannelReceive | FileStream/bot/plugins/stream.py:141-214 | a banned channel changes nothing; a random processor only for the authorised channel in multi-bot mode; counters restored on every path; the channel recorded iff authorised |
| Revoke.Prefix | FileStream/bot/plugins/revoke.py:40-41 | each callback prefix ends with `_` |
| Revoke.Route | FileStream/bot/plugins/revoke.py:116 | data goes to the handler whose prefix it starts with, or to none |
| Revoke.ParseUserId | FileStream/bot/plugins/revoke.py:119 | the id is `int()` of the text after the last `_` (all of it when there is none) |
| Revoke.CallbackDataRoundTrip | FileStream/bot/plugins/revoke.py:119 | every button routes to its own handler and reads back its user id |
| Revoke.Guard | FileStream/bot/plugins/revoke.py:119-123 | passes iff the parsed id is the clicker's; NotOwner iff it parses to someone else |
| Revoke.GuardOnOwnButton | FileStream/bot/plugins/revoke.py:121-123 | one's own button always passes; anyone else's never does |
| Revoke.Minutes | FileStream/bot/plugins/revoke.py:30 | `int(s / 60)` truncates toward zero |
| Revoke.RevokeRequestCommand | FileStream/bot/plugins/revoke.py:14-45 | a notice iff no request; otherwise a prompt for the user's request whose buttons route to confirm and cancel with the user's id |
| Revoke.RevokeRequestCallback | FileStream/bot/plugins/revoke.py:117-149 | refused unless the guard passes; then a notice iff no request, else the prompt |
| Revoke.ConfirmRevokeCallback | FileStream/bot/plugins/revoke.py:152-176 | refused presses change nothing; the owner's press reports success iff a row existed and deletes one, leaving none under one row per user |
| Revoke.CancelRevokeCallback | FileStream/bot/plugins/revoke.py:179-192 | changes nothing; the request is kept iff the guard passes |
| Revoke.ReportFrom | FileStream/bot/plugins/revoke.py:96-108 | a missing key raises `KeyError`; with every key present, the report carries their values |
| Revoke.BotStatsCommandAsWritten | FileStream/bot/plugins/revoke.py:87-113 | as written, multi-bot mode always raises `KeyError('total_bots')` |
| Revoke.BotStatsCommand | FileStream/bot/plugins/revoke.py:87-113 | corrected, it reports the processor count, the active flag, every load and the request count |
| Viewer.ExpiryOf | FileStream/utils/render_template.py:19 | the stored expiry, or one after now for a record without one |
| Viewer.ViewRetiresNoLaterThanSweep | FileStream/utils/render_template.py:19-21 | a record the sweep would delete is evicted on view; at the exact instant only the page evicts it; a record with no expiry never is |
| Viewer.RemainingFields | FileStream/utils/render_template.py:32-35 | the fields are the floor of the minutes; hours shown iff at least an hour is left, and then minutes below 60 |
| Viewer.FormatRemaining | FileStream/utils/render_template.py:32-38 | the text reads back as the hours and minutes it was made from |
| Viewer.MajorTypeDecidesTemplate | FileStream/utils/render_template.py:40-43 | the player is chosen iff the stripped major type is `video`, whatever the subtype |
| Viewer.PageFor | FileStream/utils/render_template.py:27-43 | the name is the stored name with every `_` replaced by a space, the download path leads back to the record, the remaining time reads back, and the template follows the major type |
| Viewer.RenderPage | FileStream/utils/render_template.py:10-43 | a failed lookup changes nothing; an expired record is deleted and its owner debited once; any other record gets its page and nothing changes |
| Migration.MigratedExpiry | migrate_files.py:25-30 | `(time or now) + 3600` when that is after now, else `now + 60`; always after now |
| Migration.Migrated | migrate_files.py:18-35 | only a record lacking an expiry changes, and then only by gaining one after now |
| Migration.MigratedAll | migrate_files.py:18-36 | every record migrated, no record added or lost |
| Migration.MigratedSurviveSweep | migrate_files.py:25-41 | a sweep at a later clock reading keeps a migrated record iff its new expiry is not before that reading, and keeps a record that already had an expiry iff it has not passed |
| Migration.SweepAtMigrationTimeKeepsMigrated | migrate_files.py:25-41 | a sweep at the migration's own clock reading keeps every record the migration touched |
| Migration.GraceOutlastsQuickSweep | migrate_files.py:29-30 | a record given the minute of grace survives a sweep that starts within that minute |
| Migration.LateSweepRemovesMigrated | migrate_files.py:25-26 | a record whose hour ends one second after the migration's clock reading is gone after a sweep two seconds later |
| Migration.DistinctCount | migrate_files.py:22-36 | a list without repeats has as many members as entries |
| Migration.SetExpiries | migrate_files.py:23-36 | one update per record lacking an expiry, counted; the store becomes `MigratedAll` |
| Migration.MigrateExistingFiles | migrate_files.py:10-42 | `updated_count` is the number of records lacking an expiry; the store ends as the sweep, at the sweep's own later clock reading, of the migrated store |

## Left out

- Telegram I/O is not modelled:
  - message text, keyboards, replies, edits and log messages;
  - `FloodWait` sleeps.
  - A step that can raise is chosen by a `fault` parameter. FloodWait and any other exception end the `try` block in the same state.
- The admission gates are parameters: `admitted` in `PrivateReceive` and `banned` in `ChannelReceive`. They cover `is_user_authorized`, `is_user_banned`, `is_user_joined` and `is_channel_banned`. FileStream/utils/bot_utils.py is not part of this model, so neither are `is_user_exist` and `is_channel_exist`, which register users and channels.
- `get_file_properties`, `get_file_ids`, `gen_link` and `ByteStreamer.yield_file` are not part of this model.
  - The file lookup is a parameter (`lookup`).
  - `RangePlan.Deliver` states which bytes the plan's arguments ask the streamer to emit. It is a reading of those arguments, not of the streamer's code.
- `mimetypes.guess_type` is a function parameter.
- RangePlan.ParseRange: an empty `Range` value goes to aiohttp's `request.http_range`, which refuses any value not of the form `bytes=a-b`. aiohttp is not part of this model, so that refusal is taken as given.
- Text.ParseInt reads ASCII digits only. Python's `int()` also accepts other Unicode decimal digits, which the model refuses.
- `request_status_command` (revoke.py lines 47-84) only reads a row and formats text.
- The rest of `root_route_handler` (uptime, username, version), `health_check` and `home_route` only report constants and clocks.
- `render_page` lines 44-56 are left out: the aiohttp fetch of the size, `humanbytes` and the Jinja rendering. Viewer.PageFor: `fileUrl` is the path below the server's base URL, because `urljoin` with `Server.URL` is configuration.
- Database methods the handlers do not use are left out:
  - `get_user`, `total_users_count`, `get_all_users`, `delete_user`;
  - `total_banned_users_count`, `total_files`, `update_file_ids`;
  - `is_auth_channel_file`, `get_channel_files_count`, `get_expired_files`.
- Storage.Database.GetFilesByUniqueId lists the files in id order. `find` without a sort returns them in the store's natural order, which the model does not fix.
- Storage.Database.AddFile stores the `from_auth_channel`, `auth_channel_id` and `download_enabled` fields of `add_channel_file` as one optional channel id.
- Clock readings are parameters. `migrate_existing_files` reads the clock once (`now`) and `delete_expired_files` reads it again after the updates (`sweepNow`), so Migration.MigrateExistingFiles takes both; nothing orders them.
- Mongo `ObjectId`s are decimal store ids (`EncodeId`/`DecodeId`). `time.time()` floats are whole seconds, so `int(expires_at - current_time)` is exact.
- `random.choice` is any processor (`GetRandomProcessor`).
- The handlers run to completion one at a time. The race between checking for a request and adding one is not modelled.
- MultiBot.MultiBotManager.GetMainBot has no contract beyond returning the field.
- StreamHandlers.PrivateReceive and StreamHandlers.ChannelReceive require the pool's main bot to be the handler's bot, as start-up sets it.
- StreamHandlers.PrivateReceive describes the final rows only when the requesting check left the user without a row. `add_active_request` does not enforce one row per user, so an earlier duplicate row of the user would be the one deleted.
- StreamHandlers.PrivateReceive: when `add_active_request` raises, no lease has been taken, yet the `finally` block still releases. The processor's counter then ends one below where it started (floored at zero). The contract states this as a `Decremented` counter rather than claiming the counters are restored.
- StreamRoutes.MediaStreamer is modelled with the corrections of Findings 1-3. The as-written outcome is `MediaStreamerAsWritten`.
- The `/watch` and `/dl` handlers' `except (AttributeError, ...)` branches, which return None, are not modelled beyond `DlStatusAsWritten`.

## Findings

| source | as written | input that shows it | evidently intended | confidence | as-written member | corrected member |
|---|---|---|---|---|---|---|
| FileStream/server/stream_routes.py:133 | `part_count = ceil(until / C) - floor(offset / C)` | file of 2C bytes, `Range: bytes=0-C` (C = 2097152): the plan fetches one chunk and cuts one byte from it, while its `req_length` is C + 1. Latent: as written, Finding 3 answers 500 before `yield_file` runs; the short body appears once Finding 3 is corrected | `until // C - offset // C + 1`, the number of chunks spanned | high, not executed | RangePlan.ChunkBoundaryRangeShortAsWritten | RangePlan.DeliverIsRequestedSlice |
| FileStream/server/stream_routes.py:117 | `until_bytes > file_size` rejects only past the end | `Range: bytes=5-5` on a 5-byte file passes the check; the clamp makes `until` 4, so the plan's `req_length` is 0. Latent: as written, Finding 3 answers 500 first; a zero-length 206 appears once Finding 3 is corrected | reject also `until_bytes == file_size`: every accepted range lies in the file and sends at least one byte | high, not executed | RangePlan.EmptyPlanAsWrittenIff | RangePlan.AcceptedRangeIsInsideFile |
| FileStream/server/stream_routes.py:137-152 | the headers read `mime_type`, `file_name` and `disposition` before lines 150-152 assign them | any satisfiable range on a found file: `UnboundLocalError`, answered 500 | assign the three names before building the headers | high, not executed | StreamRoutes.DownloadNeverSucceedsAsWritten | StreamRoutes.DownloadDeliversWhatItAnnounces |
| FileStream/bot/plugins/revoke.py:99-103 | `/botstats` reads `stats['total_bots']` and `stats['loads']` | multi-bot mode on: `get_bot_stats` returns `total_processors` and `processor_loads`, so `KeyError` | read the keys `get_bot_stats` returns | high, not executed | Revoke.BotStatsCommandAsWritten | Revoke.BotStatsCommand |
| FileStream/server/stream_routes.py:58-62 | `except Exception` in the `/dl` handler also catches the 503 raised at line 72 | no clients: `work_loads` empty, answered 500 | keep the 503 | medium, not executed | StreamRoutes.NoClientsIs500AsWritten | StreamRoutes.DlStatus |
