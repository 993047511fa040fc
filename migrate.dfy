/** The one-off migration that gives every file record stored before expiries
    existed an expiry of its own, then runs the expired-file sweep. */
module Migration {
  import opened Wrappers
  import opened Storage

  /** Seconds of grace a record already past its hour is given. */
  const Grace := 60

  predicate LacksExpiry(f: FileRecord)
  {
    f.expiresAt.None?
  }

  /** An hour after the record's own time (or after `now` when it has none),
      moved to a minute from now when that hour is already over. */
  function MigratedExpiry(time: Option<int>, now: int): (e: int)
    ensures e > now
    ensures time.GetOr(now) + FileTtl > now ==> e == time.GetOr(now) + FileTtl
    ensures time.GetOr(now) + FileTtl <= now ==> e == now + Grace
  {
    var e := time.GetOr(now) + FileTtl;
    if e <= now then now + Grace else e
  }

  /** The record after migration: given an expiry if it had none. */
  function Migrated(f: FileRecord, now: int): (g: FileRecord)
    ensures g.info == f.info && g.time == f.time && g.authChannel == f.authChannel
    ensures g.expiresAt.Some?
    ensures LacksExpiry(f) ==> g.expiresAt.value > now
    ensures !LacksExpiry(f) ==> g == f
  {
    if LacksExpiry(f) then f.(expiresAt := Some(MigratedExpiry(f.time, now))) else f
  }

  /** Every record of the store after migration. */
  function MigratedAll(files: map<FileId, FileRecord>, now: int): (r: map<FileId, FileRecord>)
    ensures r.Keys == files.Keys
    ensures forall k :: k in r ==> r[k] == Migrated(files[k], now)
  {
    map k | k in files :: Migrated(files[k], now)
  }

  /** A sweep at `sweepNow` keeps a migrated record exactly when its new
      expiry is not before `sweepNow`; a record that already had an expiry
      is kept exactly when that expiry has not passed. */
  lemma MigratedSurviveSweep(files: map<FileId, FileRecord>, now: int, sweepNow: int)
    ensures forall k :: k in files && LacksExpiry(files[k]) ==>
      (k in Unexpired(MigratedAll(files, now), sweepNow) <==> MigratedExpiry(files[k].time, now) >= sweepNow)
    ensures forall k :: k in files && !LacksExpiry(files[k]) ==>
      (k in Unexpired(MigratedAll(files, now), sweepNow) <==> !Expired(files[k], sweepNow))
  {
  }

  /** A sweep that reads the same clock as the migration keeps every record
      the migration touched. */
  lemma SweepAtMigrationTimeKeepsMigrated(files: map<FileId, FileRecord>, now: int)
    ensures forall k :: k in files && LacksExpiry(files[k]) ==> k in Unexpired(MigratedAll(files, now), now)
  {
  }

  /** A record given the minute of grace survives a sweep that starts within
      that minute. */
  lemma GraceOutlastsQuickSweep(files: map<FileId, FileRecord>, now: int, sweepNow: int)
    requires sweepNow <= now + Grace
    ensures forall k :: k in files && LacksExpiry(files[k]) && files[k].time.GetOr(now) + FileTtl <= now ==>
      k in Unexpired(MigratedAll(files, now), sweepNow)
  {
  }

  /** A record whose hour ends one second after the migration's clock read is
      removed by a sweep that reads the clock two seconds later. */
  lemma LateSweepRemovesMigrated(info: FileInfo, now: int)
    ensures var files := map[0 := FileRecord(info, Some(now - FileTtl + 1), None, None)];
      0 !in Unexpired(MigratedAll(files, now), now + 2)
  {
  }

  ghost function Members(s: seq<FileId>): set<FileId>
  {
    set k | k in s
  }

  /** A list without repeats has as many members as it has entries: the
      loop's count is the number of records it visits. */
  lemma {:induction false} DistinctCount(s: seq<FileId>)
    requires forall i, j :: 0 <= i < j < |s| ==> s[i] != s[j]
    ensures |Members(s)| == |s|
  {
    if |s| == 0 {
      assert Members(s) == {};
    } else {
      DistinctCount(s[1..]);
      assert Members(s) == {s[0]} + Members(s[1..]);
      assert s[0] !in Members(s[1..]);
    }
  }

  /** The loop of `migrate_existing_files`: one `update_one` per record in
      `pending`, which holds each record lacking an expiry exactly once. */
  method SetExpiries(db: Database, pending: seq<FileId>, now: int) returns (updated: nat)
    requires db.Valid()
    requires forall i, j :: 0 <= i < j < |pending| ==> pending[i] != pending[j]
    requires forall k :: k in pending <==> k in db.files && LacksExpiry(db.files[k])
    modifies db
    ensures db.Valid()
    ensures updated == |pending|
    ensures db.files == MigratedAll(old(db.files), now)
    ensures db.users == old(db.users) && db.banned == old(db.banned)
    ensures db.nextId == old(db.nextId) && db.requests == old(db.requests)
  {
    ghost var start := db.files;
    updated := 0;
    var i := 0;
    while i < |pending|
      invariant 0 <= i <= |pending| && updated == i
      invariant db.Valid()
      invariant db.files.Keys == start.Keys
      invariant forall k :: k in start ==> db.files[k] == if k in pending[..i] then Migrated(start[k], now) else start[k]
      invariant db.users == old(db.users) && db.banned == old(db.banned)
      invariant db.nextId == old(db.nextId) && db.requests == old(db.requests)
    {
      var id := pending[i];
      assert id !in pending[..i];
      db.SetExpiry(id, MigratedExpiry(db.files[id].time, now));
      assert pending[..i + 1] == pending[..i] + [id];
      updated := updated + 1;
      i := i + 1;
    }
    assert pending[..i] == pending;
  }

  /** `migrate_existing_files`: sets an expiry on each record lacking one,
      counts them, and then sweeps the expired records. The migration reads
      the clock once, as `now`; the sweep reads it again afterwards, as
      `sweepNow`. */
  method MigrateExistingFiles(db: Database, now: int, sweepNow: int) returns (updated: nat, deleted: nat)
    requires db.Valid()
    modifies db
    ensures db.Valid()
    ensures updated == |set k | k in old(db.files) && LacksExpiry(old(db.files)[k])|
    ensures db.files == Unexpired(MigratedAll(old(db.files), now), sweepNow)
    ensures db.users == DebitExpired(old(db.users), MigratedAll(old(db.files), now), sweepNow, old(db.nextId))
    ensures deleted == CountExpired(MigratedAll(old(db.files), now), sweepNow, old(db.nextId))
    ensures db.banned == old(db.banned) && db.nextId == old(db.nextId) && db.requests == old(db.requests)
  {
    var pending := IdsDescending(db.files, LacksExpiry, db.nextId);
    DistinctCount(pending);
    assert Members(pending) == set k | k in db.files && LacksExpiry(db.files[k]);
    updated := SetExpiries(db, pending, now);
    deleted := db.DeleteExpiredFiles(sweepNow);
  }
}
