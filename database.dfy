/** The document store the bot keeps: users with their link counters, the
    ban list, file records with their expiry, and the active-request rows
    that keep a user to one request at a time. Each collection is held in
    memory; `now` is the time in whole seconds. */
module Storage {
  import opened Wrappers
  import opened Text

  /** Seconds a file record lives. */
  const FileTtl := 3600
  /** Seconds an active request keeps its user busy. */
  const RequestTtl := 300

  type UserId = int

  /** Store-assigned file ids, issued in increasing order. */
  type FileId = nat

  datatype User = User(id: UserId, joinDate: int, links: int)

  datatype Ban = Ban(id: UserId, banDate: int)

  /** The fields of a file the messaging layer extracts from a message. */
  datatype FileInfo = FileInfo(ownerId: UserId, uniqueId: string, fileName: string, mimeType: string, fileSize: nat)

  /** A stored file: `time` and `expiresAt` are missing on records written
      before expiry existed; `authChannel` is the channel of a file posted in
      the authorised channel (which also marks it downloadable). */
  datatype FileRecord = FileRecord(info: FileInfo, time: Option<int>, expiresAt: Option<int>, authChannel: Option<int>)

  /** The name and size shown for a request in progress. */
  datatype FilePreview = FilePreview(fileName: string, fileSize: int)

  datatype Request = Request(
    userId: UserId, startTime: int, requestType: string, status: string,
    fileInfo: Option<FilePreview>, updatedTime: Option<int>)

  datatype DbError = FileNotFound | NegativeSkip

  function UserKey(u: User): UserId { u.id }
  function BanKey(b: Ban): UserId { b.id }
  function RequestKey(r: Request): UserId { r.userId }

  /** The position `find_one({"id": id})` (or `delete_one`, `update_one`)
      settles on: the first document with that key. */
  function FirstWith<T>(s: seq<T>, key: T -> UserId, id: UserId): (r: Option<nat>)
    ensures r.Some? ==> r.value < |s| && key(s[r.value]) == id && forall j :: 0 <= j < r.value ==> key(s[j]) != id
    ensures r.None? ==> forall j :: 0 <= j < |s| ==> key(s[j]) != id
    decreases |s|
  {
    if s == [] then None
    else if key(s[0]) == id then Some(0)
    else
      match FirstWith(s[1..], key, id)
      case None => None
      case Some(k) => Some(k + 1)
  }

  /** `delete_one({key: id})`. */
  function RemoveFirstWith<T>(s: seq<T>, key: T -> UserId, id: UserId): (r: seq<T>)
    ensures FirstWith(s, key, id).None? ==> r == s
    ensures FirstWith(s, key, id).Some? ==>
      var k := FirstWith(s, key, id).value; r == s[..k] + s[k + 1..]
  {
    match FirstWith(s, key, id)
    case None => s
    case Some(k) => s[..k] + s[k + 1..]
  }

  /** Number of documents with key `id`. */
  function CountWith<T>(s: seq<T>, key: T -> UserId, id: UserId): (n: nat)
    ensures n == 0 <==> FirstWith(s, key, id).None?
    decreases |s|
  {
    if s == [] then 0 else (if key(s[0]) == id then 1 else 0) + CountWith(s[1..], key, id)
  }

  /** `delete_one` removes exactly one document with the key when there is one. */
  lemma {:induction false} RemoveFirstWithCount<T>(s: seq<T>, key: T -> UserId, id: UserId)
    ensures CountWith(RemoveFirstWith(s, key, id), key, id)
         == if CountWith(s, key, id) == 0 then 0 else CountWith(s, key, id) - 1
    decreases |s|
  {
    if s != [] {
      if key(s[0]) == id {
        assert FirstWith(s, key, id) == Some(0);
        assert RemoveFirstWith(s, key, id) == s[1..];
      } else {
        RemoveFirstWithCount(s[1..], key, id);
        RemoveFirstWithPast(s, key, id);
        var r := RemoveFirstWith(s[1..], key, id);
        assert ([s[0]] + r)[1..] == r;
      }
    }
  }

  /** Past a document with another key, `delete_one` works on the rest. */
  lemma RemoveFirstWithPast<T>(s: seq<T>, key: T -> UserId, id: UserId)
    requires s != [] && key(s[0]) != id
    ensures RemoveFirstWith(s, key, id) == [s[0]] + RemoveFirstWith(s[1..], key, id)
  {
    var t := s[1..];
    var rest := FirstWith(t, key, id);
    if rest.Some? {
      var k := rest.value;
      assert FirstWith(s, key, id) == Some(k + 1);
      assert RemoveFirstWith(s, key, id) == s[..k + 1] + s[k + 2..];
      assert RemoveFirstWith(t, key, id) == t[..k] + t[k + 1..];
      assert s[..k + 1] == [s[0]] + t[..k];
      assert s[k + 2..] == t[k + 1..];
    } else {
      assert FirstWith(s, key, id).None?;
      assert s == [s[0]] + t;
    }
  }

  /** Renders a file id the way links carry it. */
  function EncodeId(id: FileId): string
  {
    NatToString(id)
  }

  /** `ObjectId(raw)`: `None` stands for `InvalidId`. */
  function DecodeId(raw: string): (r: Option<FileId>)
    ensures r.Some? ==> EncodeId(r.value) == raw
  {
    match ParseInt(raw)
    case Some(n) => if n >= 0 && NatToString(n) == raw then Some(n) else None
    case None => None
  }

  lemma DecodeEncodeId(id: FileId)
    ensures DecodeId(EncodeId(id)) == Some(id)
  {
    ParseIntOfIntToString(id);
  }

  /** `new_user`: a user document with no links yet. */
  function NewUser(id: UserId, now: int): (u: User)
    ensures u.id == id && u.links == 0 && u.joinDate == now
  {
    User(id, now, 0)
  }

  /** The `Links` counter `update_one({"id": id}, ...)` acts on. */
  function LinksOf(users: seq<User>, id: UserId): Option<int>
  {
    match FirstWith(users, UserKey, id)
    case None => None
    case Some(k) => Some(users[k].links)
  }

  /** `update_one({"id": id}, {"$inc": {"Links": delta}})`: no user, no change. */
  function AdjustLinks(users: seq<User>, id: UserId, delta: int): (r: seq<User>)
    ensures |r| == |users| && forall j :: 0 <= j < |users| ==> r[j].id == users[j].id
    ensures forall x :: FirstWith(r, UserKey, x) == FirstWith(users, UserKey, x)
    ensures LinksOf(users, id).None? ==> r == users
    ensures LinksOf(users, id).Some? ==> LinksOf(r, id) == Some(LinksOf(users, id).value + delta)
    ensures forall x :: x != id ==> LinksOf(r, x) == LinksOf(users, x)
  {
    match FirstWith(users, UserKey, id)
    case None => users
    case Some(k) =>
      var r := users[k := users[k].(links := users[k].links + delta)];
      assert forall x :: FirstWith(r, UserKey, x) == FirstWith(users, UserKey, x) by {
        forall x ensures FirstWith(r, UserKey, x) == FirstWith(users, UserKey, x) {
          SameKeysSameFirst(r, users, UserKey, x);
        }
      }
      r
  }

  /** Documents with the same keys in the same order are found at the same place. */
  lemma {:induction false} SameKeysSameFirst<T>(a: seq<T>, b: seq<T>, key: T -> UserId, x: UserId)
    requires |a| == |b| && forall j :: 0 <= j < |a| ==> key(a[j]) == key(b[j])
    ensures FirstWith(a, key, x) == FirstWith(b, key, x)
    decreases |a|
  {
    if a != [] {
      SameKeysSameFirst(a[1..], b[1..], key, x);
    }
  }

  /** The change `count_links` makes for an operation string. */
  function LinksDelta(operation: string): (d: int)
    ensures operation == "+" <==> d == 1
    ensures operation == "-" <==> d == -1
    ensures operation != "+" && operation != "-" <==> d == 0
  {
    if operation == "-" then -1 else if operation == "+" then 1 else 0
  }

  predicate Expired(f: FileRecord, now: int)
  {
    f.expiresAt.Some? && f.expiresAt.value < now
  }

  /** The owners' counters after one `count_links(owner, "-")` per expired
      file with id below `n`, in id order. */
  function DebitExpired(users: seq<User>, files: map<FileId, FileRecord>, now: int, n: nat): (r: seq<User>)
    ensures |r| == |users| && forall j :: 0 <= j < |users| ==> r[j].id == users[j].id
    ensures forall x :: FirstWith(r, UserKey, x) == FirstWith(users, UserKey, x)
  {
    if n == 0 then users
    else
      var u := DebitExpired(users, files, now, n - 1);
      if n - 1 in files && Expired(files[n - 1], now) then AdjustLinks(u, files[n - 1].info.ownerId, -1) else u
  }

  /** The expired files with id below `n` owned by `owner`. */
  ghost function ExpiredOwned(files: map<FileId, FileRecord>, now: int, owner: UserId, n: nat): set<FileId>
  {
    set k | k in files && k < n && Expired(files[k], now) && files[k].info.ownerId == owner
  }

  lemma ExpiredOwnedStep(files: map<FileId, FileRecord>, now: int, owner: UserId, n: nat)
    requires n > 0
    ensures |ExpiredOwned(files, now, owner, n)|
         == |ExpiredOwned(files, now, owner, n - 1)|
            + if n - 1 in files && Expired(files[n - 1], now) && files[n - 1].info.ownerId == owner then 1 else 0
  {
    var before := ExpiredOwned(files, now, owner, n - 1);
    var after := ExpiredOwned(files, now, owner, n);
    if n - 1 in files && Expired(files[n - 1], now) && files[n - 1].info.ownerId == owner {
      assert after == before + {n - 1};
    } else {
      assert after == before;
    }
  }

  /** Each owner's counter goes down once per expired file of theirs. */
  lemma {:induction false} DebitExpiredPerOwner(users: seq<User>, files: map<FileId, FileRecord>, now: int, n: nat, owner: UserId)
    requires LinksOf(users, owner).Some?
    ensures LinksOf(DebitExpired(users, files, now, n), owner)
         == Some(LinksOf(users, owner).value - |ExpiredOwned(files, now, owner, n)|)
  {
    if n > 0 {
      DebitExpiredPerOwner(users, files, now, n - 1, owner);
      ExpiredOwnedStep(files, now, owner, n);
      DebitExpiredStep(users, files, now, n, owner);
    }
  }

  /** One more file: the owner loses a link exactly when it is an expired
      file of theirs. */
  lemma DebitExpiredStep(users: seq<User>, files: map<FileId, FileRecord>, now: int, n: nat, owner: UserId)
    requires n > 0 && LinksOf(DebitExpired(users, files, now, n - 1), owner).Some?
    ensures LinksOf(DebitExpired(users, files, now, n), owner)
         == Some(LinksOf(DebitExpired(users, files, now, n - 1), owner).value
                 - if n - 1 in files && Expired(files[n - 1], now) && files[n - 1].info.ownerId == owner then 1 else 0)
  {
    var u := DebitExpired(users, files, now, n - 1);
    if n - 1 in files && Expired(files[n - 1], now) {
      var o := files[n - 1].info.ownerId;
      assert DebitExpired(users, files, now, n) == AdjustLinks(u, o, -1);
      if o != owner {
        assert LinksOf(AdjustLinks(u, o, -1), owner) == LinksOf(u, owner);
      }
    } else {
      assert DebitExpired(users, files, now, n) == u;
    }
  }

  /** One more file id: its owner is debited and it is counted exactly
      when it has expired. */
  lemma ExpiredStep(users: seq<User>, files: map<FileId, FileRecord>, now: int, i: nat)
    ensures var hit := i in files && Expired(files[i], now);
      && DebitExpired(users, files, now, i + 1)
         == (if hit then AdjustLinks(DebitExpired(users, files, now, i), files[i].info.ownerId, -1) else DebitExpired(users, files, now, i))
      && CountExpired(files, now, i + 1) == CountExpired(files, now, i) + (if hit then 1 else 0)
  {
  }

  /** The number of files with id below `n` that have expired. */
  function CountExpired(files: map<FileId, FileRecord>, now: int, n: nat): (c: nat)
    ensures c == |set k | k in files && k < n && Expired(files[k], now)|
  {
    if n == 0 then
      assert (set k | k in files && k < 0 && Expired(files[k], now)) == {};
      0
    else
      var before := set k | k in files && k < n - 1 && Expired(files[k], now);
      var after := set k | k in files && k < n && Expired(files[k], now);
      assert after == if n - 1 in files && Expired(files[n - 1], now) then before + {n - 1} else before;
      CountExpired(files, now, n - 1) + (if n - 1 in files && Expired(files[n - 1], now) then 1 else 0)
  }

  /** `delete_many({"expires_at": {"$lt": now}})`: the files that remain. A
      record without an expiry never matches. */
  function Unexpired(files: map<FileId, FileRecord>, now: int): (r: map<FileId, FileRecord>)
    ensures forall k :: k in r <==> k in files && !Expired(files[k], now)
    ensures forall k :: k in r ==> r[k] == files[k]
  {
    map k | k in files && !Expired(files[k], now) :: files[k]
  }

  /** Dropping the expired files removes as many as `CountExpired` counts. */
  lemma RemovedAreExpired(files: map<FileId, FileRecord>, now: int, n: nat)
    requires forall k :: k in files ==> k < n
    ensures |files.Keys - Unexpired(files, now).Keys| == CountExpired(files, now, n)
  {
    assert files.Keys - Unexpired(files, now).Keys == set k | k in files && k < n && Expired(files[k], now);
  }

  /** The first stored file of `owner` with the dedup key `uniqueId` among
      ids `from` up to `to`. */
  function FindUnique(files: map<FileId, FileRecord>, owner: UserId, uniqueId: string, from: nat, to: nat): (r: Option<FileId>)
    ensures r.Some? ==>
      && from <= r.value < to && r.value in files
      && files[r.value].info.ownerId == owner && files[r.value].info.uniqueId == uniqueId
    ensures r.None? ==>
      forall k :: from <= k < to && k in files ==>
        (files[k].info.ownerId != owner || files[k].info.uniqueId != uniqueId)
    decreases if to > from then to - from else 0
  {
    if from >= to then None
    else if from in files && files[from].info.ownerId == owner && files[from].info.uniqueId == uniqueId then Some(from)
    else FindUnique(files, owner, uniqueId, from + 1, to)
  }

  /** The ids of `files` below `n` that satisfy `keep`, largest first. */
  function IdsDescending(files: map<FileId, FileRecord>, keep: FileRecord -> bool, n: nat): (r: seq<FileId>)
    ensures forall i, j :: 0 <= i < j < |r| ==> r[i] > r[j]
    ensures forall k :: k in r <==> k < n && k in files && keep(files[k])
  {
    if n == 0 then []
    else
      var rest := IdsDescending(files, keep, n - 1);
      assert forall i :: 0 <= i < |rest| ==> rest[i] in rest;
      if n - 1 in files && keep(files[n - 1]) then [n - 1] + rest else rest
  }

  /** Python `abs`, for Mongo's reading of a negative limit. */
  function Abs(x: int): nat
  {
    if x < 0 then -x else x
  }

  /** How many of `total` sorted entries `skip(first - 1)` and
      `limit(last - first + 1)` return: what is left after the skip, cut to
      the limit's absolute value, where a zero limit means no limit. */
  function PageLength(total: nat, first: int, last: int): nat
  {
    var rest := if first - 1 <= total then total - (first - 1) else 0;
    var n := Abs(last - first + 1);
    if n == 0 || n >= rest then rest else n
  }

  /** The window `skip(first - 1)`, `limit(last - first + 1)` selects from
      an already sorted sequence: a zero limit means no limit. */
  function Window(ids: seq<FileId>, first: int, last: int): (r: seq<FileId>)
    requires first >= 1
    ensures |r| <= |ids| && |r| == PageLength(|ids|, first, last)
    ensures forall i :: 0 <= i < |r| ==> first - 1 + i < |ids| && r[i] == ids[first - 1 + i]
    ensures Abs(last - first + 1) != 0 ==> |r| <= Abs(last - first + 1)
    ensures Abs(last - first + 1) == 0 ==> |r| == if first - 1 <= |ids| then |ids| - (first - 1) else 0
  {
    var skipped := if first - 1 <= |ids| then ids[first - 1..] else [];
    var n := Abs(last - first + 1);
    if n == 0 || n >= |skipped| then skipped else skipped[..n]
  }

  /** A request row is live for `RequestTtl` seconds after it starts. */
  predicate Live(r: Request, now: int)
  {
    now - r.startTime < RequestTtl
  }

  /** `is_user_requesting`, on the rows: the answer and the rows after it. A
      stale first row of the user is deleted on the way. */
  function CheckRequesting(rs: seq<Request>, id: UserId, now: int): (r: (bool, seq<Request>))
    ensures FirstWith(rs, RequestKey, id).None? ==> r == (false, rs)
    ensures FirstWith(rs, RequestKey, id).Some? ==>
      var row := rs[FirstWith(rs, RequestKey, id).value];
      && (r.0 <==> Live(row, now))
      && (r.0 ==> r.1 == rs)
      && (!r.0 ==> r.1 == RemoveFirstWith(rs, RequestKey, id))
  {
    match FirstWith(rs, RequestKey, id)
    case None => (false, rs)
    case Some(k) =>
      if now - rs[k].startTime < RequestTtl then (true, rs)
      else (false, RemoveFirstWith(rs, RequestKey, id))
  }

  /** At most one row per user: what the handlers aim for, though
      `add_active_request` does not check it. */
  ghost predicate OneRowPerUser(rs: seq<Request>)
  {
    forall i, j :: 0 <= i < j < |rs| ==> rs[i].userId != rs[j].userId
  }

  /** With one row per user, `is_user_requesting` answers whether the user
      holds a live row, and afterwards no stale row of theirs is left. */
  lemma RequestingIffLiveRow(rs: seq<Request>, id: UserId, now: int)
    requires OneRowPerUser(rs)
    ensures CheckRequesting(rs, id, now).0 <==> exists i :: 0 <= i < |rs| && rs[i].userId == id && Live(rs[i], now)
    ensures forall x :: x in CheckRequesting(rs, id, now).1 && x.userId == id ==> Live(x, now)
  {
    var k := FirstWith(rs, RequestKey, id);
    if k.Some? {
      assert forall i :: 0 <= i < |rs| && rs[i].userId == id ==> i == k.value;
      if !Live(rs[k.value], now) {
        var after := CheckRequesting(rs, id, now).1;
        assert after == rs[..k.value] + rs[k.value + 1..];
        forall x | x in after ensures x.userId != id {
          var i :| 0 <= i < |after| && after[i] == x;
          if i < k.value { assert x == rs[i]; } else { assert x == rs[i + 1]; }
        }
      }
    }
  }

  /** Without one row per user the answer can be wrong: a stale row ahead of
      a live one hides it. */
  lemma StaleRowHidesLiveRow()
    ensures var stale := Request(7, 0, "file_upload", "processing", None, None);
      var live := Request(7, 400, "file_upload", "processing", None, None);
      && Live(live, 500) && !CheckRequesting([stale, live], 7, 500).0
  {
    var stale := Request(7, 0, "file_upload", "processing", None, None);
    var live := Request(7, 400, "file_upload", "processing", None, None);
    assert FirstWith([stale, live], RequestKey, 7) == Some(0);
  }

  /** Deleting a user's only row leaves none of theirs, and one row per
      user still holds. */
  lemma RemoveOnlyRow(rs: seq<Request>, id: UserId)
    requires OneRowPerUser(rs)
    ensures var r := RemoveFirstWith(rs, RequestKey, id);
      FirstWith(r, RequestKey, id).None? && OneRowPerUser(r)
  {
    var r := RemoveFirstWith(rs, RequestKey, id);
    var k := FirstWith(rs, RequestKey, id);
    if k.Some? {
      assert forall j :: 0 <= j < |r| ==> r[j] == if j < k.value then rs[j] else rs[j + 1];
      assert forall j :: 0 <= j < |rs| && j != k.value ==> rs[j].userId != id;
    }
  }

  /** A user whose row turned out stale, or who had none, is left with none. */
  lemma NotRequestingLeavesNoRow(rs: seq<Request>, id: UserId, now: int)
    requires OneRowPerUser(rs) && !CheckRequesting(rs, id, now).0
    ensures var r := CheckRequesting(rs, id, now).1;
      FirstWith(r, RequestKey, id).None? && OneRowPerUser(r)
  {
    RemoveOnlyRow(rs, id);
  }

  /** Appending a row for a user without one keeps one row per user. */
  lemma AppendKeepsOneRow(rs: seq<Request>, row: Request)
    requires OneRowPerUser(rs) && FirstWith(rs, RequestKey, row.userId).None?
    ensures OneRowPerUser(rs + [row])
  {
    assert forall j :: 0 <= j < |rs| ==> rs[j].userId != row.userId;
  }

  /** Two rows of one user: deleting one still leaves the user a row. */
  lemma RevokeLeavesDuplicate()
    ensures var row := Request(7, 0, "file_upload", "processing", None, None);
      FirstWith(RemoveFirstWith([row, row], RequestKey, 7), RequestKey, 7) == Some(0)
  {
    var row := Request(7, 0, "file_upload", "processing", None, None);
    assert FirstWith([row, row], RequestKey, 7) == Some(0);
    assert RemoveFirstWith([row, row], RequestKey, 7) == [row];
  }

  /** `update_one({"user_id": id}, {"$set": {...}})` on the request rows. */
  function SetStatus(rs: seq<Request>, id: UserId, status: string, now: int): (r: seq<Request>)
    ensures |r| == |rs| && forall j :: 0 <= j < |rs| ==> r[j].userId == rs[j].userId
    ensures FirstWith(rs, RequestKey, id).None? ==> r == rs
    ensures FirstWith(rs, RequestKey, id).Some? ==>
      var k := FirstWith(rs, RequestKey, id).value;
      && r[k].status == status && r[k].updatedTime == Some(now)
      && r[k] == rs[k].(status := status, updatedTime := Some(now))
      && forall j :: 0 <= j < |rs| && j != k ==> r[j] == rs[j]
  {
    match FirstWith(rs, RequestKey, id)
    case None => rs
    case Some(k) => rs[k := rs[k].(status := status, updatedTime := Some(now))]
  }

  /** `a` is `b` with some entries left out, the rest kept in order. */
  predicate IsSubsequence<T(==)>(a: seq<T>, b: seq<T>)
    decreases |b|
  {
    if a == [] then true
    else if b == [] then false
    else if a[0] == b[0] then IsSubsequence(a[1..], b[1..])
    else IsSubsequence(a, b[1..])
  }

  /** `delete_many({"start_time": {"$lt": now - 300}})`: the rows that
      remain, every copy of a recent row kept and in the same order. */
  function SweepRequests(rs: seq<Request>, now: int): (r: seq<Request>)
    ensures |r| <= |rs| && IsSubsequence(r, rs)
    ensures forall x :: x in r <==> x in rs && x.startTime >= now - RequestTtl
    ensures forall x {:trigger multiset(r)[x]} :: multiset(r)[x] == if x.startTime >= now - RequestTtl then multiset(rs)[x] else 0
  {
    if rs == [] then []
    else
      var rest := SweepRequests(rs[1..], now);
      assert rs == [rs[0]] + rs[1..];
      assert forall x :: x in rs <==> x == rs[0] || x in rs[1..];
      if rs[0].startTime < now - RequestTtl then
        SubsequenceOfTail(rest, rs);
        rest
      else
        var r := [rs[0]] + rest;
        assert r[0] == rs[0] && r[1..] == rest;
        r
  }

  lemma {:induction false} SubsequenceOfTail<T>(a: seq<T>, b: seq<T>)
    requires b != [] && IsSubsequence(a, b[1..])
    ensures IsSubsequence(a, b)
    decreases |a| + |b|
  {
    if a != [] && a[0] == b[0] {
      SubsequenceDropFirst(a, b[1..]);
    }
  }

  /** Leaving out the first entry of a subsequence keeps it one. */
  lemma {:induction false} SubsequenceDropFirst<T>(a: seq<T>, b: seq<T>)
    requires a != [] && IsSubsequence(a, b)
    ensures IsSubsequence(a[1..], b)
    decreases |a| + |b|
  {
    if a[0] != b[0] {
      SubsequenceDropFirst(a, b[1..]);
      SubsequenceOfTail(a[1..], b);
    } else {
      SubsequenceOfTail(a[1..], b);
    }
  }

  /** The positions of the rows the sweep matches: started before `now - RequestTtl`. */
  ghost function StalePositions(rs: seq<Request>, now: int): set<int>
  {
    set j | 0 <= j < |rs| && rs[j].startTime < now - RequestTtl
  }

  lemma {:induction false} SweepAppend(a: seq<Request>, x: Request, now: int)
    ensures SweepRequests(a + [x], now)
         == SweepRequests(a, now) + if x.startTime < now - RequestTtl then [] else [x]
    decreases |a|
  {
    if a == [] {
      assert a + [x] == [x];
      assert [x][1..] == [];
    } else {
      var head := if a[0].startTime < now - RequestTtl then [] else [a[0]];
      assert a == [a[0]] + a[1..] && a + [x] == [a[0]] + (a[1..] + [x]);
      SweepCons(a[0], a[1..], now);
      SweepCons(a[0], a[1..] + [x], now);
      SweepAppend(a[1..], x, now);
      var tail := if x.startTime < now - RequestTtl then [] else [x];
      assert head + (SweepRequests(a[1..], now) + tail) == (head + SweepRequests(a[1..], now)) + tail;
    }
  }

  /** The sweep keeps a leading row exactly when it is fresh. */
  lemma SweepCons(r: Request, rs: seq<Request>, now: int)
    ensures SweepRequests([r] + rs, now)
         == (if r.startTime < now - RequestTtl then [] else [r]) + SweepRequests(rs, now)
  {
    assert ([r] + rs)[0] == r && ([r] + rs)[1..] == rs;
  }

  /** The sweep removes one row per stale position. */
  lemma {:induction false} SweepCountsStale(rs: seq<Request>, now: int)
    ensures |rs| - |SweepRequests(rs, now)| == |StalePositions(rs, now)|
    decreases |rs|
  {
    if rs == [] {
      assert StalePositions(rs, now) == {};
    } else {
      var a := rs[..|rs| - 1];
      var x := rs[|rs| - 1];
      assert rs == a + [x];
      SweepAppend(a, x, now);
      SweepCountsStale(a, now);
      StalePositionsAppend(a, x, now);
    }
  }

  lemma StalePositionsAppend(a: seq<Request>, x: Request, now: int)
    ensures StalePositions(a + [x], now)
         == StalePositions(a, now) + if x.startTime < now - RequestTtl then {|a|} else {}
  {
    var rs := a + [x];
    assert forall j :: 0 <= j < |a| ==> rs[j] == a[j];
    assert rs[|a|] == x;
  }

  /** A row exactly `RequestTtl` seconds old no longer blocks its user, yet
      the sweep keeps it: liveness and the sweep disagree at the boundary. */
  lemma SweepKeepsRowAtTtl(r: Request, now: int)
    requires now - r.startTime == RequestTtl
    ensures !Live(r, now) && SweepRequests([r], now) == [r]
  {
  }

  /** Files as stored by the document store. */
  class Database {
    var users: seq<User>
    var banned: seq<Ban>
    var files: map<FileId, FileRecord>
    var nextId: FileId
    var requests: seq<Request>

    /** Ids below `nextId`, and at most one file per owner and dedup key. */
    ghost predicate Valid()
      reads this`files, this`nextId
    {
      && (forall k :: k in files ==> k < nextId)
      && (forall a, b :: a in files && b in files && a != b ==>
            files[a].info.ownerId != files[b].info.ownerId || files[a].info.uniqueId != files[b].info.uniqueId)
    }

    constructor ()
      ensures Valid()
      ensures users == [] && banned == [] && files == map[] && nextId == 0 && requests == []
    {
      users := [];
      banned := [];
      files := map[];
      nextId := 0;
      requests := [];
    }

    /** `add_user`: appends a fresh user document (callers check first). */
    method AddUser(id: UserId, now: int)
      modifies this
      ensures users == old(users) + [NewUser(id, now)]
      ensures banned == old(banned) && files == old(files) && nextId == old(nextId) && requests == old(requests)
    {
      users := users + [NewUser(id, now)];
    }

    /** `is_user_banned`. */
    function IsUserBanned(id: UserId): (b: bool)
      reads this`banned
      ensures b <==> exists j :: 0 <= j < |banned| && banned[j].id == id
    {
      FirstWith(banned, BanKey, id).Some?
    }

    /** `ban_user`: appends a ban document; the user is banned afterwards. */
    method BanUser(id: UserId, now: int)
      modifies this
      ensures banned == old(banned) + [Ban(id, now)]
      ensures IsUserBanned(id)
      ensures users == old(users) && files == old(files) && nextId == old(nextId) && requests == old(requests)
    {
      banned := banned + [Ban(id, now)];
      assert banned[|banned| - 1].id == id;
    }

    /** `unban_user`: deletes one ban document of the user. */
    method UnbanUser(id: UserId)
      modifies this
      ensures banned == RemoveFirstWith(old(banned), BanKey, id)
      ensures CountWith(banned, BanKey, id) == if CountWith(old(banned), BanKey, id) == 0 then 0 else CountWith(old(banned), BanKey, id) - 1
      ensures users == old(users) && files == old(files) && nextId == old(nextId) && requests == old(requests)
    {
      RemoveFirstWithCount(banned, BanKey, id);
      banned := RemoveFirstWith(banned, BanKey, id);
    }

    /** `count_links`. */
    method CountLinks(id: UserId, operation: string)
      modifies this
      ensures users == AdjustLinks(old(users), id, LinksDelta(operation))
      ensures banned == old(banned) && files == old(files) && nextId == old(nextId) && requests == old(requests)
    {
      if operation == "-" {
        users := AdjustLinks(users, id, -1);
      } else if operation == "+" {
        users := AdjustLinks(users, id, 1);
      }
    }

    /** `get_file_by_fileuniqueid(id, unique_id)`: the stored file of that
        owner with that dedup key, if any. */
    function GetFileByUniqueId(owner: UserId, uniqueId: string): (r: Option<FileId>)
      reads this`files, this`nextId
      requires Valid()
      ensures r.Some? ==> r.value in files && files[r.value].info.ownerId == owner && files[r.value].info.uniqueId == uniqueId
      ensures r.None? ==> forall k :: k in files ==> files[k].info.ownerId != owner || files[k].info.uniqueId != uniqueId
    {
      FindUnique(files, owner, uniqueId, 0, nextId)
    }

    /** `get_file_by_fileuniqueid(..., many=True)`: every stored file with
        that dedup key, whoever owns it. `find` has no sort, so the order
        is the store's; the model lists them newest first. */
    function GetFilesByUniqueId(uniqueId: string): (r: seq<FileId>)
      reads this`files, this`nextId
      requires Valid()
      ensures forall k :: k in r <==> k in files && files[k].info.uniqueId == uniqueId
    {
      IdsDescending(files, (f: FileRecord) => f.info.uniqueId == uniqueId, nextId)
    }

    /** `add_file` and `add_channel_file`: a file already stored for the same
        owner and dedup key keeps its id and nothing changes; otherwise a new
        record expiring in `FileTtl` seconds is stored and the owner's link
        counter goes up once. */
    method AddFile(info: FileInfo, now: int, channel: Option<int>) returns (id: FileId)
      requires Valid()
      modifies this
      ensures Valid()
      ensures banned == old(banned) && requests == old(requests)
      ensures old(GetFileByUniqueId(info.ownerId, info.uniqueId)).Some? ==>
        && id == old(GetFileByUniqueId(info.ownerId, info.uniqueId)).value
        && users == old(users) && files == old(files) && nextId == old(nextId)
      ensures old(GetFileByUniqueId(info.ownerId, info.uniqueId)).None? ==>
        && id == old(nextId) && nextId == old(nextId) + 1
        && files == old(files)[id := FileRecord(info, Some(now), Some(now + FileTtl), channel)]
        && users == AdjustLinks(old(users), info.ownerId, 1)
    {
      var existing := GetFileByUniqueId(info.ownerId, info.uniqueId);
      if existing.Some? {
        return existing.value;
      }
      CountLinks(info.ownerId, "+");
      id := nextId;
      files := files[id := FileRecord(info, Some(now), Some(now + FileTtl), channel)];
      nextId := nextId + 1;
    }

    /** `get_file`: a malformed id or a missing record is `FileNotFound`. */
    function GetFile(raw: string): (r: Result<FileRecord, DbError>)
      reads this`files
      ensures r.Err? ==> r.error == FileNotFound
      ensures r.Ok? <==> DecodeId(raw).Some? && DecodeId(raw).value in files
      ensures r.Ok? ==> r.value == files[DecodeId(raw).value]
    {
      match DecodeId(raw)
      case None => Err(FileNotFound)
      case Some(id) => if id in files then Ok(files[id]) else Err(FileNotFound)
    }

    /** The link of a stored file leads back to it. */
    lemma GetFileOfEncodedId(id: FileId)
      requires id in files
      ensures GetFile(EncodeId(id)) == Ok(files[id])
    {
      DecodeEncodeId(id);
    }

    /** `find_files(owner, (first, last))`: the owner's files newest first,
        from position `first` (1-based) on, at most `last - first + 1` of
        them, and how many the owner has. */
    function FindFiles(owner: UserId, first: int, last: int): (r: Result<(seq<FileId>, nat), DbError>)
      reads this`files, this`nextId
      requires Valid()
      ensures r.Err? <==> first < 1
      ensures r.Ok? ==>
        var all := IdsDescending(files, (f: FileRecord) => f.info.ownerId == owner, nextId);
        && r.value.1 == |all|
        && (forall k :: k in all <==> k in files && files[k].info.ownerId == owner)
        && |r.value.0| <= |all| && |r.value.0| == PageLength(|all|, first, last)
        && forall i :: 0 <= i < |r.value.0| ==> first - 1 + i < |all| && r.value.0[i] == all[first - 1 + i]
    {
      if first - 1 < 0 then Err(NegativeSkip)
      else
        var all := IdsDescending(files, (f: FileRecord) => f.info.ownerId == owner, nextId);
        Ok((Window(all, first, last), |all|))
    }

    /** `delete_expired_files`: debits each expired file's owner once, then
        deletes exactly the expired files and reports how many went. */
    method DeleteExpiredFiles(now: int) returns (deleted: nat)
      requires Valid()
      modifies this
      ensures Valid()
      ensures files == Unexpired(old(files), now)
      ensures users == DebitExpired(old(users), old(files), now, old(nextId))
      ensures deleted == |old(files).Keys - files.Keys|
      ensures deleted == CountExpired(old(files), now, old(nextId))
      ensures banned == old(banned) && nextId == old(nextId) && requests == old(requests)
    {
      var debited := DebitExpiredOwners(now);
      var kept := Unexpired(files, now);
      RemovedAreExpired(files, now, nextId);
      deleted := |files.Keys - kept.Keys|;
      files := kept;
    }

    /** The loop of `delete_expired_files`: one `count_links(owner, "-")`
        per expired file, in id order. */
    method DebitExpiredOwners(now: int) returns (debited: nat)
      modifies this
      ensures users == DebitExpired(old(users), files, now, nextId)
      ensures debited == CountExpired(files, now, nextId)
      ensures files == old(files) && nextId == old(nextId)
      ensures banned == old(banned) && requests == old(requests)
    {
      var i := 0;
      debited := 0;
      while i < nextId
        invariant 0 <= i <= nextId
        invariant users == DebitExpired(old(users), files, now, i)
        invariant debited == CountExpired(files, now, i)
        invariant files == old(files) && nextId == old(nextId)
        invariant banned == old(banned) && requests == old(requests)
      {
        var hit := DebitIfExpired(i, now);
        ExpiredStep(old(users), files, now, i);
        if hit {
          debited := debited + 1;
        }
        i := i + 1;
      }
    }

    /** One pass of that loop: the owner of file `i` loses a link when the
        file has expired. */
    method DebitIfExpired(i: FileId, now: int) returns (hit: bool)
      modifies this
      ensures hit == (i in files && Expired(files[i], now))
      ensures users == if hit then AdjustLinks(old(users), files[i].info.ownerId, -1) else old(users)
      ensures files == old(files) && nextId == old(nextId)
      ensures banned == old(banned) && requests == old(requests)
    {
      hit := i in files && Expired(files[i], now);
      if hit {
        CountLinks(files[i].info.ownerId, "-");
      }
    }

    /** `is_user_requesting`. */
    method IsUserRequesting(id: UserId, now: int) returns (b: bool)
      modifies this
      ensures (b, requests) == CheckRequesting(old(requests), id, now)
      ensures users == old(users) && banned == old(banned) && files == old(files) && nextId == old(nextId)
    {
      var k := FirstWith(requests, RequestKey, id);
      if k.Some? {
        if now - requests[k.value].startTime < RequestTtl {
          return true;
        } else {
          requests := RemoveFirstWith(requests, RequestKey, id);
        }
      }
      b := false;
    }

    /** `add_active_request`: appends a "processing" row, with the preview
        only when one is given. */
    method AddActiveRequest(id: UserId, now: int, requestType: string, preview: Option<FilePreview>)
      modifies this
      ensures requests == old(requests) + [Request(id, now, requestType, "processing", preview, None)]
      ensures users == old(users) && banned == old(banned) && files == old(files) && nextId == old(nextId)
    {
      requests := requests + [Request(id, now, requestType, "processing", preview, None)];
    }

    /** `update_request_status`. */
    method UpdateRequestStatus(id: UserId, status: string, now: int)
      modifies this
      ensures requests == SetStatus(old(requests), id, status, now)
      ensures users == old(users) && banned == old(banned) && files == old(files) && nextId == old(nextId)
    {
      requests := SetStatus(requests, id, status, now);
    }

    /** `get_user_active_request`: the user's first row, live or not. */
    function GetUserActiveRequest(id: UserId): (r: Option<Request>)
      reads this`requests
      ensures r.Some? <==> exists j :: 0 <= j < |requests| && requests[j].userId == id
      ensures r.Some? ==> r.value in requests && r.value.userId == id
      ensures r.Some? ==> exists k ::
        && 0 <= k < |requests| && requests[k] == r.value
        && forall j :: 0 <= j < k ==> requests[j].userId != id
    {
      match FirstWith(requests, RequestKey, id)
      case None => None
      case Some(k) => Some(requests[k])
    }

    /** `revoke_user_request`: true exactly when the user had a row, and
        then one row of theirs is deleted. */
    method RevokeUserRequest(id: UserId) returns (b: bool)
      modifies this
      ensures b <==> old(GetUserActiveRequest(id)).Some?
      ensures requests == RemoveFirstWith(old(requests), RequestKey, id)
      ensures CountWith(requests, RequestKey, id) == if b then CountWith(old(requests), RequestKey, id) - 1 else 0
      ensures users == old(users) && banned == old(banned) && files == old(files) && nextId == old(nextId)
    {
      RemoveFirstWithCount(requests, RequestKey, id);
      b := FirstWith(requests, RequestKey, id).Some?;
      requests := RemoveFirstWith(requests, RequestKey, id);
    }

    /** `remove_active_request`. */
    method RemoveActiveRequest(id: UserId)
      modifies this
      ensures requests == RemoveFirstWith(old(requests), RequestKey, id)
      ensures users == old(users) && banned == old(banned) && files == old(files) && nextId == old(nextId)
    {
      requests := RemoveFirstWith(requests, RequestKey, id);
    }

    /** `cleanup_old_requests`: deletes the rows older than `RequestTtl`
        and reports how many went. */
    method CleanupOldRequests(now: int) returns (deleted: nat)
      modifies this
      ensures requests == SweepRequests(old(requests), now)
      ensures deleted == |old(requests)| - |requests| == |StalePositions(old(requests), now)|
      ensures users == old(users) && banned == old(banned) && files == old(files) && nextId == old(nextId)
    {
      SweepCountsStale(requests, now);
      var before := |requests|;
      requests := SweepRequests(requests, now);
      deleted := before - |requests|;
    }

    /** `delete_one_file`: used when a viewed file has expired. */
    method DeleteFile(id: FileId)
      requires Valid()
      modifies this
      ensures Valid()
      ensures files == old(files) - {id}
      ensures users == old(users) && banned == old(banned) && nextId == old(nextId) && requests == old(requests)
    {
      files := files - {id};
    }

    /** Sets the expiry of a stored file (the migration's `update_one`). */
    method SetExpiry(id: FileId, expiresAt: int)
      requires Valid() && id in files
      modifies this
      ensures Valid()
      ensures files == old(files)[id := old(files)[id].(expiresAt := Some(expiresAt))]
      ensures users == old(users) && banned == old(banned) && nextId == old(nextId) && requests == old(requests)
    {
      files := files[id := files[id].(expiresAt := Some(expiresAt))];
    }
  }
}
