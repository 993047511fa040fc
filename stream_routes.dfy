/** The HTTP side of the stream server: which client serves a download,
    the memoised streamer per client, the `/dl/` response with its status
    and headers, the caching middleware and the loads listed by `/status`. */
module StreamRoutes {
  import opened Wrappers
  import opened Text
  import opened Dicts
  import opened Clients
  import opened RangePlan

  /** The exceptions `media_streamer` lets escape. */
  datatype Exc =
    | ServiceUnavailable   // `web.HTTPServiceUnavailable`: no client to serve with
    | NoClient             // `next(iter(...))` on an empty dict, re-raised as `RuntimeError`
    | RangeValueError      // `ValueError` from reading the Range header
    | UnboundName          // `UnboundLocalError`: a header value read before assignment
    | InvalidHash          // raised by the file lookup
    | FileNotFound         // raised by the file lookup
    | LookupFailure        // any other failure of the file lookup

  /** What the file lookup reports: size, stored mime type ("" when none)
      and the name `get_name` derives. */
  datatype FileProps = FileProps(fileSize: nat, mimeType: string, fileName: string)

  datatype Body = Text(text: string) | Stream(clientIndex: int, plan: Plan)

  datatype Response = Response(status: int, headers: map<string, string>, body: Body)

  /** A response returned, or an exception raised. */
  datatype Outcome = Answered(response: Response) | Raised(exc: Exc)

  /** The client index and client chosen for a download. */
  function SelectClient(workLoads: Dict<int, int>, multiClients: Dict<int, Client>): (r: Result<(int, Client), Exc>)
    requires workLoads.Valid() && multiClients.Valid()
    ensures workLoads.keys == [] <==> r == Err(ServiceUnavailable)
    ensures workLoads.keys != [] && multiClients.keys == [] ==> r == Err(NoClient)
    ensures r.Ok? ==> r.value.0 in multiClients.entries && r.value.1 == multiClients.entries[r.value.0]
    ensures r.Ok? ==>
      || IsFirstLeastKey(workLoads, r.value.0)
      || (r.value.0 == multiClients.keys[0]
          && forall k :: IsFirstLeastKey(workLoads, k) ==> k !in multiClients.entries)
    ensures forall k :: IsFirstLeastKey(workLoads, k) && k in multiClients.entries ==>
      r == Ok((k, multiClients.entries[k]))
    ensures
      (&& workLoads.keys != [] && multiClients.keys != []
       && forall k :: IsFirstLeastKey(workLoads, k) ==> k !in multiClients.entries)
      ==> r == Ok((multiClients.keys[0], multiClients.entries[multiClients.keys[0]]))
  {
    if workLoads.keys == [] then Err(ServiceUnavailable)
    else
      var index := MinKey(workLoads);
      if index in multiClients.entries then Ok((index, multiClients.entries[index]))
      else if multiClients.keys == [] then Err(NoClient)
      else
        assert multiClients.keys[0] in multiClients.entries;
        Ok((multiClients.keys[0], multiClients.entries[multiClients.keys[0]]))
  }

  /** The 416 answer, naming the file size in `Content-Range`. */
  function NotSatisfiable(fileSize: nat): (r: Response)
    ensures r.status == 416 && r.headers.Keys == {"Content-Range"}
    ensures r.headers["Content-Range"] == "bytes */" + NatToString(fileSize)
  {
    Response(416, map["Content-Range" := "bytes */" + NatToString(fileSize)], Text("416: Range not satisfiable"))
  }

  /** The `Content-Type`: the stored mime type, else the one `guess` (the
      role of `mimetypes.guess_type`) gives for the name, else a default. */
  function ContentType(props: FileProps, guess: string -> Option<string>): (t: string)
    ensures t != ""
    ensures props.mimeType != "" ==> t == props.mimeType
  {
    if props.mimeType != "" then props.mimeType
    else
      match guess(props.fileName)
      case Some(g) => if g != "" then g else "application/octet-stream"
      case None => "application/octet-stream"
  }

  /** `bytes a-b/size`. */
  function ContentRange(p: Plan, fileSize: nat): string
  {
    "bytes " + IntToString(p.fromBytes) + "-" + IntToString(p.untilBytes) + "/" + NatToString(fileSize)
  }

  /** The headers of a successful download. */
  function DownloadHeaders(dbId: string, props: FileProps, guess: string -> Option<string>, p: Plan): map<string, string>
  {
    map[
      "Content-Type" := ContentType(props, guess),
      "Content-Range" := ContentRange(p, props.fileSize),
      "Content-Length" := IntToString(p.reqLength),
      "Content-Disposition" := "attachment; filename=\"" + props.fileName + "\"",
      "Accept-Ranges" := "bytes",
      "Cache-Control" := "public, max-age=86400",
      "ETag" := "\"" + dbId + "-" + NatToString(props.fileSize) + "\"",
      "Connection" := "keep-alive"]
  }

  /** `media_streamer` as written, for a found file: a bad header raises, a
      rejected range gets 416, and every other range reaches the response
      headers, which read `mime_type` before it is bound. */
  function ServeAsWritten(header: Option<string>, props: FileProps): (o: Outcome)
    ensures o.Answered? ==> o.response == NotSatisfiable(props.fileSize)
  {
    match ParseRange(header, props.fileSize)
    case Err(_) => Raised(RangeValueError)
    case Ok((f, u)) =>
      if RejectedAsWritten(f, u, props.fileSize) then Answered(NotSatisfiable(props.fileSize))
      else Raised(UnboundName)
  }

  /** `media_streamer` with the names bound before the headers are built,
      the corrected range check and the full chunk count: a malformed
      header raises, a parsed range is answered by `Answer`. */
  function Serve(clientIndex: int, header: Option<string>, dbId: string, props: FileProps, guess: string -> Option<string>): (o: Outcome)
    ensures o.Raised? <==> ParseRange(header, props.fileSize).Err?
    ensures o.Raised? ==> o.exc == RangeValueError
    ensures ParseRange(header, props.fileSize).Ok? ==>
      var (f, u) := ParseRange(header, props.fileSize).value;
      o == Answer(clientIndex, header.Some?, f, u, dbId, props, guess)
  {
    match ParseRange(header, props.fileSize)
    case Err(_) => Raised(RangeValueError)
    case Ok((f, u)) => Answer(clientIndex, header.Some?, f, u, dbId, props, guess)
  }

  /** The corrected answer to the range `(f, u)`; `ranged` tells whether a
      `Range` header was sent. A rejected range gets 416; any other is
      streamed whole from the chosen client, with 206 exactly when a header
      was sent, over a plan that lies inside the file. */
  function Answer(clientIndex: int, ranged: bool, f: int, u: int, dbId: string, props: FileProps, guess: string -> Option<string>): (o: Outcome)
    ensures o.Answered? && o.response.status in {200, 206, 416}
    ensures o.response.status == 416 <==> Rejected(f, u, props.fileSize)
    ensures o.response.status == 416 ==> o.response == NotSatisfiable(props.fileSize)
    ensures o.response.status != 416 ==>
      && (o.response.status == 206 <==> ranged)
      && o.response.body.Stream? && o.response.body.clientIndex == clientIndex
      && var p := o.response.body.plan;
         && p.fromBytes == f && p.untilBytes == u
         && 0 <= p.fromBytes <= p.untilBytes < props.fileSize
         && o.response.headers == DownloadHeaders(dbId, props, guess, p)
  {
    if Rejected(f, u, props.fileSize) then Answered(NotSatisfiable(props.fileSize))
    else
      var p := MakePlan(f, u, props.fileSize, false);
      Answered(Response(if ranged then 206 else 200, DownloadHeaders(dbId, props, guess, p), Stream(clientIndex, p)))
  }

  /** `media_streamer` as written, once a client is chosen: `lookup` is what
      `get_file_properties` returns or raises. */
  function MediaStreamerAsWritten(
    workLoads: Dict<int, int>, multiClients: Dict<int, Client>, header: Option<string>,
    lookup: Result<FileProps, Exc>): Outcome
    requires workLoads.Valid() && multiClients.Valid()
  {
    match SelectClient(workLoads, multiClients)
    case Err(e) => Raised(e)
    case Ok(_) =>
      match lookup
      case Err(e) => Raised(e)
      case Ok(props) => ServeAsWritten(header, props)
  }

  /** `media_streamer` with the corrections of `Serve`. */
  function MediaStreamerOutcome(
    workLoads: Dict<int, int>, multiClients: Dict<int, Client>, header: Option<string>, dbId: string,
    lookup: Result<FileProps, Exc>, guess: string -> Option<string>): Outcome
    requires workLoads.Valid() && multiClients.Valid()
  {
    match SelectClient(workLoads, multiClients)
    case Err(e) => Raised(e)
    case Ok((index, _)) =>
      match lookup
      case Err(e) => Raised(e)
      case Ok(props) => Serve(index, header, dbId, props, guess)
  }

  /** The status the `/dl/` handler answers with as written: the lookup's
      own exceptions become 403 and 404, every other exception, the 503 of
      `media_streamer` included, falls into `except Exception` and becomes 500. */
  function DlStatusAsWritten(o: Outcome): (s: int)
    ensures o.Raised? ==> s in {403, 404, 500}
  {
    match o
    case Answered(r) => r.status
    case Raised(InvalidHash) => 403
    case Raised(FileNotFound) => 404
    case Raised(_) => 500
  }

  /** The status with the 503 kept. */
  function DlStatus(o: Outcome): (s: int)
    ensures o.Raised? ==> s in {403, 404, 500, 503}
    ensures o.Raised? ==> (o.exc == ServiceUnavailable <==> s == 503)
    ensures o.Raised? && o.exc != ServiceUnavailable ==> s == DlStatusAsWritten(o)
  {
    match o
    case Raised(ServiceUnavailable) => 503
    case _ => DlStatusAsWritten(o)
  }

  /** As written no download ever succeeds: every request ends in 403, 404,
      416 or 500. */
  lemma DownloadNeverSucceedsAsWritten(
    workLoads: Dict<int, int>, multiClients: Dict<int, Client>, header: Option<string>,
    lookup: Result<FileProps, Exc>)
    requires workLoads.Valid() && multiClients.Valid()
    ensures DlStatusAsWritten(MediaStreamerAsWritten(workLoads, multiClients, header, lookup)) in {403, 404, 416, 500}
  {
  }

  /** As written, a server with no clients answers 500, not 503. */
  lemma NoClientsIs500AsWritten(multiClients: Dict<int, Client>, header: Option<string>, lookup: Result<FileProps, Exc>)
    requires multiClients.Valid()
    ensures DlStatusAsWritten(MediaStreamerAsWritten(Empty(), multiClients, header, lookup)) == 500
    ensures DlStatus(MediaStreamerOutcome(Empty(), multiClients, header, "", lookup, _ => None)) == 503
  {
  }

  /** A found file and a range inside it: the response is 206 exactly when
      a Range header was sent, the body delivers exactly the requested bytes,
      and `Content-Length` reads back as the number of bytes delivered. */
  lemma DownloadDeliversWhatItAnnounces<T>(
    content: seq<T>, index: int, ranged: bool, f: int, u: int, dbId: string, props: FileProps,
    guess: string -> Option<string>)
    requires |content| == props.fileSize
    requires !Rejected(f, u, props.fileSize)
    ensures var o := Answer(index, ranged, f, u, dbId, props, guess);
      && o.Answered? && (o.response.status == 206 <==> ranged) && o.response.status in {200, 206}
      && Deliver(content, o.response.body.plan) == content[f..u + 1]
      && ParseInt(o.response.headers["Content-Length"]) == Some(|Deliver(content, o.response.body.plan)|)
  {
    var p := MakePlan(f, u, props.fileSize, false);
    DeliverIsRequestedSlice(content, f, u);
    ParseIntOfIntToString(p.reqLength);
  }

  /** An empty file is never served: without a header the range is `0..-1`. */
  lemma EmptyFileNotSatisfiable(index: int, dbId: string, props: FileProps, guess: string -> Option<string>)
    requires props.fileSize == 0
    ensures ServeAsWritten(None, props) == Answered(NotSatisfiable(0))
    ensures Serve(index, None, dbId, props, guess) == Answered(NotSatisfiable(0))
  {
  }

  /** The streamer `utils.ByteStreamer(client)` builds; only its identity
      and its client matter here. */
  class ByteStreamer {
    const client: Client

    constructor (c: Client)
      ensures client == c
    {
      client := c;
    }
  }

  /** `class_cache`: one streamer per client, built on first use. */
  class AdapterCache {
    var streamers: map<Client, ByteStreamer>

    ghost predicate Valid()
      reads this
    {
      forall c :: c in streamers ==> streamers[c].client == c
    }

    constructor ()
      ensures Valid() && streamers == map[]
    {
      streamers := map[];
    }

    /** Lines 96-102: a hit returns the stored streamer and changes nothing;
        a miss builds one, stores it and returns it. Nothing is ever removed. */
    method Get(c: Client) returns (s: ByteStreamer)
      requires Valid()
      modifies this
      ensures Valid() && s.client == c
      ensures c in old(streamers) ==> s == old(streamers)[c] && streamers == old(streamers)
      ensures c !in old(streamers) ==> fresh(s) && streamers == old(streamers)[c := s]
    {
      if c in streamers {
        s := streamers[c];
      } else {
        s := new ByteStreamer(c);
        streamers := streamers[c := s];
      }
    }
  }

  /** `media_streamer` (corrected as in `Serve`): choose a client, fetch or
      build its streamer, look the file up and answer. Without any client it
      fails before the cache is touched. */
  method MediaStreamer(
    cache: AdapterCache, workLoads: Dict<int, int>, multiClients: Dict<int, Client>,
    header: Option<string>, dbId: string, lookup: Result<FileProps, Exc>, guess: string -> Option<string>)
    returns (o: Outcome)
    requires cache.Valid() && workLoads.Valid() && multiClients.Valid()
    modifies cache
    ensures cache.Valid()
    ensures o == MediaStreamerOutcome(workLoads, multiClients, header, dbId, lookup, guess)
    ensures SelectClient(workLoads, multiClients).Err? ==> cache.streamers == old(cache.streamers)
    ensures SelectClient(workLoads, multiClients).Ok? ==>
      var c := SelectClient(workLoads, multiClients).value.1;
      && c in cache.streamers
      && (c in old(cache.streamers) ==> cache.streamers == old(cache.streamers))
      && (c !in old(cache.streamers) ==>
            fresh(cache.streamers[c]) && cache.streamers == old(cache.streamers)[c := cache.streamers[c]])
  {
    var selected := SelectClient(workLoads, multiClients);
    if selected.Err? {
      return Raised(selected.error);
    }
    var (index, client) := selected.value;
    var streamer := cache.Get(client);
    match lookup {
      case Err(e) => o := Raised(e);
      case Ok(props) => o := Serve(index, header, dbId, props, guess);
    }
  }

  /** A response whose headers the middleware may edit in place. */
  class HttpResponse {
    const status: int
    var headers: map<string, string>

    constructor (s: int, h: map<string, string>)
      ensures status == s && headers == h
    {
      status := s;
      headers := h;
    }
  }

  /** The paths whose successful responses may be cached. */
  predicate CacheablePath(path: string)
  {
    StartsWith(path, "/dl/") || StartsWith(path, "/watch/")
  }

  /** The headers after the middleware: a 200 on a cacheable path gains the
      cache and nosniff headers; anything else is left as it was. */
  function WithCacheHeaders(path: string, status: int, headers: map<string, string>): (r: map<string, string>)
    ensures CacheablePath(path) && status == 200 ==>
      && r.Keys == headers.Keys + {"Cache-Control", "X-Content-Type-Options"}
      && r["Cache-Control"] == "public, max-age=86400"
      && r["X-Content-Type-Options"] == "nosniff"
      && forall k :: k in headers && k != "Cache-Control" && k != "X-Content-Type-Options" ==> r[k] == headers[k]
    ensures !(CacheablePath(path) && status == 200) ==> r == headers
  {
    if CacheablePath(path) && status == 200 then
      headers["Cache-Control" := "public, max-age=86400"]["X-Content-Type-Options" := "nosniff"]
    else headers
  }

  /** Running the middleware twice leaves what running it once left. */
  lemma CacheHeadersIdempotent(path: string, status: int, headers: map<string, string>)
    ensures WithCacheHeaders(path, status, WithCacheHeaders(path, status, headers))
         == WithCacheHeaders(path, status, headers)
  {
    if CacheablePath(path) && status == 200 {
      var once := WithCacheHeaders(path, status, headers);
      var twice := WithCacheHeaders(path, status, once);
      assert twice.Keys == once.Keys;
      assert forall k :: k in once ==> twice[k] == once[k];
    }
  }

  /** `cache_middleware`: `response` is what the handler produced. */
  method CacheMiddleware(path: string, response: HttpResponse) returns (r: HttpResponse)
    modifies response
    ensures r == response
    ensures response.headers == WithCacheHeaders(path, response.status, old(response.headers))
  {
    if CacheablePath(path) {
      if response.status == 200 {
        response.headers := response.headers["Cache-Control" := "public, max-age=86400"];
        response.headers := response.headers["X-Content-Type-Options" := "nosniff"];
      }
    }
    r := response;
  }

  predicate NonIncreasing(s: seq<int>)
  {
    forall i, j :: 0 <= i < j < |s| ==> s[i] >= s[j]
  }

  /** Insert `x` before the first element smaller than it. */
  function InsertDescending(x: int, s: seq<int>): (r: seq<int>)
    requires NonIncreasing(s)
    ensures NonIncreasing(r) && multiset(r) == multiset(s) + multiset{x}
    ensures |r| == |s| + 1 && r[0] == if s == [] || x >= s[0] then x else s[0]
  {
    if s == [] then [x]
    else if x >= s[0] then [x] + s
    else
      TailKeepsOrder(s);
      var t := InsertDescending(x, s[1..]);
      PrependKeepsOrder(s[0], t);
      PrependAddsOne(x, s, t);
      [s[0]] + t
  }

  lemma TailKeepsOrder(s: seq<int>)
    requires NonIncreasing(s) && s != []
    ensures NonIncreasing(s[1..]) && (|s| > 1 ==> s[0] >= s[1])
  {
  }

  /** Putting back the head of `s` in front of `t`, which holds the rest of
      `s` and `x`, gives all of `s` and `x`. */
  lemma PrependAddsOne(x: int, s: seq<int>, t: seq<int>)
    requires s != [] && multiset(t) == multiset(s[1..]) + multiset{x}
    ensures multiset([s[0]] + t) == multiset(s) + multiset{x}
  {
    assert s == [s[0]] + s[1..];
  }

  /** A head no smaller than the first element keeps a list in order. */
  lemma PrependKeepsOrder(h: int, t: seq<int>)
    requires NonIncreasing(t) && (t == [] || h >= t[0])
    ensures NonIncreasing([h] + t)
  {
    var r := [h] + t;
    forall i, j | 0 <= i < j < |r| ensures r[i] >= r[j] {
      if i == 0 {
        assert r[j] == t[j - 1] && t[0] >= t[j - 1];
      } else {
        assert r[i] == t[i - 1] && r[j] == t[j - 1];
      }
    }
  }

  /** `sorted(loads, reverse=True)`: largest first. */
  function SortDescending(s: seq<int>): (r: seq<int>)
    ensures NonIncreasing(r) && multiset(r) == multiset(s)
  {
    if s == [] then []
    else
      assert s == [s[0]] + s[1..];
      InsertDescending(s[0], SortDescending(s[1..]))
  }

  /** The name `/status` gives to the client at rank `i` (0-based). */
  function RankName(i: nat): string
  {
    "bot" + NatToString(i + 1)
  }

  /** Different ranks get different names. */
  lemma RankNamesDistinct()
    ensures forall i: nat, j: nat :: RankName(i) == RankName(j) ==> i == j
  {
    forall i: nat, j: nat | RankName(i) == RankName(j) ensures i == j {
      assert NatToString(i + 1) == RankName(i)[3..];
      assert NatToString(j + 1) == RankName(j)[3..];
      IntToStringInjective(i + 1, j + 1);
    }
  }

  /** The dict `bot1: sorted[0], bot2: sorted[1], ...`. */
  function Ranked(sorted: seq<int>): Dict<string, int>
  {
    RankNamesDistinct();
    Dict(seq(|sorted|, i requires 0 <= i < |sorted| => RankName(i)),
         map i | 0 <= i < |sorted| :: RankName(i) := sorted[i])
  }

  lemma RankedLists(sorted: seq<int>)
    ensures Ranked(sorted).Valid()
    ensures |Ranked(sorted).keys| == |sorted|
    ensures forall i :: 0 <= i < |sorted| ==> Ranked(sorted).keys[i] == RankName(i)
    ensures ValuesInOrder(Ranked(sorted)) == sorted
  {
    var r := Ranked(sorted);
    RankNamesDistinct();
    assert forall i :: 0 <= i < |r.keys| ==> r.keys[i] in r.entries;
    assert forall k :: k in r.entries ==> k in r.keys by {
      forall k | k in r.entries ensures k in r.keys {
        var i :| 0 <= i < |sorted| && RankName(i) == k;
        assert r.keys[i] == k;
      }
    }
    assert r.Valid();
    var v := ValuesInOrder(r);
    assert forall i :: 0 <= i < |sorted| ==> v[i] == sorted[i];
  }

  /** The `loads` object of `/status`: `bot1`, `bot2`, ... for the clients
      from most to least loaded, carrying exactly the loads there are. */
  function StatusLoads(workLoads: Dict<int, int>): (r: Dict<string, int>)
    requires workLoads.Valid()
    ensures r.Valid() && |r.keys| == |workLoads.keys|
    ensures forall i :: 0 <= i < |r.keys| ==> r.keys[i] == RankName(i)
    ensures NonIncreasing(ValuesInOrder(r))
    ensures multiset(ValuesInOrder(r)) == multiset(ValuesInOrder(workLoads))
  {
    var sorted := SortDescending(ValuesInOrder(workLoads));
    RankedLists(sorted);
    assert |sorted| == |multiset(sorted)| == |ValuesInOrder(workLoads)|;
    Ranked(sorted)
  }
}
