/** The `/watch` page: the record is looked up by the id in the link; a record
    whose hour is up is deleted and its owner's link counter debited, and any
    other record is described for the player or the download template with
    the time it has left. */
module Viewer {
  import opened Wrappers
  import opened Text
  import opened Storage

  /** Seconds a record stored before expiries existed is taken to have left. */
  const LegacyGrace := 3600

  datatype Template = PlayTemplate | DownloadTemplate

  /** What the page shows; `fileUrl` is the download path below the
      server's base URL. */
  datatype Page =
    | NotFoundPage
    | ExpiredPage
    | FilePage(template: Template, fileName: string, fileUrl: string, timeRemaining: string)

  /** The expiry the page goes by: the stored one, or an hour from now for a
      record that has none. */
  function ExpiryOf(f: FileRecord, now: int): (e: int)
    ensures f.expiresAt.Some? ==> e == f.expiresAt.value
    ensures f.expiresAt.None? ==> e > now
  {
    f.expiresAt.GetOr(now + LegacyGrace)
  }

  /** The page retires a record once `now` reaches its expiry. */
  predicate ViewExpired(f: FileRecord, now: int)
  {
    now >= ExpiryOf(f, now)
  }

  /** A record the background sweep would delete is retired by the page too;
      at the instant of expiry only the page retires it. */
  lemma ViewRetiresNoLaterThanSweep(f: FileRecord, now: int)
    ensures Expired(f, now) ==> ViewExpired(f, now)
    ensures f.expiresAt == Some(now) ==> ViewExpired(f, now) && !Expired(f, now)
    ensures f.expiresAt.None? ==> !ViewExpired(f, now)
  {
  }

  /** The remaining time as shown: whole hours when there is at least one,
      and minutes. */
  datatype Shown = Shown(hours: Option<int>, minutes: int)

  function TotalMinutes(s: Shown): int
  {
    match s.hours
    case None => s.minutes
    case Some(h) => h * 60 + s.minutes
  }

  /** The fields for `r` seconds, by floor division as Python's `//` does. */
  function RemainingFields(r: int): (s: Shown)
    ensures TotalMinutes(s) * 60 <= r < TotalMinutes(s) * 60 + 60
    ensures s.hours.Some? <==> r >= 3600
    ensures s.hours.Some? ==> s.hours.value >= 1 && 0 <= s.minutes < 60
    ensures r >= 0 ==> 0 <= s.minutes < 60
  {
    var m := r / 60;
    var h := m / 60;
    if h > 0 then Shown(Some(h), m % 60) else Shown(None, m)
  }

  lemma IntToStringChars(i: int)
    ensures forall k :: 0 <= k < |IntToString(i)| ==> IsDigit(IntToString(i)[k]) || IntToString(i)[k] == '-'
  {
    if i < 0 {
      var d := NatToString(-i);
      assert IntToString(i) == "-" + d;
      forall k | 1 <= k < |IntToString(i)|
        ensures IsDigit(IntToString(i)[k])
      {
        assert IntToString(i)[k] == d[k - 1];
      }
    }
  }

  /** A minutes-only text reads back as its minutes. */
  lemma ReadMinutesText(m: int)
    ensures ReadRemaining(IntToString(m) + "m") == Some(Shown(None, m))
  {
    var ms := IntToString(m);
    IntToStringChars(m);
    assert 'h' !in ms;
    var t := ms + "m";
    assert t[..|t| - 1] == ms;
    SplitWithoutSeparator(ms, 'h');
    ParseIntOfIntToString(m);
  }

  /** An hours-and-minutes text reads back as both fields. */
  lemma ReadHoursText(h: int, m: int)
    ensures ReadRemaining(IntToString(h) + "h " + IntToString(m) + "m") == Some(Shown(Some(h), m))
  {
    var hs := IntToString(h);
    var ms := IntToString(m);
    var t := hs + "h " + ms + "m";
    HoursTextFields(h, m);
    ParseIntOfIntToString(h);
    ParseIntOfIntToString(m);
    assert (" " + ms)[1..] == ms;
    ReadRemainingOfFields(t, hs, " " + ms, h, m);
  }

  /** The hours text splits at its `h` into the hours and the rest. */
  lemma HoursTextFields(h: int, m: int)
    ensures var t := IntToString(h) + "h " + IntToString(m) + "m";
      |t| >= 1 && t[|t| - 1] == 'm' && Split(t[..|t| - 1], 'h') == [IntToString(h), " " + IntToString(m)]
  {
    var hs := IntToString(h);
    var ms := IntToString(m);
    IntToStringChars(h);
    IntToStringChars(m);
    assert 'h' !in hs;
    var tail := " " + ms;
    assert 'h' !in tail;
    var t := hs + "h " + ms + "m";
    assert t[..|t| - 1] == hs + ['h'] + tail;
    SplitAround(hs, tail, 'h');
    SplitWithoutSeparator(hs, 'h');
    SplitWithoutSeparator(tail, 'h');
  }

  lemma ReadRemainingOfFields(t: string, hs: string, tail: string, h: int, m: int)
    requires |t| >= 1 && t[|t| - 1] == 'm' && Split(t[..|t| - 1], 'h') == [hs, tail]
    requires |tail| >= 1 && tail[0] == ' '
    requires ParseInt(hs) == Some(h) && ParseInt(tail[1..]) == Some(m)
    ensures ReadRemaining(t) == Some(Shown(Some(h), m))
  {
  }

  /** The remaining-time text, `"{h}h {m}m"` or `"{m}m"`; reading it back
      gives the fields it was made from. */
  function FormatRemaining(r: int): (t: string)
    ensures ReadRemaining(t) == Some(RemainingFields(r))
  {
    var s := RemainingFields(r);
    match s.hours
    case None =>
      ReadMinutesText(s.minutes);
      IntToString(s.minutes) + "m"
    case Some(h) =>
      ReadHoursText(h, s.minutes);
      IntToString(h) + "h " + IntToString(s.minutes) + "m"
  }

  /** Reads a remaining-time text back into its fields. */
  function ReadRemaining(t: string): Option<Shown>
  {
    if |t| == 0 || t[|t| - 1] != 'm' then None
    else
      var parts := Split(t[..|t| - 1], 'h');
      if |parts| == 1 then
        match ParseInt(parts[0])
        case Some(m) => Some(Shown(None, m))
        case None => None
      else if |parts| == 2 && |parts[1]| >= 1 && parts[1][0] == ' ' then
        match (ParseInt(parts[0]), ParseInt(parts[1][1..]))
        case (Some(h), Some(m)) => Some(Shown(Some(h), m))
        case _ => None
      else None
  }

  /** The player template for video, the download template otherwise,
      judged on the stripped text before the first `/` of the MIME type. */
  function TemplateFor(mimeType: string): Template
  {
    if Strip(Split(mimeType, '/')[0]) == "video" then PlayTemplate else DownloadTemplate
  }

  /** For a MIME type `major/sub`, the player is chosen exactly when the
      stripped major type is `video`, whatever the subtype. */
  lemma MajorTypeDecidesTemplate(major: string, sub: string)
    requires '/' !in major
    ensures TemplateFor(major + "/" + sub) == PlayTemplate <==> Strip(major) == "video"
  {
    assert major + "/" + sub == major + ['/'] + sub;
    SplitAround(major, sub, '/');
    SplitWithoutSeparator(major, '/');
  }

  /** The page for a live record: spaces for underscores in the name, a
      download path that leads back to the record, and the time left. */
  function PageFor(f: FileRecord, id: FileId, now: int): (p: Page)
    ensures p.FilePage?
    ensures p.fileName == ReplaceChar(f.info.fileName, '_', ' ') && '_' !in p.fileName
    ensures |p.fileUrl| >= 3 && p.fileUrl[..3] == "dl/" && DecodeId(p.fileUrl[3..]) == Some(id)
    ensures ReadRemaining(p.timeRemaining) == Some(RemainingFields(ExpiryOf(f, now) - now))
    ensures p.template == PlayTemplate <==> Strip(Split(f.info.mimeType, '/')[0]) == "video"
  {
    var url := "dl/" + EncodeId(id);
    assert url[3..] == EncodeId(id);
    DecodeEncodeId(id);
    FilePage(TemplateFor(f.info.mimeType), ReplaceChar(f.info.fileName, '_', ' '), url, FormatRemaining(ExpiryOf(f, now) - now))
  }

  /** `render_page(db_id)`. A failed lookup gives the not-found page and
      changes nothing; an expired record is deleted, its owner debited one
      link, and the expired page given; any other record gets its page. */
  method RenderPage(db: Database, dbId: string, now: int) returns (page: Page)
    requires db.Valid()
    modifies db
    ensures db.Valid()
    ensures db.banned == old(db.banned) && db.nextId == old(db.nextId) && db.requests == old(db.requests)
    ensures old(db.GetFile(dbId)).Err? ==>
      page == NotFoundPage && db.files == old(db.files) && db.users == old(db.users)
    ensures old(db.GetFile(dbId)).Ok? && ViewExpired(old(db.GetFile(dbId)).value, now) ==>
      && page == ExpiredPage
      && db.files == old(db.files) - {DecodeId(dbId).value}
      && db.users == AdjustLinks(old(db.users), old(db.GetFile(dbId)).value.info.ownerId, -1)
    ensures old(db.GetFile(dbId)).Ok? && !ViewExpired(old(db.GetFile(dbId)).value, now) ==>
      && page == PageFor(old(db.GetFile(dbId)).value, DecodeId(dbId).value, now)
      && db.files == old(db.files) && db.users == old(db.users)
  {
    var found := db.GetFile(dbId);
    if found.Err? {
      return NotFoundPage;
    }
    var f := found.value;
    var id := DecodeId(dbId).value;
    if ViewExpired(f, now) {
      db.DeleteFile(id);
      db.CountLinks(f.info.ownerId, "-");
      return ExpiredPage;
    }
    page := PageFor(f, id, now);
  }
}
