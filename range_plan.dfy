/** The range handling of `media_streamer`: reading the `Range` header, the
    416 check, and the integer arithmetic that turns a byte range into the
    chunk fetches handed to the streamer, with what those fetches deliver. */
module RangePlan {
  import opened Wrappers
  import opened Text

  /** `chunk_size`: 2 MiB. */
  const ChunkSize: int := 1024 * 1024 * 2

  /** `int(...)` or the tuple unpacking of the split header raised `ValueError`. */
  datatype RangeError = MalformedRange

  /** The byte range `(from_bytes, until_bytes)` a request asks for.
      `header` is the `Range` header, `None` when absent. An absent header
      takes the `request.http_range` branch and covers the whole file; so
      does an empty one, but aiohttp's `http_range` refuses the empty value
      with `ValueError`. */
  function ParseRange(header: Option<string>, fileSize: int): (r: Result<(int, int), RangeError>)
    ensures header == None ==> r == Ok((0, fileSize - 1))
    ensures header == Some("") ==> r == Err(MalformedRange)
    ensures header.Some? && r.Ok? ==> r.value.0 >= 0 && (r.value.1 >= 0 || r.value.1 == fileSize - 1)
  {
    match header
    case None => Ok((0, fileSize - 1))
    case Some(h) =>
      if h == "" then Err(MalformedRange)
      else
        var parts := Split(RemoveAll(h, "bytes="), '-');
        if |parts| != 2 then Err(MalformedRange)
        else
          assert parts[0] in parts && parts[1] in parts;
          match ParseInt(parts[0])
          case None => Err(MalformedRange)
          case Some(fromBytes) =>
            StripKeepsOut(parts[0], '-');
            if parts[1] == "" then Ok((fromBytes, fileSize - 1))
            else
              match ParseInt(parts[1])
              case None => Err(MalformedRange)
              case Some(untilBytes) =>
                StripKeepsOut(parts[1], '-');
                Ok((fromBytes, untilBytes))
  }

  /** The header `bytes=a-b` a client sends, and `bytes=a-` when `b` is absent. */
  function RangeHeader(a: nat, b: Option<nat>): string
  {
    "bytes=" + NatToString(a) + "-" + (if b.Some? then NatToString(b.value) else "")
  }

  lemma NoDigitOutside(s: string, c: char)
    requires AllDigits(s) && !IsDigit(c)
    ensures c !in s
  {
    forall i | 0 <= i < |s| ensures s[i] != c { assert IsDigit(s[i]); }
  }

  /** Two runs of digits joined by a dash split back into the two runs. */
  lemma SplitDigitPair(sa: string, sb: string)
    requires AllDigits(sa) && AllDigits(sb)
    ensures Split(sa + "-" + sb, '-') == [sa, sb]
  {
    assert sa + "-" + sb == sa + ['-'] + sb;
    SplitAround(sa, sb, '-');
    NoDigitOutside(sa, '-');
    NoDigitOutside(sb, '-');
    SplitWithoutSeparator(sa, '-');
    SplitWithoutSeparator(sb, '-');
  }

  /** Removing `bytes=` from a header built by `RangeHeader` leaves `a-b`. */
  lemma RangeHeaderBody(sa: string, sb: string)
    requires AllDigits(sa) && AllDigits(sb)
    ensures RemoveAll("bytes=" + sa + "-" + sb, "bytes=") == sa + "-" + sb
  {
    var t := sa + "-" + sb;
    assert "bytes=" + sa + "-" + sb == "bytes=" + t;
    assert 'b' !in t by {
      NoDigitOutside(sa, 'b');
      NoDigitOutside(sb, 'b');
      forall i | 0 <= i < |t| ensures t[i] != 'b' {
        if i < |sa| { assert t[i] == sa[i]; }
        else if i > |sa| { assert t[i] == sb[i - |sa| - 1]; }
      }
    }
    RemoveAllAfterPrefix("bytes=", t);
  }

  /** `bytes=a-b` is read as `(a, b)`, and `bytes=a-` as `(a, file_size - 1)`. */
  lemma ParseRangeOfRangeHeader(a: nat, b: Option<nat>, fileSize: int)
    ensures ParseRange(Some(RangeHeader(a, b)), fileSize)
         == Ok((a, if b.Some? then b.value else fileSize - 1))
  {
    var sa := NatToString(a);
    var sb := if b.Some? then NatToString(b.value) else "";
    assert RangeHeader(a, b) == "bytes=" + sa + "-" + sb;
    RangeHeaderBody(sa, sb);
    SplitDigitPair(sa, sb);
    ParseIntOfIntToString(a);
    assert IntToString(a) == sa;
    if b.Some? {
      ParseIntOfIntToString(b.value);
      assert IntToString(b.value) == sb;
    }
  }

  /** `int()` reads the bounds past surrounding whitespace, so
      `bytes= 10-5` is the range `(10, 5)` (answered 416), not a malformed
      header. */
  lemma {:induction false} SpacedRangeIsRead(pre: string, a: nat, b: nat, post: string, fileSize: int)
    requires forall k :: 0 <= k < |pre| ==> IsSpace(pre[k])
    requires forall k :: 0 <= k < |post| ==> IsSpace(post[k])
    ensures ParseRange(Some("bytes=" + pre + NatToString(a) + "-" + NatToString(b) + post), fileSize)
         == Ok((a, b))
  {
    var sa := NatToString(a);
    var sb := NatToString(b);
    var left := pre + sa;
    var right := sb + post;
    var h := "bytes=" + pre + sa + "-" + sb + post;
    SpacedRangeFields(pre, sa, sb, post);
    assert IntToString(a) == sa && IntToString(b) == sb;
    ParseIntOfPadded(pre, a, "");
    assert pre + sa + "" == left;
    ParseIntOfPadded("", b, post);
    assert "" + sb == sb;
    ParseRangeOfFields(h, left, right, a, b, fileSize);
  }

  /** How a header that splits into two readable fields is read. */
  lemma ParseRangeOfFields(h: string, left: string, right: string, a: int, b: int, fileSize: int)
    requires h != "" && Split(RemoveAll(h, "bytes="), '-') == [left, right] && right != ""
    requires ParseInt(left) == Some(a) && ParseInt(right) == Some(b)
    ensures ParseRange(Some(h), fileSize) == Ok((a, b))
  {
  }

  lemma SpacedRangeFields(pre: string, sa: string, sb: string, post: string)
    requires forall k :: 0 <= k < |pre| ==> IsSpace(pre[k])
    requires forall k :: 0 <= k < |post| ==> IsSpace(post[k])
    requires AllDigits(sa) && AllDigits(sb) && sb != []
    ensures Split(RemoveAll("bytes=" + pre + sa + "-" + sb + post, "bytes="), '-') == [pre + sa, sb + post]
  {
    assert "bytes=" + pre + sa + "-" + sb + post == "bytes=" + (pre + sa) + "-" + (sb + post);
    SpacesAndDigitsOnly(pre, sa, 'b');
    SpacesAndDigitsOnly(pre, sa, '-');
    SpacesAndDigitsOnly(post, sb, 'b');
    SpacesAndDigitsOnly(post, sb, '-');
    FieldsOfRange(pre + sa, sb + post);
  }

  /** A header `bytes=<left>-<right>` whose fields hold neither `b` nor `-`
      splits into those two fields. */
  lemma FieldsOfRange(left: string, right: string)
    requires 'b' !in left && 'b' !in right && '-' !in left && '-' !in right
    ensures Split(RemoveAll("bytes=" + left + "-" + right, "bytes="), '-') == [left, right]
  {
    var t := left + "-" + right;
    assert "bytes=" + left + "-" + right == "bytes=" + t;
    assert 'b' !in t by {
      assert forall i :: 0 <= i < |t| ==> t[i] in left || t[i] == '-' || t[i] in right;
    }
    RemoveAllAfterPrefix("bytes=", t);
    assert t == left + ['-'] + right;
    SplitAround(left, right, '-');
    SplitWithoutSeparator(left, '-');
    SplitWithoutSeparator(right, '-');
  }

  /** Whitespace and digits hold neither `b` nor `-`. */
  lemma SpacesAndDigitsOnly(w: string, d: string, c: char)
    requires forall k :: 0 <= k < |w| ==> IsSpace(w[k])
    requires AllDigits(d) && (c == 'b' || c == '-')
    ensures c !in w + d && c !in d + w
  {
    assert forall k :: 0 <= k < |w + d| ==> (w + d)[k] in w || (w + d)[k] in d;
    assert forall k :: 0 <= k < |d + w| ==> (d + w)[k] in w || (d + w)[k] in d;
  }

  /** The 416 test of `media_streamer` as written: only a last byte past
      `file_size` counts as out of range, so `until == file_size` passes. */
  predicate RejectedAsWritten(fromBytes: int, untilBytes: int, fileSize: int)
  {
    untilBytes > fileSize || fromBytes < 0 || untilBytes < fromBytes
  }

  /** The corrected 416 test: a range is accepted only when
      `0 <= from <= until < file_size`, so that every accepted range lies in
      the file and sends at least one byte (`EmptyPlanAsWrittenIff` shows the
      as-written test letting `bytes=5-5` through on a 5-byte file, which
      then announces zero bytes). */
  predicate Rejected(fromBytes: int, untilBytes: int, fileSize: int)
  {
    untilBytes >= fileSize || fromBytes < 0 || untilBytes < fromBytes
  }

  /** The values `media_streamer` computes for a satisfiable range: the
      (clamped) last byte and the arguments it passes to `yield_file`. */
  datatype Plan = Plan(
    fromBytes: int, untilBytes: int, offset: int, firstPartCut: int,
    lastPartCut: int, reqLength: int, partCount: int)

  /** `math.ceil(a / b)` for a positive divisor (exact, without floats). */
  function CeilDiv(a: int, b: int): (q: int)
    requires b > 0
    ensures (q - 1) * b < a <= q * b
  {
    -((-a) / b)
  }

  /** Line 133 as written: `math.ceil(until / C) - math.floor(offset / C)`. */
  function PartCountAsWritten(offset: int, untilBytes: int): int
  {
    CeilDiv(untilBytes, ChunkSize) - offset / ChunkSize
  }

  /** The number of chunks from the one holding `offset` to the one holding
      `untilBytes`, both included. */
  function PartCount(offset: int, untilBytes: int): int
  {
    untilBytes / ChunkSize - offset / ChunkSize + 1
  }

  /** Lines 126-133 with a given part count: clamp `until` to the last byte,
      round `from` down to a chunk boundary, and compute the cuts. */
  function MakePlan(fromBytes: int, untilBytes: int, fileSize: int, asWritten: bool): (p: Plan)
    requires fromBytes >= 0
    ensures p.fromBytes == fromBytes
    ensures p.untilBytes == if untilBytes < fileSize - 1 then untilBytes else fileSize - 1
    ensures p.offset % ChunkSize == 0 && p.offset <= fromBytes < p.offset + ChunkSize
    ensures 0 <= p.firstPartCut < ChunkSize && p.offset + p.firstPartCut == fromBytes
    ensures 1 <= p.lastPartCut <= ChunkSize
    ensures p.reqLength == p.untilBytes - fromBytes + 1
  {
    var until := if untilBytes < fileSize - 1 then untilBytes else fileSize - 1;
    var offset := fromBytes - fromBytes % ChunkSize;
    Plan(
      fromBytes, until, offset,
      fromBytes - offset,
      until % ChunkSize + 1,
      until - fromBytes + 1,
      if asWritten then PartCountAsWritten(offset, until) else PartCount(offset, until))
  }

  /** `part_count` as written matches the chunks spanned unless the last
      byte opens a chunk, where it is one short. */
  lemma PartCountAsWrittenVersusSpan(offset: int, untilBytes: int)
    requires untilBytes >= 0
    ensures untilBytes % ChunkSize != 0 ==> PartCountAsWritten(offset, untilBytes) == PartCount(offset, untilBytes)
    ensures untilBytes % ChunkSize == 0 ==> PartCountAsWritten(offset, untilBytes) == PartCount(offset, untilBytes) - 1
  {
    var q := CeilDiv(untilBytes, ChunkSize);
    var d := untilBytes / ChunkSize;
    assert untilBytes == d * ChunkSize + untilBytes % ChunkSize;
  }

  /** Chunk `k` of the file as the backend returns it: `ChunkSize` bytes
      from `k * ChunkSize`, fewer at the end of the file. */
  function Chunk<T>(content: seq<T>, k: nat): (c: seq<T>)
    ensures |c| <= ChunkSize
  {
    Slice(content, k * ChunkSize, (k + 1) * ChunkSize)
  }

  /** `n` whole chunks from chunk `k` on. */
  function Chunks<T>(content: seq<T>, k: nat, n: nat): seq<T>
    decreases n
  {
    if n == 0 then [] else Chunk(content, k) + Chunks(content, k + 1, n - 1)
  }

  /** What the plan's arguments ask the streamer to emit: `partCount`
      chunks from `offset`, the first one cut at `firstPartCut`, the last
      one kept up to `lastPartCut`, both on the same chunk when there is only
      one (the streamer itself is not part of this model). */
  function Deliver<T>(content: seq<T>, p: Plan): seq<T>
    requires p.offset >= 0 && p.firstPartCut >= 0 && p.lastPartCut >= 0
  {
    var first := p.offset / ChunkSize;
    if p.partCount <= 0 then []
    else if p.partCount == 1 then Slice(Chunk(content, first), p.firstPartCut, p.lastPartCut)
    else
      Slice(Chunk(content, first), p.firstPartCut, ChunkSize)
      + Chunks(content, first + 1, p.partCount - 2)
      + Slice(Chunk(content, first + p.partCount - 1), 0, p.lastPartCut)
  }

  /** The whole chunks `k` up to (not including) `m` are the bytes
      between their boundaries. */
  lemma {:induction false} ChunksAreSlice<T>(content: seq<T>, k: nat, m: nat)
    requires k <= m && m * ChunkSize <= |content|
    ensures k * ChunkSize <= m * ChunkSize
    ensures Chunks(content, k, m - k) == content[k * ChunkSize..m * ChunkSize]
    decreases m - k
  {
    if k < m {
      ChunksAreSlice(content, k + 1, m);
      var lo := k * ChunkSize;
      var mid := (k + 1) * ChunkSize;
      assert mid == lo + ChunkSize;
      ChunkSliceWithin(content, k, 0, ChunkSize);
      assert Chunk(content, k) == content[lo..mid];
      assert content[lo..m * ChunkSize] == content[lo..mid] + content[mid..m * ChunkSize];
    }
  }

  /** Bytes `i` to `j` of chunk `k`, when the chunk reaches that far. */
  lemma ChunkSliceWithin<T>(content: seq<T>, k: nat, i: nat, j: nat)
    requires i <= j <= ChunkSize && k * ChunkSize + j <= |content|
    ensures Slice(Chunk(content, k), i, j) == content[k * ChunkSize + i..k * ChunkSize + j]
  {
    var lo := k * ChunkSize;
    assert (k + 1) * ChunkSize == lo + ChunkSize;
    var hi := if lo + ChunkSize < |content| then lo + ChunkSize else |content|;
    var c := Chunk(content, k);
    assert c == content[lo..hi];
    assert lo + j <= hi;
    if i < j {
      assert Slice(c, i, j) == c[i..j];
      SliceOfSlice(content, lo, hi, i, j);
    } else {
      assert Slice(c, i, j) == [];
    }
  }

  /** The plan for an accepted range in terms of the chunk indices of its
      first and last byte. */
  lemma PlanByChunks(fromBytes: int, untilBytes: int, fileSize: int)
    requires !Rejected(fromBytes, untilBytes, fileSize)
    ensures var p := MakePlan(fromBytes, untilBytes, fileSize, false);
      var a := fromBytes / ChunkSize;
      var b := untilBytes / ChunkSize;
      && 0 <= a <= b
      && p.offset == a * ChunkSize && p.offset / ChunkSize == a
      && p.partCount == b - a + 1
      && b * ChunkSize + p.lastPartCut == untilBytes + 1
      && a * ChunkSize + p.firstPartCut == fromBytes
  {
    var a := fromBytes / ChunkSize;
    var b := untilBytes / ChunkSize;
    assert fromBytes == a * ChunkSize + fromBytes % ChunkSize;
    assert untilBytes == b * ChunkSize + untilBytes % ChunkSize;
  }

  lemma DivOfMultiple(a: nat)
    ensures (a * ChunkSize) / ChunkSize == a
  {
  }

  /** Delivery of a plan whose first and last byte lie in chunks `a` and
      `b`, with the cuts inside the file. */
  lemma DeliverByChunks<T>(content: seq<T>, p: Plan, a: nat, b: nat)
    requires p.offset == a * ChunkSize && p.partCount == b - a + 1 && a <= b
    requires 0 <= p.firstPartCut < ChunkSize && 1 <= p.lastPartCut <= ChunkSize
    requires a == b ==> p.firstPartCut < p.lastPartCut
    requires b * ChunkSize + p.lastPartCut <= |content|
    ensures Deliver(content, p)
         == content[a * ChunkSize + p.firstPartCut..b * ChunkSize + p.lastPartCut]
  {
    DivOfMultiple(a);
    if a == b {
      ChunkSliceWithin(content, a, p.firstPartCut, p.lastPartCut);
    } else {
      DeliverSeveralChunks(content, p, a, b);
    }
  }

  lemma MulMonotone(x: nat, y: nat)
    requires x <= y
    ensures x * ChunkSize <= y * ChunkSize
  {
  }

  /** The case of `DeliverByChunks` with two or more chunks: the cut first
      chunk, the whole chunks between, and the cut last chunk. */
  lemma DeliverSeveralChunks<T>(content: seq<T>, p: Plan, a: nat, b: nat)
    requires p.offset == a * ChunkSize && p.offset / ChunkSize == a && p.partCount == b - a + 1 && a < b
    requires 0 <= p.firstPartCut < ChunkSize && 1 <= p.lastPartCut <= ChunkSize
    requires b * ChunkSize + p.lastPartCut <= |content|
    ensures Deliver(content, p)
         == content[a * ChunkSize + p.firstPartCut..b * ChunkSize + p.lastPartCut]
  {
    DeliverInPieces(content, p, a, b);
    PiecesAreSlice(content, a, b, p.firstPartCut, p.lastPartCut);
  }

  lemma DeliverInPieces<T>(content: seq<T>, p: Plan, a: nat, b: nat)
    requires p.offset >= 0 && p.offset / ChunkSize == a && p.partCount == b - a + 1 && a < b
    requires p.firstPartCut >= 0 && p.lastPartCut >= 0
    ensures Deliver(content, p)
         == Slice(Chunk(content, a), p.firstPartCut, ChunkSize)
          + Chunks(content, a + 1, b - a - 1)
          + Slice(Chunk(content, b), 0, p.lastPartCut)
  {
    assert p.partCount != 1 && p.partCount - 2 == b - a - 1 && a + p.partCount - 1 == b;
  }

  lemma PiecesAreSlice<T>(content: seq<T>, a: nat, b: nat, i: nat, j: nat)
    requires a < b && i < ChunkSize && 1 <= j <= ChunkSize && b * ChunkSize + j <= |content|
    ensures Slice(Chunk(content, a), i, ChunkSize)
          + Chunks(content, a + 1, b - a - 1)
          + Slice(Chunk(content, b), 0, j)
         == content[a * ChunkSize + i..b * ChunkSize + j]
  {
    MulMonotone(a + 1, b);
    HeadPiece(content, a, i);
    ChunksAreSlice(content, a + 1, b);
    TailPiece(content, b, j);
    SliceConcat(content, a * ChunkSize + i, (a + 1) * ChunkSize, b * ChunkSize, b * ChunkSize + j,
      Slice(Chunk(content, a), i, ChunkSize), Chunks(content, a + 1, b - a - 1), Slice(Chunk(content, b), 0, j));
  }

  /** The first chunk of a plan, cut at `i`, runs to the chunk's end. */
  lemma HeadPiece<T>(content: seq<T>, a: nat, i: nat)
    requires i < ChunkSize && (a + 1) * ChunkSize <= |content|
    ensures a * ChunkSize + i <= (a + 1) * ChunkSize
    ensures Slice(Chunk(content, a), i, ChunkSize) == content[a * ChunkSize + i..(a + 1) * ChunkSize]
  {
    ChunkSliceWithin(content, a, i, ChunkSize);
  }

  /** The last chunk of a plan, kept up to `j`. */
  lemma TailPiece<T>(content: seq<T>, b: nat, j: nat)
    requires j <= ChunkSize && b * ChunkSize + j <= |content|
    ensures Slice(Chunk(content, b), 0, j) == content[b * ChunkSize..b * ChunkSize + j]
  {
    ChunkSliceWithin(content, b, 0, j);
  }

  lemma SliceOfSlice<T>(s: seq<T>, lo: nat, hi: nat, i: nat, j: nat)
    requires lo <= hi <= |s| && i <= j <= hi - lo
    ensures s[lo..hi][i..j] == s[lo + i..lo + j]
  {
    assert |s[lo..hi][i..j]| == j - i;
    forall t | 0 <= t < j - i
      ensures s[lo..hi][i..j][t] == s[lo + i..lo + j][t]
    {
    }
  }

  /** Three pieces that are consecutive slices of `s` make up the slice
      from the first one's start to the last one's end. */
  lemma SliceConcat<T>(s: seq<T>, i: nat, j: nat, k: nat, l: nat, x: seq<T>, y: seq<T>, z: seq<T>)
    requires i <= j <= k <= l <= |s|
    requires x == s[i..j] && y == s[j..k] && z == s[k..l]
    ensures x + y + z == s[i..l]
  {
    assert s[i..l] == s[i..j] + s[j..k] + s[k..l];
  }

  /** For a range the corrected check accepts, the fetches with the corrected
      part count deliver exactly the requested bytes. */
  lemma DeliverIsRequestedSlice<T>(content: seq<T>, fromBytes: int, untilBytes: int)
    requires !Rejected(fromBytes, untilBytes, |content|)
    ensures var p := MakePlan(fromBytes, untilBytes, |content|, false);
      Deliver(content, p) == content[fromBytes..untilBytes + 1]
      && |Deliver(content, p)| == p.reqLength
  {
    var p := MakePlan(fromBytes, untilBytes, |content|, false);
    PlanByChunks(fromBytes, untilBytes, |content|);
    DeliverByChunks(content, p, fromBytes / ChunkSize, untilBytes / ChunkSize);
  }

  /** With the part count as written, the plan for the first `ChunkSize + 1`
      bytes of a two-chunk file yields a single byte. The plan is never
      streamed as `media_streamer` stands, since its headers fail first. */
  lemma ChunkBoundaryRangeShortAsWritten<T>(content: seq<T>)
    requires |content| == 2 * ChunkSize
    ensures var p := MakePlan(0, ChunkSize, |content|, true);
      && !RejectedAsWritten(0, ChunkSize, |content|)
      && p.partCount == 1 && PartCount(p.offset, p.untilBytes) == 2
      && p.reqLength == ChunkSize + 1
      && |Deliver(content, p)| == 1
  {
    var p := MakePlan(0, ChunkSize, |content|, true);
    assert p.untilBytes == ChunkSize && p.offset == 0;
    assert CeilDiv(ChunkSize, ChunkSize) == 1;
  }

  /** As written, the only satisfiable-looking ranges with nothing to send
      are those starting at `file_size`: the 416 test lets `until == file_size`
      through and the clamp then pulls `until` below `from`. */
  lemma EmptyPlanAsWrittenIff(fromBytes: int, untilBytes: int, fileSize: int)
    requires !RejectedAsWritten(fromBytes, untilBytes, fileSize)
    ensures MakePlan(fromBytes, untilBytes, fileSize, true).reqLength == 0 <==> fromBytes == fileSize
    ensures MakePlan(fromBytes, untilBytes, fileSize, true).reqLength >= 0
  {
  }

  /** The corrected check accepts only ranges inside the file, which the
      clamp then leaves alone, so every accepted range sends at least a byte. */
  lemma AcceptedRangeIsInsideFile(fromBytes: int, untilBytes: int, fileSize: int)
    requires !Rejected(fromBytes, untilBytes, fileSize)
    ensures var p := MakePlan(fromBytes, untilBytes, fileSize, false);
      && 0 <= p.fromBytes <= p.untilBytes < fileSize
      && p.untilBytes == untilBytes
      && p.reqLength >= 1
      && !RejectedAsWritten(fromBytes, untilBytes, fileSize)
  {
  }
}
