/** serve_video (app.py): the route that streams a stored video file, with
    content sniffing, an extension fallback, the Content-Disposition name and
    byte ranges (section 2.1 of RFC 7233 for the Range header syntax, section 4.2 for
    Content-Range, section 4.4 for status 416).

    The video directory is a map from path to file bytes; mimetypes'
    guess for the file name is a parameter. */
module App {
  import opened Strings

  // ---------------------------------------------------------------------------
  // Paths

  /** A text made only of dots. */
  predicate AllDots(s: string) {
    forall i :: 0 <= i < |s| ==> s[i] == '.'
  }

  /** os.path.splitext: the extension starts at the last dot of the last path
      component, unless everything before that dot in the component is dots
      (so ".profile" and "..x" have no extension). */
  function SplitExt(p: string): (r: (string, string))
    ensures r.0 + r.1 == p
    ensures r.1 == "" || (r.1[0] == '.' && forall i :: 0 <= i < |r.1| ==> r.1[i] != '/')
  {
    var start := if LastIndexOf(p, '/').Some? then LastIndexOf(p, '/').value + 1 else 0;
    var dot := LastIndexOf(p, '.');
    if dot.Some? && dot.value >= start && !AllDots(p[start..dot.value]) then
      assert p[..dot.value] + p[dot.value..] == p;
      (p[..dot.value], p[dot.value..])
    else
      (p, "")
  }

  /** os.path.basename: what follows the last '/'. */
  function Basename(p: string): string {
    AfterLast(p, '/')
  }

  /** The extension serve_video dispatches on, lower-cased. */
  function FileExt(filename: string): string {
    ToLower(SplitExt(filename).1)
  }

  /** The extension of a path is the extension of its basename. */
  lemma {:induction false} ExtOfBasename(p: string)
    ensures SplitExt(Basename(p)).1 == SplitExt(p).1
  {
    var b := Basename(p);
    var sep := LastIndexOf(p, '/');
    var start := if sep.Some? then sep.value + 1 else 0;
    assert b == p[start..];
    assert LastIndexOf(b, '/').None?;
    var dot := LastIndexOf(p, '.');
    var bdot := LastIndexOf(b, '.');
    if dot.Some? && dot.value >= start {
      assert b[dot.value - start] == '.';
      assert bdot.Some? && bdot.value == dot.value - start by {
        LastIndexOfShift(p, start, '.');
      }
      assert b[..bdot.value] == p[start..dot.value];
    } else {
      assert bdot.None? by {
        forall j | 0 <= j < |b| ensures b[j] != '.' {
          assert b[j] == p[start + j];
        }
      }
    }
  }

  /** The last occurrence of c in a suffix of s, when there is one, is the
      last occurrence in s, shifted. */
  lemma LastIndexOfShift(s: string, start: nat, c: char)
    requires start <= |s| && LastIndexOf(s, c).Some? && LastIndexOf(s, c).value >= start
    ensures LastIndexOf(s[start..], c) == Some(LastIndexOf(s, c).value - start)
  {
    var t := s[start..];
    var k := LastIndexOf(s, c).value;
    assert t[k - start] == c;
    var r := LastIndexOf(t, c);
    assert r.Some?;
    assert s[r.value + start] == t[r.value];
  }

  // ---------------------------------------------------------------------------
  // Content type

  /** What the header bytes say: a detected type, no signature, or a read
      that raised (an empty file makes `header[0]` raise IndexError). */
  datatype Sniffed = Detected(contentType: string) | NoSignature | ReadFailed

  const SyncByte: bv8 := 0x47
  const PacketSize: nat := 188

  /** The bytes of "ftyp", the EBML magic, "OggS" and "#EXTM3U". */
  const Ftyp: seq<bv8> := [0x66, 0x74, 0x79, 0x70]
  const Ebml: seq<bv8> := [0x1A, 0x45, 0xDF, 0xA3]
  const OggS: seq<bv8> := [0x4F, 0x67, 0x67, 0x53]
  const ExtM3u: seq<bv8> := [0x23, 0x45, 0x58, 0x54, 0x4D, 0x33, 0x55]

  /** Sniffing of the first (at most 188) bytes, first match wins: an MPEG-TS
      packet (ISO/IEC 13818-1, section 2.4.3.2) with the sync byte at offsets 0
      and 187; "ftyp" at 4..8; the EBML magic (WebM; the Matroska test after it
      repeats the same magic and is never reached); "OggS"; "#EXTM3U". */
  function Sniff(header: seq<bv8>): (r: Sniffed)
    ensures r.ReadFailed? <==> header == []
    ensures r == Detected("video/mp2t") <==>
              |header| >= PacketSize && header[0] == SyncByte && header[PacketSize - 1] == SyncByte
  {
    if |header| == 0 then ReadFailed
    else if header[0] == SyncByte && |header| >= PacketSize && header[PacketSize - 1] == SyncByte then
      Detected("video/mp2t")
    else if |header| >= 8 && header[4..8] == Ftyp then Detected("video/mp4")
    else if |header| >= 4 && header[0..4] == Ebml then Detected("video/webm")
    else if |header| >= 4 && header[0..4] == OggS then Detected("video/ogg")
    else if |header| >= 4 && header[0..4] == Ebml then Detected("video/x-matroska")
    else if |header| >= 7 && header[..7] == ExtM3u then Detected("application/vnd.apple.mpegurl")
    else NoSignature
  }

  /** The Matroska branch is dead: no header is ever sniffed as Matroska, and
      every EBML header is WebM unless it is an MPEG-TS packet or carries "ftyp". */
  lemma MatroskaUnreachable(header: seq<bv8>)
    ensures Sniff(header) != Detected("video/x-matroska")
    ensures (|header| >= 4 && header[0..4] == Ebml && header[0] != SyncByte &&
             !(|header| >= 8 && header[4..8] == Ftyp)) ==>
              Sniff(header) == Detected("video/webm")
  {
  }

  /** The extension table, with mimetypes' guess (or octet-stream) after it. */
  function ExtensionType(ext: string, guessed: Option<string>): (t: string)
    ensures ext == ".ts" ==> t == "video/mp2t"
    ensures ext !in {".mp4", ".webm", ".ogg", ".m3u8", ".ts"} ==>
              t == (if guessed.Some? && guessed.value != "" then guessed.value else "application/octet-stream")
  {
    if ext == ".mp4" then "video/mp4"
    else if ext == ".webm" then "video/webm"
    else if ext == ".ogg" then "video/ogg"
    else if ext == ".m3u8" then "application/vnd.apple.mpegurl"
    else if ext == ".ts" then "video/mp2t"
    else if guessed.Some? && guessed.value != "" then guessed.value
    else "application/octet-stream"
  }

  /** The type served: the sniffed one, else (no signature, or the read
      raised) the one the lower-cased extension gives. */
  function ContentType(header: seq<bv8>, filename: string, guessed: Option<string>): (t: string)
    ensures Sniff(header).Detected? ==> t == Sniff(header).contentType
    ensures !Sniff(header).Detected? ==> t == ExtensionType(FileExt(filename), guessed)
  {
    match Sniff(header)
    case Detected(c) => c
    case _ => ExtensionType(FileExt(filename), guessed)
  }

  /** Content-Disposition: inline under the basename, except that content
      served as MPEG-TS from a file whose extension is not ".ts" is named
      after the basename without its extension, plus ".ts". */
  function Disposition(filename: string, contentType: string): (d: string)
    ensures contentType != "video/mp2t" || FileExt(filename) == ".ts" ==>
              d == "inline; filename=\"" + Basename(filename) + "\""
  {
    if contentType == "video/mp2t" && FileExt(filename) != ".ts" then
      "inline; filename=\"" + SplitExt(Basename(filename)).0 + ".ts\""
    else
      "inline; filename=\"" + Basename(filename) + "\""
  }

  /** The disposition of a name keeps the name's extension just before its
      closing quote. */
  lemma DispositionEndsWithExt(filename: string)
    requires FileExt(filename) == ".ts"
    ensures EndsWith(Disposition(filename, "video/mp2t"), SplitExt(filename).1 + "\"")
  {
    ExtOfBasename(filename);
    var b := Basename(filename);
    var sp := SplitExt(b);
    var d := Disposition(filename, "video/mp2t");
    var pre, q := "inline; filename=\"", "\"";
    assert d == pre + b + q;
    Regroup(pre, sp.0, sp.1, q);
    EndsWithConcat(pre + sp.0, sp.1 + q);
  }

  /** A ".ts" file (in any case) served as MPEG-TS keeps its own name. */
  lemma DispositionKeepsTs(filename: string)
    requires FileExt(filename) == ".ts"
    ensures EndsWith(ToLower(Disposition(filename, "video/mp2t")), ".ts\"")
  {
    var ext := SplitExt(filename).1;
    DispositionEndsWithExt(filename);
    ToLowerSuffix(Disposition(filename, "video/mp2t"), ext + "\"");
    LowerWithQuote(ext);
  }

  lemma LowerWithQuote(ext: string)
    requires ToLower(ext) == ".ts"
    ensures ToLower(ext + "\"") == ".ts\""
  {
    ToLowerConcat(ext, "\"");
    assert ToLower("\"") == "\"";
  }

  /** MPEG-TS content in a file with another extension is renamed to ".ts". */
  lemma DispositionRenamesTs(filename: string)
    requires FileExt(filename) != ".ts"
    ensures Disposition(filename, "video/mp2t") ==
              "inline; filename=\"" + SplitExt(Basename(filename)).0 + ".ts\""
    ensures EndsWith(Disposition(filename, "video/mp2t"), ".ts\"")
  {
    var d := Disposition(filename, "video/mp2t");
    assert d[|d| - 4..] == ".ts\"";
  }

  /** Whatever the file is called, MPEG-TS content is offered under a name
      whose extension is ".ts" up to case. */
  lemma DispositionNamesTs(filename: string)
    ensures EndsWith(ToLower(Disposition(filename, "video/mp2t")), ".ts\"")
  {
    if FileExt(filename) == ".ts" {
      DispositionKeepsTs(filename);
    } else {
      DispositionRenamesTs(filename);
      LowerTsQuote();
      ToLowerSuffix(Disposition(filename, "video/mp2t"), ".ts\"");
    }
  }

  lemma LowerTsQuote()
    ensures ToLower(".ts\"") == ".ts\""
  {
  }

  // ---------------------------------------------------------------------------
  // Byte ranges

  function Min(a: int, b: int): int {
    if a <= b then a else b
  }

  /** The length of the run of decimal digits at the start of s. */
  function DigitRun(s: string): (n: nat)
    ensures n <= |s| && AllDigits(s[..n]) && (n < |s| ==> !IsDigit(s[n]))
  {
    if |s| == 0 || !IsDigit(s[0]) then 0
    else
      var m := DigitRun(s[1..]);
      assert s[..1 + m] == [s[0]] + s[1..][..m];
      1 + m
  }

  /** The pattern `bytes=(\d+)-(\d*)` matched at the start of s: the first
      number, and the second when its digits are there. The greedy `\d+`
      needs no backtracking, since a shorter run is followed by a digit and
      not by '-'. */
  function RangeMatch(s: string): Option<(nat, Option<nat>)> {
    if !StartsWith(s, "bytes=") then None
    else
      var rest := s[6..];
      var n := DigitRun(rest);
      if n == 0 || n == |rest| || rest[n] != '-' then None
      else
        var tail := rest[n + 1..];
        var m := DigitRun(tail);
        Some((DigitsValue(rest[..n]), if m == 0 then None else Some(DigitsValue(tail[..m]))))
  }

  /** re.search: the match at the leftmost position where there is one. */
  function SearchRange(h: string): (r: Option<(nat, Option<nat>)>)
    ensures RangeMatch(h).Some? ==> r == RangeMatch(h)
    decreases |h|
  {
    if h == [] then None
    else if RangeMatch(h).Some? then RangeMatch(h)
    else SearchRange(h[1..])
  }

  /** The bounds a Range header asks for: the matched start, and the matched
      end or size - 1; an unmatched header asks for 0..size - 1. */
  function RangeBounds(h: string, size: nat): (r: (nat, int))
    ensures SearchRange(h).None? ==> r == (0, size - 1)
    ensures SearchRange(h).Some? ==> r.0 == SearchRange(h).value.0
    ensures SearchRange(h).Some? && SearchRange(h).value.1.Some? ==> r.1 == SearchRange(h).value.1.value
    ensures SearchRange(h).Some? && SearchRange(h).value.1.None? ==> r.1 == size - 1
  {
    match SearchRange(h)
    case None => (0, size - 1)
    case Some(m) => (m.0, if m.1.Some? then m.1.value else size - 1)
  }

  /** A digit run followed by a non-digit (or nothing) is read whole. */
  lemma DigitRunOf(d: string, t: string)
    requires AllDigits(d) && (t == [] || !IsDigit(t[0]))
    ensures DigitRun(d + t) == |d|
    decreases |d|
  {
    if |d| > 0 {
      assert (d + t)[1..] == d[1..] + t;
      DigitRunOf(d[1..], t);
    }
  }

  /** "bytes=" followed by a digit run d and '-' matches, with d's value as
      the start and the digits at the head of t, if any, as the end. */
  lemma RangeMatchOf(d: string, t: string)
    requires |d| > 0 && AllDigits(d)
    ensures RangeMatch("bytes=" + d + "-" + t) ==
              Some((DigitsValue(d), if DigitRun(t) == 0 then None else Some(DigitsValue(t[..DigitRun(t)]))))
  {
    var h := "bytes=" + d + "-" + t;
    assert StartsWith(h, "bytes=");
    var rest := h[6..];
    assert rest == d + ("-" + t);
    DigitRunOf(d, "-" + t);
    assert rest[..|d|] == d;
    assert rest[|d| + 1..] == t;
  }

  /** A header written as "bytes=a-b" asks for a..b. */
  lemma RangeRoundTripClosed(a: nat, b: nat, size: nat)
    ensures RangeBounds("bytes=" + NatToString(a) + "-" + NatToString(b), size) == (a, b)
  {
    var db := NatToString(b);
    ParseNatToString(a);
    ParseNatToString(b);
    RangeMatchOf(NatToString(a), db);
    assert db == db + [];
    DigitRunOf(db, []);
    assert db[..|db|] == db;
  }

  /** A header written as "bytes=a-" asks for a to the end of the file. */
  lemma RangeRoundTripOpen(a: nat, size: nat)
    ensures RangeBounds("bytes=" + NatToString(a) + "-", size) == (a, size - 1)
  {
    ParseNatToString(a);
    RangeMatchOf(NatToString(a), "");
    assert "bytes=" + NatToString(a) + "-" + "" == "bytes=" + NatToString(a) + "-";
  }

  // ---------------------------------------------------------------------------
  // Streaming

  /** The read size of generate: 1 MiB. */
  const ChunkSize: nat := 1024 * 1024

  /** The bytes of a sequence of chunks, in order. */
  function Flatten(cs: seq<seq<bv8>>): seq<bv8> {
    if cs == [] then [] else Flatten(cs[..|cs| - 1]) + cs[|cs| - 1]
  }

  /** Bytes start..end of the file, cut at its end; nothing when end < start. */
  function Window(data: seq<bv8>, start: nat, end: int): (w: seq<bv8>)
    ensures start <= end < |data| ==> |w| == end - start + 1
  {
    if start >= |data| || end < start then [] else data[start..Min(end + 1, |data|)]
  }

  /** generate(start, end): seek to start, then read chunks of at most 1 MiB
      while the count of bytes still wanted (end - start + 1, less what was
      read) is positive, stopping at the end of the file. The chunks spell
      out exactly the requested bytes that the file has. */
  method Generate(data: seq<bv8>, start: nat, end: int) returns (chunks: seq<seq<bv8>>)
    ensures Flatten(chunks) == Window(data, start, end)
    ensures forall i :: 0 <= i < |chunks| ==> 0 < |chunks[i]| <= ChunkSize
  {
    chunks := [];
    var pos := start;
    var remaining := end - start + 1;
    while remaining > 0
      invariant remaining == end + 1 - pos
      invariant start <= |data| ==> start <= pos <= |data| && Flatten(chunks) == data[start..pos]
      invariant start > |data| ==> chunks == [] && pos == start
      invariant chunks != [] ==> pos <= end + 1
      invariant chunks == [] ==> pos == start
      invariant forall i :: 0 <= i < |chunks| ==> 0 < |chunks[i]| <= ChunkSize
      decreases remaining
    {
      var readSize := Min(ChunkSize, remaining);
      var chunk := if pos < |data| then data[pos..Min(pos + readSize, |data|)] else [];
      if chunk == [] {
        break;
      }
      remaining := remaining - |chunk|;
      assert data[start..pos + |chunk|] == data[start..pos] + chunk;
      pos := pos + |chunk|;
      chunks := chunks + [chunk];
      assert chunks[..|chunks| - 1] == chunks[..|chunks| - 1];
    }
  }

  // ---------------------------------------------------------------------------
  // The route

  /** What serve_video answers. */
  datatype Response =
    | NotFound
    | Unsatisfiable(contentRange: string)
    | Partial(contentType: string, contentRange: string, contentLength: string, disposition: string,
              body: seq<seq<bv8>>)
    | Whole(contentType: string, contentLength: string, disposition: string, body: seq<seq<bv8>>)

  /** The answer to a non-empty Range header over a file of the given bytes:
      416 with `bytes *` over the size when the start is at or past the size,
      else 206 over the window from the start to the end clipped to size - 1,
      with `bytes start-end/size` and a length of end - start + 1. */
  ghost predicate RangeAnswer(data: seq<bv8>, header: string, ct: string, disposition: string, resp: Response) {
    var bounds := RangeBounds(header, |data|);
    var end := Min(bounds.1, |data| - 1);
    (resp.Unsatisfiable? <==> bounds.0 >= |data|) &&
    (resp.Unsatisfiable? ==> resp.contentRange == "bytes */" + NatToString(|data|)) &&
    (!resp.Unsatisfiable? ==>
       resp.Partial? && resp.contentType == ct && resp.disposition == disposition &&
       resp.contentRange ==
         "bytes " + NatToString(bounds.0) + "-" + IntToString(end) + "/" + NatToString(|data|) &&
       resp.contentLength == IntToString(end - bounds.0 + 1) &&
       Flatten(resp.body) == Window(data, bounds.0, end) &&
       (bounds.0 <= end ==> |Flatten(resp.body)| == end - bounds.0 + 1))
  }

  /** The ranged branch of serve_video for a file of the given bytes: 416
      when the start is at or past the size, else 206 over the window from the
      start to the end clipped to size - 1. */
  method RangeResponse(data: seq<bv8>, header: string, ct: string, disposition: string)
    returns (resp: Response)
    ensures RangeAnswer(data, header, ct, disposition, resp)
  {
    var size := |data|;
    var bounds := RangeBounds(header, size);
    if bounds.0 >= size {
      return Unsatisfiable("bytes */" + NatToString(size));
    }
    var end := Min(bounds.1, size - 1);
    var body := Generate(data, bounds.0, end);
    return Partial(ct, "bytes " + NatToString(bounds.0) + "-" + IntToString(end) + "/" + NatToString(size),
                   IntToString(end - bounds.0 + 1), disposition, body);
  }

  /** serve_video for `/video/<filename>`, with the files of the video
      directory, the Range header and mimetypes' guess for the name as
      parameters. A missing file is 404. Otherwise the type comes from the
      first 188 bytes or the extension. A non-empty Range header is parsed;
      a start at or past the size is 416 with a Content-Range of `bytes *`
      over the size; otherwise the
      end is clipped to size - 1 and the answer is 206 with
      `bytes start-end/size`, Content-Length end - start + 1 (an end before
      the start is not refused) and the bytes of that window. Without a Range
      header the answer is 200 with the whole file. */
  method ServeVideo(videoDir: string, filename: string, files: map<string, seq<bv8>>,
                    range: Option<string>, guessed: Option<string>)
    returns (resp: Response)
    ensures resp.NotFound? <==> PathJoin(videoDir, filename) !in files
    ensures PathJoin(videoDir, filename) in files ==>
              var data := files[PathJoin(videoDir, filename)];
              var ct := ContentType(data[..Min(PacketSize, |data|)], filename, guessed);
              (range.Some? && range.value != "" ==> RangeAnswer(data, range.value, ct, Disposition(filename, ct), resp)) &&
              (range.None? || range.value == "" ==>
                 resp.Whole? && resp.contentType == ct && resp.disposition == Disposition(filename, ct) &&
                 resp.contentLength == NatToString(|data|) && Flatten(resp.body) == data)
  {
    var path := PathJoin(videoDir, filename);
    if path !in files {
      return NotFound;
    }
    var data := files[path];
    var size := |data|;
    var ct := ContentType(data[..Min(PacketSize, size)], filename, guessed);
    var disposition := Disposition(filename, ct);
    if range.Some? && range.value != "" {
      resp := RangeResponse(data, range.value, ct, disposition);
      return;
    }
    var body := Generate(data, 0, size - 1);
    assert Window(data, 0, size - 1) == data[0..size];
    return Whole(ct, NatToString(size), disposition, body);
  }
}
