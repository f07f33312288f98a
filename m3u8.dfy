/** The HLS segment downloader (utils/m3u8.py, class M3u8Download).

    The network is a finite script of replies consumed one per request; once
    the script is exhausted every request raises. The segment directory is a
    map from entry to size and the rewritten manifest is a sequence of output
    lines. Progress reports are logged in order, one per call of the store's
    update_download_progress. Segments are fetched one after another. */
module M3u8 {
  import opened Strings

  // ---------------------------------------------------------------------------
  // Environment

  /** A byte of the out-of-band key. */
  newtype byte = b: int | 0 <= b < 256

  /** One HTTP reply: an exception (timeout, connection error), or an answer with
      its status, final URL, request path (requests' `path_url`), body text and
      body length. */
  datatype Reply =
    | Raise
    | Answer(status: int, finalUrl: string, pathUrl: string, text: string, size: nat)

  /** The fields of a download job other than its reply script and requests. */
  datatype Snap = Snap(url: string, frontUrl: Option<string>, tsUrlList: seq<string>, successSum: nat,
                       tsSum: nat, progress: int, reports: seq<Report>, manifest: Option<seq<OutLine>>,
                       dir: map<DirEntry, nat>, dirExists: bool)

  /** A file inside the segment directory: `k.ts`, `key`, or anything else left over. */
  datatype DirEntry = Segment(index: nat) | KeyFile | Stale(fileName: string)

  /** A line of the rewritten manifest: a copied tag line, a redirected key
      directive, or the local entry of the k-th segment. */
  datatype OutLine = Copied(text: string) | KeyRef(text: string) | SegmentRef(k: nat)

  /** One call of update_download_progress(task, episode, percent[, path, size]). */
  datatype Report = Report(percent: int, path: Option<string>, size: Option<nat>)

  /** What download_key gave back: the regular expression did not match (an
      AttributeError escapes), the rewritten directive, or None. */
  datatype KeyOutcome = NoMatch | Got(line: string) | Failed

  /** What get_ts_url did with a processed playlist line that is a key directive. */
  datatype KeyDecision = Keep | Drop | Redirect(line: string)

  /** What one try of download_ts ended with: the segment was counted, a
      non-200 answer came back, or an exception was raised and handled. */
  datatype TsTry = Counted | NotOk | Raised

  // ---------------------------------------------------------------------------
  // URI resolution (used for variant URIs, segment URIs and key URIs alike)

  /** An absolute `http…` URI is kept, a rooted one is prefixed with the origin,
      anything else replaces the last path component of the current URL. */
  function Resolve(current: string, origin: string, line: string): string {
    if StartsWith(line, "http") then line
    else if StartsWith(line, "/") then origin + line
    else BeforeLast(current, '/') + "/" + line
  }

  /** Whichever rule applies, the resolved URI ends with the line it came from,
      and a relative line keeps the current URL up to and including its last `/`. */
  lemma ResolveEndsWithLine(current: string, origin: string, line: string)
    ensures EndsWith(Resolve(current, origin, line), line)
    ensures !StartsWith(line, "http") && !StartsWith(line, "/") ==>
              StartsWith(Resolve(current, origin, line), BeforeLast(current, '/') + "/")
  {
    var r := Resolve(current, origin, line);
    if StartsWith(line, "http") {
    } else if StartsWith(line, "/") {
      assert r[|r| - |line|..] == line;
    } else {
      var base := BeforeLast(current, '/') + "/";
      assert r == base + line;
      assert r[|r| - |line|..] == line;
      assert r[..|base|] == base;
    }
  }

  /** Every line resolved, in order. */
  function ResolveAll(current: string, origin: string, lines: seq<string>): (r: seq<string>)
    ensures |r| == |lines|
    decreases |lines|
  {
    if |lines| == 0 then []
    else ResolveAll(current, origin, lines[..|lines| - 1]) + [Resolve(current, origin, lines[|lines| - 1])]
  }

  // ---------------------------------------------------------------------------
  // Master playlist: variant selection

  /** The effect of one master-playlist line on the chosen URL. */
  function VariantStep(current: string, origin: string, line: string): string {
    if Contains(line, "#") then current else Resolve(current, origin, line)
  }

  /** The URL after walking the lines of a master playlist: every line without
      `#`, the empty line included, is resolved against the URL chosen so far. */
  function SelectVariant(current: string, origin: string, lines: seq<string>): string
    decreases |lines|
  {
    if |lines| == 0 then current
    else VariantStep(SelectVariant(current, origin, lines[..|lines| - 1]), origin, lines[|lines| - 1])
  }

  /** Lines holding `#` never move the chosen URL. */
  lemma {:induction false} SelectVariantTagsOnly(current: string, origin: string, lines: seq<string>)
    requires forall i :: 0 <= i < |lines| ==> Contains(lines[i], "#")
    ensures SelectVariant(current, origin, lines) == current
    decreases |lines|
  {
    if |lines| > 0 {
      SelectVariantTagsOnly(current, origin, lines[..|lines| - 1]);
    }
  }

  /** The last line without `#` decides: the result is that line resolved against
      the URL chosen from the lines before it, and so ends with that line. */
  lemma {:induction false} SelectVariantLastWins(current: string, origin: string, lines: seq<string>, i: nat)
    requires i < |lines| && !Contains(lines[i], "#")
    requires forall j :: i < j < |lines| ==> Contains(lines[j], "#")
    ensures SelectVariant(current, origin, lines) ==
              Resolve(SelectVariant(current, origin, lines[..i]), origin, lines[i])
    ensures EndsWith(SelectVariant(current, origin, lines), lines[i])
    decreases |lines|
  {
    if i == |lines| - 1 {
      assert lines[..|lines| - 1] == lines[..i];
      ResolveEndsWithLine(SelectVariant(current, origin, lines[..i]), origin, lines[i]);
    } else {
      var p := lines[..|lines| - 1];
      assert p[..i] == lines[..i];
      SelectVariantLastWins(current, origin, p, i);
    }
  }

  /** A master playlist whose text ends with a newline splits into a last, empty
      line, so the chosen URL always ends with `/`: the variant's directory. */
  lemma TrailingNewlineSelectsDirectory(current: string, origin: string, text: string)
    requires EndsWith(text, "\n")
    ensures EndsWith(SelectVariant(current, origin, Lines(text)), "/")
  {
    var ls := Lines(text);
    TrailingEmptyLine(text, "\n");
    assert !Contains(ls[|ls| - 1], "#");
    SelectVariantLastWins(current, origin, ls, |ls| - 1);
    var prev := SelectVariant(current, origin, ls[..|ls| - 1]);
    assert ls[|ls| - 1] == "";
    assert Resolve(prev, origin, "") == BeforeLast(prev, '/') + "/" + "";
  }

  /** Splitting a text that ends with a one-character separator yields an empty last part. */
  lemma {:induction false} TrailingEmptyLine(s: string, sep: string)
    requires |sep| == 1 && EndsWith(s, sep)
    ensures Split(s, sep)[|Split(s, sep)| - 1] == ""
    decreases |s|
  {
    var r := IndexOf(s, sep);
    if r.None? {
      ContainsAt(s, sep, |s| - 1);
      assert false;
    } else {
      var i := r.value;
      SplitCons(s, sep, i);
      var rest := s[i + 1..];
      var tail := Split(rest, sep);
      if |rest| == 0 {
        assert IndexOf(rest, sep).None?;
        assert tail == [rest];
      } else {
        assert rest[|rest| - 1..] == s[|s| - 1..];
        TrailingEmptyLine(rest, sep);
      }
      assert Split(s, sep) == [s[..i]] + tail;
    }
  }


  // ---------------------------------------------------------------------------
  // Key directives (section 4.3.2.4 of RFC 8216)

  predicate IsQuote(c: char) {
    c == '\'' || c == '|' || c == '"'
  }

  /** The first position at or after `from` holding a quote character. */
  function FindQuote(s: string, from: nat): (r: Option<nat>)
    ensures r.Some? ==> from <= r.value < |s| && IsQuote(s[r.value])
    ensures r.Some? ==> forall j :: from <= j < r.value ==> !IsQuote(s[j])
    ensures r.None? ==> forall j :: from <= j < |s| ==> !IsQuote(s[j])
    decreases |s| - from
  {
    if from >= |s| then None
    else if IsQuote(s[from]) then Some(from)
    else FindQuote(s, from + 1)
  }

  /** re.search(r"URI=[\'|\"].*?[\'|\"]", line) scanning from position i: the
      leftmost start of `URI=` followed by a quote, closed by the nearest quote
      after it. The match is line[start..close + 1]. */
  function MatchUriFrom(line: string, i: nat): (r: Option<(nat, nat)>)
    ensures r.Some? ==> i <= r.value.0 && r.value.0 + 5 <= r.value.1 < |line|
    ensures r.Some? ==> line[r.value.0..r.value.0 + 4] == "URI=" && IsQuote(line[r.value.0 + 4])
    ensures r.Some? ==> IsQuote(line[r.value.1])
    ensures r.Some? ==> forall j :: r.value.0 + 5 <= j < r.value.1 ==> !IsQuote(line[j])
    decreases |line| - i
  {
    if i + 5 > |line| then None
    else if line[i..i + 4] == "URI=" && IsQuote(line[i + 4]) && FindQuote(line, i + 5).Some? then
      Some((i, FindQuote(line, i + 5).value))
    else MatchUriFrom(line, i + 1)
  }

  function MatchUri(line: string): Option<(nat, nat)> {
    MatchUriFrom(line, 0)
  }

  /** A line without `URI=` has no match: download_key raises on it. */
  lemma {:induction false} NoUriNoMatch(line: string, i: nat)
    requires !Contains(line, "URI=")
    ensures MatchUriFrom(line, i).None?
    decreases |line| - i
  {
    if i + 5 <= |line| {
      if line[i..i + 4] == "URI=" {
        ContainsAt(line, "URI=", i);
      }
      NoUriNoMatch(line, i + 1);
    }
  }

  /** The local key attribute every redirected directive carries. */
  function KeyAttribute(name: string): string {
    "URI=\"./" + name + "/key\""
  }

  /** The matched `URI="…"` attribute, quotes included (the regular expression's group()). */
  function MatchedAttribute(line: string): (m: string)
    requires MatchUri(line).Some?
    ensures |m| >= 6 && StartsWith(m, "URI=")
  {
    var r := MatchUri(line).value;
    var m := line[r.0..r.1 + 1];
    assert m[..4] == line[r.0..r.0 + 4];
    m
  }

  /** The key URI between the quotes (group()[5:-1]). */
  function MatchedUri(line: string): string
    requires MatchUri(line).Some?
  {
    var m := MatchedAttribute(line);
    m[5..|m| - 1]
  }

  /** key_line.split(mid_part)[0]: the text before the attribute. */
  function KeyPrefix(line: string): string
    requires MatchUri(line).Some?
  {
    Split(line, MatchedAttribute(line))[0]
  }

  /** key_line.split(mid_part)[-1]: the text after the attribute. */
  function KeySuffix(line: string): string
    requires MatchUri(line).Some?
  {
    var parts := Split(line, MatchedAttribute(line));
    parts[|parts| - 1]
  }

  /** download_key's rewrite of a matched directive: the text before the match,
      the local key attribute, and (for a fetched key only) the text after the
      match. */
  function RedirectKeyLine(line: string, name: string, outOfBand: bool): (r: string)
    requires MatchUri(line).Some?
  {
    KeyPrefix(line) + KeyAttribute(name) + (if outOfBand then "" else KeySuffix(line))
  }

  /** The redirected directive keeps the text before the attribute and always
      names the local key file; an out-of-band key drops what followed, a
      fetched one keeps it. */
  lemma RedirectKeyLineShape(line: string, name: string, outOfBand: bool)
    requires MatchUri(line).Some?
    ensures StartsWith(RedirectKeyLine(line, name, outOfBand), KeyPrefix(line))
    ensures Contains(RedirectKeyLine(line, name, outOfBand), KeyAttribute(name))
    ensures outOfBand ==> EndsWith(RedirectKeyLine(line, name, outOfBand), KeyAttribute(name))
    ensures !outOfBand ==> EndsWith(RedirectKeyLine(line, name, outOfBand), KeySuffix(line))
  {
    ConcatParts(KeyPrefix(line), KeyAttribute(name), if outOfBand then "" else KeySuffix(line));
  }

  predicate IsKeyDirective(line: string) {
    Contains(line, "#") && Contains(line, "EXT-X-KEY") && Contains(line, "URI=")
  }

  // ---------------------------------------------------------------------------
  // Media playlist rewrite

  /** The rewrite so far: manifest lines out, segment URIs as written, and
      whether an `EXT-X-ENDLIST` line stopped the walk. */
  datatype RewriteState = RewriteState(out: seq<OutLine>, segs: seq<string>, stopped: bool)

  /** One line of get_ts_url's loop, given what was done with it if it is a key directive. */
  function RewriteStep(st: RewriteState, line: string, d: KeyDecision): RewriteState {
    if st.stopped then st
    else if !Contains(line, "#") then
      RewriteState(st.out + [SegmentRef(|st.segs|)], st.segs + [line], false)
    else if IsKeyDirective(line) && d.Drop? then st
    else if IsKeyDirective(line) && d.Redirect? then RewriteState(st.out + [KeyRef(d.line)], st.segs, false)
    else RewriteState(st.out + [Copied(line)], st.segs, Contains(line, "EXT-X-ENDLIST"))
  }

  /** A step that has not stopped adds exactly the segment lines. */
  lemma RewriteStepSegs(st: RewriteState, line: string, d: KeyDecision)
    requires !st.stopped
    ensures !Contains(line, "#") ==> RewriteStep(st, line, d).segs == st.segs + [line]
    ensures Contains(line, "#") ==> RewriteStep(st, line, d).segs == st.segs
  {
  }

  /** The whole walk, one decision per line (ignored for lines that are not key directives). */
  function Rewrite(lines: seq<string>, ds: seq<KeyDecision>): RewriteState
    requires |ds| == |lines|
    decreases |lines|
  {
    if |lines| == 0 then RewriteState([], [], false)
    else RewriteStep(Rewrite(lines[..|lines| - 1], ds[..|lines| - 1]), lines[|lines| - 1], ds[|lines| - 1])
  }

  /** The lines without `#`: the segment URIs. */
  function SegmentLines(lines: seq<string>): (r: seq<string>)
    ensures |r| <= |lines|
    decreases |lines|
  {
    if |lines| == 0 then []
    else SegmentLines(lines[..|lines| - 1]) +
         (if Contains(lines[|lines| - 1], "#") then [] else [lines[|lines| - 1]])
  }

  /** The segment indices named by manifest lines, in order. */
  function SegmentRefs(out: seq<OutLine>): seq<nat>
    decreases |out|
  {
    if |out| == 0 then []
    else SegmentRefs(out[..|out| - 1]) +
         (if out[|out| - 1].SegmentRef? then [out[|out| - 1].k] else [])
  }

  lemma SegmentRefsAppend(out: seq<OutLine>, o: OutLine)
    ensures SegmentRefs(out + [o]) == SegmentRefs(out) + (if o.SegmentRef? then [o.k] else [])
  {
    assert (out + [o])[..|out|] == out;
  }

  /** The k-th segment line (k from 0, as make_sum counts) becomes local entry k:
      the manifest names segments 0, 1, 2, … in order, one per segment URI kept. */
  lemma {:induction false} RewriteNumbersSegments(lines: seq<string>, ds: seq<KeyDecision>)
    requires |ds| == |lines|
    ensures SegmentRefs(Rewrite(lines, ds).out) == seq(|Rewrite(lines, ds).segs|, k => k)
    decreases |lines|
  {
    if |lines| > 0 {
      var n := |lines| - 1;
      RewriteNumbersSegments(lines[..n], ds[..n]);
      SegmentRefsStep(Rewrite(lines[..n], ds[..n]), lines[n], ds[n]);
    }
  }

  /** One step keeps the manifest's segment references numbered 0, 1, ... up
      to the number of segments. */
  lemma SegmentRefsStep(st: RewriteState, line: string, d: KeyDecision)
    requires SegmentRefs(st.out) == seq(|st.segs|, k => k)
    ensures SegmentRefs(RewriteStep(st, line, d).out) == seq(|RewriteStep(st, line, d).segs|, k => k)
  {
    if !st.stopped && !Contains(line, "#") {
      SegmentRefsAppend(st.out, SegmentRef(|st.segs|));
      assert seq(|st.segs|, k => k) + [|st.segs|] == seq(|st.segs| + 1, k => k);
    } else if !st.stopped && IsKeyDirective(line) && d.Redirect? {
      SegmentRefsAppend(st.out, KeyRef(d.line));
    } else if !st.stopped && !(IsKeyDirective(line) && d.Drop?) {
      SegmentRefsAppend(st.out, Copied(line));
    }
  }

  /** Until an `EXT-X-ENDLIST` line stops the walk, the segment URIs are exactly
      the lines without `#`, in their original order. */
  lemma {:induction false} RewriteKeepsSegmentOrder(lines: seq<string>, ds: seq<KeyDecision>)
    requires |ds| == |lines|
    requires !Rewrite(lines, ds).stopped
    ensures Rewrite(lines, ds).segs == SegmentLines(lines)
    decreases |lines|
  {
    if |lines| > 0 {
      var n := |lines| - 1;
      assert lines[..n] == lines[..|lines| - 1];
      RewriteKeepsSegmentOrder(lines[..n], ds[..n]);
    }
  }

  /** Once stopped, later lines change nothing. */
  lemma {:induction false} RewriteStoppedStays(lines: seq<string>, ds: seq<KeyDecision>, i: nat)
    requires |ds| == |lines| && i <= |lines|
    requires Rewrite(lines[..i], ds[..i]).stopped
    ensures Rewrite(lines, ds) == Rewrite(lines[..i], ds[..i])
    decreases |lines|
  {
    if i < |lines| {
      var n := |lines| - 1;
      assert lines[..n][..i] == lines[..i] && ds[..n][..i] == ds[..i];
      RewriteStoppedStays(lines[..n], ds[..n], i);
      var st := Rewrite(lines[..n], ds[..n]);
      assert st.stopped && Rewrite(lines, ds) == RewriteStep(st, lines[n], ds[n]);
    } else {
      assert lines[..i] == lines && ds[..i] == ds;
    }
  }

  /** The first tag line holding `EXT-X-ENDLIST` (when it is not a key directive)
      is copied as the last manifest line and every later line is ignored. */
  lemma RewriteStopsAtEndlist(lines: seq<string>, ds: seq<KeyDecision>, i: nat)
    requires |ds| == |lines| && i < |lines|
    requires !Rewrite(lines[..i], ds[..i]).stopped
    requires Contains(lines[i], "#") && Contains(lines[i], "EXT-X-ENDLIST") && !IsKeyDirective(lines[i])
    ensures Rewrite(lines, ds).stopped
    ensures Rewrite(lines, ds) == Rewrite(lines[..i + 1], ds[..i + 1])
    ensures Rewrite(lines, ds).out == Rewrite(lines[..i], ds[..i]).out + [Copied(lines[i])]
    ensures Rewrite(lines, ds).segs == Rewrite(lines[..i], ds[..i]).segs
  {
    var p := lines[..i + 1];
    var q := ds[..i + 1];
    assert p[..i] == lines[..i] && q[..i] == ds[..i];
    RewriteStoppedStays(lines, ds, i + 1);
  }

  /** The local manifest entry of segment k: os.path.join(".\\", name, str(k)) + ".ts",
      with POSIX joining. */
  function LocalEntry(name: string, k: nat): string {
    ".\\/" + name + "/" + NatToString(k) + ".ts"
  }

  /** Distinct segments get distinct local entries. */
  lemma LocalEntryInjective(name: string, j: nat, k: nat)
    requires LocalEntry(name, j) == LocalEntry(name, k)
    ensures j == k
  {
    var pre := ".\\/" + name + "/";
    var a := NatToString(j);
    var b := NatToString(k);
    assert LocalEntry(name, j) == pre + a + ".ts";
    assert LocalEntry(name, k) == pre + b + ".ts";
    assert |a| == |b|;
    assert a == LocalEntry(name, j)[|pre|..|pre| + |a|];
    assert b == LocalEntry(name, k)[|pre|..|pre| + |b|];
    NatToStringInjective(j, k);
  }

  function LineText(o: OutLine, name: string): string {
    match o
    case Copied(t) => t
    case KeyRef(t) => t
    case SegmentRef(k) => LocalEntry(name, k)
  }

  /** The manifest text: each output line followed by a newline. */
  function Render(out: seq<OutLine>, name: string): string
    decreases |out|
  {
    if |out| == 0 then "" else Render(out[..|out| - 1], name) + LineText(out[|out| - 1], name) + "\n"
  }

  // ---------------------------------------------------------------------------
  // Sizes and progress

  /** How many of the segment files 0..n-1 are present. */
  function CountSegments(dir: map<DirEntry, nat>, n: nat): (c: nat)
    ensures c <= n
  {
    if n == 0 then 0
    else CountSegments(dir, n - 1) + (if Segment(n - 1) in dir then 1 else 0)
  }

  /** All n segments are present exactly when the count reaches n. */
  lemma {:induction false} CountSegmentsFull(dir: map<DirEntry, nat>, n: nat)
    ensures CountSegments(dir, n) == n <==> forall j :: 0 <= j < n ==> Segment(j) in dir
    decreases n
  {
    if n > 0 {
      CountSegmentsFull(dir, n - 1);
    }
  }

  /** The count only looks at segments 0..n-1. */
  lemma {:induction false} CountSegmentsFrame(d1: map<DirEntry, nat>, d2: map<DirEntry, nat>, n: nat)
    requires forall j :: 0 <= j < n ==> (Segment(j) in d1 <==> Segment(j) in d2)
    ensures CountSegments(d1, n) == CountSegments(d2, n)
    decreases n
  {
    if n > 0 {
      CountSegmentsFrame(d1, d2, n - 1);
    }
  }

  /** The total size of the files in a directory. */
  ghost function DirSize(m: map<DirEntry, nat>): nat
    decreases |m|
  {
    if m == map[] then 0
    else
      var e :| e in m;
      m[e] + DirSize(m - {e})
  }

  /** The total does not depend on which file is counted first. */
  lemma {:induction false} DirSizeRemove(m: map<DirEntry, nat>, x: DirEntry)
    requires x in m
    ensures DirSize(m) == m[x] + DirSize(m - {x})
    decreases |m|
  {
    var e :| e in m && DirSize(m) == m[e] + DirSize(m - {e});
    if e != x {
      DirSizeRemove(m - {e}, x);
      DirSizeRemove(m - {x}, e);
      assert m - {e} - {x} == m - {x} - {e};
    }
  }

  /** int(100 * success // total). */
  function Percent(success: nat, total: nat): nat
    requires total > 0
  {
    100 * success / total
  }

  lemma PercentOfNone(total: nat)
    ensures total > 0 ==> Percent(0, total) == 0
  {
    assert 100 * 0 == 0;
  }

  /** The percentage never falls as segments are counted, and reaches 100 with the last one. */
  lemma PercentMonotone(s: nat, t: nat)
    requires t > 0
    ensures Percent(s, t) <= Percent(s + 1, t)
    ensures Percent(t, t) == 100
  {
    DivMonotone(100 * s, 100 * (s + 1), t);
    PercentFull(t);
  }

  lemma PercentFull(t: nat)
    requires t > 0
    ensures Percent(t, t) == 100
  {
    assert 100 * t == 100 * t + 0;
  }

  lemma DivMonotone(a: nat, b: nat, t: nat)
    requires a <= b && t > 0
    ensures a / t <= b / t
  {
    var qa, qb := a / t, b / t;
    assert qa * t <= a;
    assert b < (qb + 1) * t;
    MulCancelStrict(qa, qb + 1, t);
  }

  lemma MulCancelStrict(x: nat, y: nat, t: nat)
    requires t > 0 && x * t < y * t
    ensures x < y
  {
    if x >= y {
      MulMonotone(y, x, t);
    }
  }

  lemma MulMonotone(x: nat, y: nat, t: nat)
    requires x <= y
    ensures x * t <= y * t
  {
    assert y * t == x * t + (y - x) * t;
  }

  /** `after` is what is left of the reply script `before` once some replies were read. */
  ghost predicate Consumed(before: seq<Reply>, after: seq<Reply>) {
    |after| <= |before| && after == before[|before| - |after|..]
  }

  lemma ConsumedTransitive(a: seq<Reply>, b: seq<Reply>, c: seq<Reply>)
    requires Consumed(a, b) && Consumed(b, c)
    ensures Consumed(a, c)
  {
    assert a[|a| - |b|..][|b| - |c|..] == a[|a| - |c|..];
  }

  /** A reply that fails a try before anything is recorded: the request
      raised, or the reply's path is empty (splitting by it raises). */
  predicate Refused(r: Reply) {
    r.Raise? || |r.pathUrl| == 0
  }

  /** How many replies at the head of rs are refused: those before it all are,
      and the reply at that index, if any, is not. */
  function LeadingRefused(rs: seq<Reply>): (j: nat)
    ensures j <= |rs|
    ensures forall i :: 0 <= i < j ==> Refused(rs[i])
    ensures j < |rs| ==> !Refused(rs[j])
  {
    if rs == [] || !Refused(rs[0]) then 0 else 1 + LeadingRefused(rs[1..])
  }

  function Budget(n: int): nat {
    if n > 0 then n else 0
  }

  function Repeat(u: string, n: nat): (r: seq<string>)
    ensures |r| == n
    ensures forall i :: 0 <= i < n ==> r[i] == u
  {
    seq(n, _ => u)
  }

  lemma RewriteSnoc(lines: seq<string>, ds: seq<KeyDecision>, d: KeyDecision, i: nat)
    requires i < |lines| && |ds| == i
    ensures Rewrite(lines[..i + 1], ds + [d]) == RewriteStep(Rewrite(lines[..i], ds), lines[i], d)
  {
    assert lines[..i + 1][..i] == lines[..i];
    assert (ds + [d])[..i] == ds;
  }

  lemma ResolveAllSnoc(current: string, origin: string, segs: seq<string>, line: string)
    ensures ResolveAll(current, origin, segs + [line]) ==
            ResolveAll(current, origin, segs) + [Resolve(current, origin, line)]
  {
    assert (segs + [line])[..|segs|] == segs;
  }

  /** The entries of m that are listed in keys. */
  function Restrict(m: map<DirEntry, nat>, keys: set<DirEntry>): map<DirEntry, nat> {
    map e | e in m && e in keys :: m[e]
  }

  lemma RestrictStep(m: map<DirEntry, nat>, keys: set<DirEntry>, e: DirEntry)
    requires e in keys && keys <= m.Keys
    ensures DirSize(Restrict(m, keys)) == m[e] + DirSize(Restrict(m, keys - {e}))
  {
    DirSizeRemove(Restrict(m, keys), e);
    assert Restrict(m, keys) - {e} == Restrict(m, keys - {e});
  }

  lemma UpdateOutside(m: map<DirEntry, nat>, e: DirEntry, v: nat)
    ensures m[e := v] - {e} == m - {e}
  {
  }

  /** Two maps equal away from one key agree on every other key. */
  lemma SameOutside<K, V>(m1: map<K, V>, m2: map<K, V>, x: K)
    requires m1 - {x} == m2 - {x}
    ensures forall e :: e != x ==> (e in m1 <==> e in m2)
    ensures forall e :: e != x && e in m1 ==> m1[e] == m2[e]
  {
    forall e | e != x
      ensures (e in m1 <==> e in m2) && (e in m1 ==> m1[e] == m2[e])
    {
      assert e in m1 <==> e in m1 - {x};
      assert e in m2 <==> e in m2 - {x};
      if e in m1 {
        assert m1[e] == (m1 - {x})[e];
        assert m2[e] == (m2 - {x})[e];
      }
    }
  }

  /** Every file of d1 other than a segment file was in d0 with the same size. */
  ghost predicate OthersKept(d0: map<DirEntry, nat>, d1: map<DirEntry, nat>) {
    forall e :: e in d1 && !e.Segment? ==> e in d0 && d1[e] == d0[e]
  }

  lemma OthersKeptTransitive(a: map<DirEntry, nat>, b: map<DirEntry, nat>, c: map<DirEntry, nat>)
    requires OthersKept(a, b) && OthersKept(b, c)
    ensures OthersKept(a, c)
  {
  }

  /** A directory that was empty, and changed at most in its key file, holds no
      segment file. */
  lemma OnlyKeyAdded(d0: map<DirEntry, nat>, d1: map<DirEntry, nat>)
    requires d0 == map[] && d1 - {KeyFile} == d0 - {KeyFile}
    ensures forall e :: e in d1 ==> !e.Segment?
  {
    forall e | e in d1 ensures e == KeyFile {
      assert (e in d1 - {KeyFile}) == (e != KeyFile);
    }
  }

  lemma RemoveTwice(m: map<DirEntry, nat>, e: DirEntry)
    ensures (m - {e}) - {e} == m - {e}
  {
  }

  lemma PrefixTransitive<T>(a: seq<T>, b: seq<T>, c: seq<T>)
    requires a <= b && b <= c
    ensures a <= c
  {
    assert c[..|b|][..|a|] == c[..|a|];
  }

  lemma RepeatCons(u: string, m: nat)
    ensures [u] + Repeat(u, m) == Repeat(u, m + 1)
  {
  }

  /** A proper extension of a begins with a and its next element. */
  lemma PrefixSnoc<T>(a: seq<T>, b: seq<T>)
    requires a <= b && |b| > |a|
    ensures a + [b[|a|]] <= b
  {
    assert b[..|a| + 1] == a + [b[|a|]];
  }

  lemma ConcatAssoc<T>(a: seq<T>, b: seq<T>, c: seq<T>)
    ensures (a + b) + c == a + (b + c)
  {
  }

  lemma AppendAssoc<T>(a: seq<T>, b: seq<T>, x: T)
    ensures (a + b) + [x] == a + (b + [x])
  {
  }

  lemma PrefixOfConcat<T>(a: seq<T>, b: seq<T>)
    ensures a <= a + b
  {
    assert (a + b)[..|a|] == a;
  }

  /** ds records a decision only for key directives, a redirect only with the
      rewritten directive, and at most one redirect. */
  ghost predicate DecisionsOk(lines: seq<string>, ds: seq<KeyDecision>, name: string, outOfBand: bool)
    decreases |ds|
  {
    |ds| <= |lines| &&
    (|ds| > 0 ==>
       var n := |ds| - 1;
       DecisionsOk(lines, ds[..n], name, outOfBand) &&
       (!ds[n].Keep? ==> IsKeyDirective(lines[n])) &&
       (ds[n].Redirect? ==>
          MatchUri(lines[n]).Some? && ds[n].line == RedirectKeyLine(lines[n], name, outOfBand) &&
          !HasRedirect(ds[..n])))
  }

  /** Some decision in ds is a redirect. */
  ghost predicate HasRedirect(ds: seq<KeyDecision>)
    decreases |ds|
  {
    |ds| > 0 && (ds[|ds| - 1].Redirect? || HasRedirect(ds[..|ds| - 1]))
  }

  lemma DecisionsOkSnoc(lines: seq<string>, ds: seq<KeyDecision>, d: KeyDecision, name: string, outOfBand: bool)
    requires DecisionsOk(lines, ds, name, outOfBand) && |ds| < |lines|
    requires !d.Keep? ==> IsKeyDirective(lines[|ds|])
    requires d.Redirect? ==>
               MatchUri(lines[|ds|]).Some? && d.line == RedirectKeyLine(lines[|ds|], name, outOfBand) &&
               !HasRedirect(ds)
    ensures DecisionsOk(lines, ds + [d], name, outOfBand)
    ensures HasRedirect(ds + [d]) <==> HasRedirect(ds) || d.Redirect?
  {
    assert (ds + [d])[..|ds|] == ds;
  }

  lemma {:induction false} DecisionsOkPad(lines: seq<string>, ds: seq<KeyDecision>, extra: nat, name: string, outOfBand: bool)
    requires DecisionsOk(lines, ds, name, outOfBand) && |ds| + extra <= |lines|
    ensures DecisionsOk(lines, ds + seq(extra, _ => Keep), name, outOfBand)
    ensures HasRedirect(ds + seq(extra, _ => Keep)) <==> HasRedirect(ds)
    decreases extra
  {
    if extra > 0 {
      DecisionsOkPad(lines, ds, extra - 1, name, outOfBand);
      var p := ds + seq(extra - 1, _ => Keep);
      assert ds + seq(extra, _ => Keep) == p + [Keep];
      DecisionsOkSnoc(lines, p, Keep, name, outOfBand);
    } else {
      assert ds + seq(extra, _ => Keep) == ds;
    }
  }

  /** One step of get_ts_url's loop, as the walk's invariant sees it: the
      rewrite, the collected segment URIs and the recorded decisions all grow
      by the line just visited. */
  lemma WalkStep(lines: seq<string>, ds: seq<KeyDecision>, d: KeyDecision, st: RewriteState,
                 base: string, front: string, ts0: seq<string>, tsBefore: seq<string>, tsAfter: seq<string>,
                 name: string, outOfBand: bool)
    requires |ds| < |lines| && Rewrite(lines[..|ds|], ds) == st && !st.stopped
    requires tsBefore == ts0 + ResolveAll(base, front, st.segs)
    requires !Contains(lines[|ds|], "#") ==> tsAfter == tsBefore + [Resolve(base, front, lines[|ds|])]
    requires Contains(lines[|ds|], "#") ==> tsAfter == tsBefore
    requires DecisionsOk(lines, ds, name, outOfBand)
    requires !d.Keep? ==> IsKeyDirective(lines[|ds|])
    requires d.Redirect? ==>
               MatchUri(lines[|ds|]).Some? && d.line == RedirectKeyLine(lines[|ds|], name, outOfBand) &&
               !HasRedirect(ds)
    ensures Rewrite(lines[..|ds| + 1], ds + [d]) == RewriteStep(st, lines[|ds|], d)
    ensures tsAfter == ts0 + ResolveAll(base, front, RewriteStep(st, lines[|ds|], d).segs)
    ensures DecisionsOk(lines, ds + [d], name, outOfBand)
    ensures HasRedirect(ds + [d]) <==> HasRedirect(ds) || d.Redirect?
  {
    var line := lines[|ds|];
    RewriteSnoc(lines, ds, d, |ds|);
    DecisionsOkSnoc(lines, ds, d, name, outOfBand);
    RewriteStepSegs(st, line, d);
    if !Contains(line, "#") {
      ResolveAllSnoc(base, front, st.segs, line);
      AppendAssoc(ts0, ResolveAll(base, front, st.segs), Resolve(base, front, line));
    }
  }

  /** The state of get_ts_url's walk after the lines ds decided: st is the
      rewrite so far, the segment list ts grew from ts0 by the resolved segment
      URIs met, the directory changed at most in its key file (present once a
      directive was redirected), and the replies were consumed in order, none
      of them unless some line is a key directive. */
  ghost predicate Walked(lines: seq<string>, ds: seq<KeyDecision>, st: RewriteState, base: string, front: string,
                         name: string, outOfBand: bool,
                         ts0: seq<string>, dir0: map<DirEntry, nat>, replies0: seq<Reply>, req0: seq<string>,
                         ts: seq<string>, dir: map<DirEntry, nat>, replies: seq<Reply>, req: seq<string>)
  {
    WalkedRewrite(lines, ds, st, base, front, name, outOfBand, ts0, ts) &&
    WalkedEnv(lines, ds, dir0, replies0, req0, dir, replies, req)
  }

  /** The rewrite half of Walked: the decisions so far replay to st and the
      segment list grew by st's segment URIs, resolved. */
  ghost predicate WalkedRewrite(lines: seq<string>, ds: seq<KeyDecision>, st: RewriteState, base: string, front: string,
                                name: string, outOfBand: bool, ts0: seq<string>, ts: seq<string>)
  {
    |ds| <= |lines| && Rewrite(lines[..|ds|], ds) == st &&
    ts == ts0 + ResolveAll(base, front, st.segs) &&
    DecisionsOk(lines, ds, name, outOfBand)
  }

  /** The environment half of Walked: what happened to the directory, the
      replies and the requests while the lines ds were visited. */
  ghost predicate WalkedEnv(lines: seq<string>, ds: seq<KeyDecision>,
                            dir0: map<DirEntry, nat>, replies0: seq<Reply>, req0: seq<string>,
                            dir: map<DirEntry, nat>, replies: seq<Reply>, req: seq<string>)
  {
    dir - {KeyFile} == dir0 - {KeyFile} &&
    Consumed(replies0, replies) && req0 <= req &&
    (HasRedirect(ds) ==> KeyFile in dir) &&
    (KeyFile in dir0 ==> KeyFile in dir && !HasRedirect(ds)) &&
    (NoKeyDirectives(lines) ==> req == req0)
  }

  /** The walk's state survives a visit to the next line that decided d
      without raising. */
  lemma WalkedAdvance(lines: seq<string>, ds: seq<KeyDecision>, d: KeyDecision, st: RewriteState,
                      base: string, front: string, name: string, outOfBand: bool,
                      ts0: seq<string>, dir0: map<DirEntry, nat>, replies0: seq<Reply>, req0: seq<string>,
                      ts1: seq<string>, dir1: map<DirEntry, nat>, replies1: seq<Reply>, req1: seq<string>,
                      ts2: seq<string>, dir2: map<DirEntry, nat>, replies2: seq<Reply>, req2: seq<string>)
    requires |ds| < |lines| && !st.stopped
    requires Walked(lines, ds, st, base, front, name, outOfBand, ts0, dir0, replies0, req0, ts1, dir1, replies1, req1)
    requires dir2 - {KeyFile} == dir1 - {KeyFile} && Consumed(replies1, replies2) && req1 <= req2
    requires KeyFile in dir1 ==> KeyFile in dir2 && !d.Redirect?
    requires !IsKeyDirective(lines[|ds|]) ==> req2 == req1
    requires !d.Keep? ==> IsKeyDirective(lines[|ds|])
    requires d.Redirect? ==>
               MatchUri(lines[|ds|]).Some? && d.line == RedirectKeyLine(lines[|ds|], name, outOfBand) &&
               KeyFile in dir2
    requires !Contains(lines[|ds|], "#") ==> ts2 == ts1 + [Resolve(base, front, lines[|ds|])]
    requires Contains(lines[|ds|], "#") ==> ts2 == ts1
    ensures Walked(lines, ds + [d], RewriteStep(st, lines[|ds|], d), base, front, name, outOfBand,
                   ts0, dir0, replies0, req0, ts2, dir2, replies2, req2)
  {
    ConsumedTransitive(replies0, replies1, replies2);
    PrefixTransitive(req0, req1, req2);
    WalkStep(lines, ds, d, st, base, front, ts0, ts1, ts2, name, outOfBand);
    assert NoKeyDirectives(lines) ==> !IsKeyDirective(lines[|ds|]);
  }

  /** The walk's state survives a visit to the next line that raised: only
      the directory and the replies moved. */
  lemma WalkedRaise(lines: seq<string>, ds: seq<KeyDecision>, st: RewriteState,
                    base: string, front: string, name: string, outOfBand: bool,
                    ts0: seq<string>, dir0: map<DirEntry, nat>, replies0: seq<Reply>, req0: seq<string>,
                    ts1: seq<string>, dir1: map<DirEntry, nat>, replies1: seq<Reply>, req1: seq<string>,
                    dir2: map<DirEntry, nat>, replies2: seq<Reply>, req2: seq<string>)
    requires |ds| < |lines|
    requires Walked(lines, ds, st, base, front, name, outOfBand, ts0, dir0, replies0, req0, ts1, dir1, replies1, req1)
    requires dir2 - {KeyFile} == dir1 - {KeyFile} && Consumed(replies1, replies2) && req1 <= req2
    requires KeyFile in dir1 ==> KeyFile in dir2
    requires !IsKeyDirective(lines[|ds|]) ==> req2 == req1
    ensures Walked(lines, ds, st, base, front, name, outOfBand, ts0, dir0, replies0, req0, ts1, dir2, replies2, req2)
  {
    ConsumedTransitive(replies0, replies1, replies2);
    PrefixTransitive(req0, req1, req2);
    assert NoKeyDirectives(lines) ==> !IsKeyDirective(lines[|ds|]);
  }

  /** Once the rewrite has stopped, the remaining lines get no decision. */
  lemma PadStopped(lines: seq<string>, done: seq<KeyDecision>, name: string, outOfBand: bool)
    returns (ds: seq<KeyDecision>)
    requires |done| <= |lines| && Rewrite(lines[..|done|], done).stopped
    requires DecisionsOk(lines, done, name, outOfBand)
    ensures |ds| == |lines| && Rewrite(lines, ds) == Rewrite(lines[..|done|], done)
    ensures DecisionsOk(lines, ds, name, outOfBand) && (HasRedirect(ds) <==> HasRedirect(done))
  {
    ds := done + seq(|lines| - |done|, _ => Keep);
    assert ds[..|done|] == done;
    RewriteStoppedStays(lines, ds, |done|);
    DecisionsOkPad(lines, done, |lines| - |done|, name, outOfBand);
  }

  /** After the walk: a decision for every line, the later ones Keep. */
  lemma FinishWalk(lines: seq<string>, done: seq<KeyDecision>, out: seq<OutLine>, segs: seq<string>,
                   stopped: bool, name: string, outOfBand: bool)
    returns (ds: seq<KeyDecision>)
    requires |done| <= |lines| && (!stopped ==> |done| == |lines|)
    requires Rewrite(lines[..|done|], done) == RewriteState(out, segs, stopped)
    requires DecisionsOk(lines, done, name, outOfBand)
    ensures |ds| == |lines| && Rewrite(lines, ds) == RewriteState(out, segs, stopped)
    ensures DecisionsOk(lines, ds, name, outOfBand) && (HasRedirect(ds) <==> HasRedirect(done))
    ensures NoKeyDirectives(lines) ==> ds == Keeps(|lines|)
  {
    if stopped {
      ds := PadStopped(lines, done, name, outOfBand);
    } else {
      ds := done;
      assert lines[..|ds|] == lines;
    }
    if NoKeyDirectives(lines) {
      DecisionsOkNoKeys(lines, ds, name, outOfBand);
    }
  }

  predicate NoKeyDirectives(lines: seq<string>) {
    forall i :: 0 <= i < |lines| ==> !IsKeyDirective(lines[i])
  }

  /** Every key directive carries a quoted URI, so walking the playlist cannot raise. */
  predicate KeyUrisPresent(lines: seq<string>) {
    forall i :: 0 <= i < |lines| && IsKeyDirective(lines[i]) ==> MatchUri(lines[i]).Some?
  }

  /** No decision for any line. */
  function Keeps(n: nat): (ds: seq<KeyDecision>)
    ensures |ds| == n
  {
    seq(n, _ => Keep)
  }

  /** Without key directives every decision is Keep. */
  lemma {:induction false} DecisionsOkNoKeys(lines: seq<string>, ds: seq<KeyDecision>, name: string, outOfBand: bool)
    requires DecisionsOk(lines, ds, name, outOfBand) && NoKeyDirectives(lines)
    ensures ds == Keeps(|ds|)
    decreases |ds|
  {
    if |ds| > 0 {
      var n := |ds| - 1;
      DecisionsOkNoKeys(lines, ds[..n], name, outOfBand);
      assert ds == ds[..n] + [ds[n]];
      assert Keeps(|ds|) == Keeps(n) + [Keep];
    }
  }

  /** `res.url.split(res.request.path_url)[0]`: the scheme and host the reply came from. */
  function Origin(r: Reply): string
    requires r.Answer? && |r.pathUrl| > 0
  {
    Split(r.finalUrl, r.pathUrl)[0]
  }

  /** A playlist reply get_m3u8_info takes as a media playlist. */
  predicate IsMediaReply(r: Reply) {
    r.Answer? && |r.pathUrl| > 0 && !Contains(r.text, "EXT-X-STREAM-INF")
  }

  /** A playlist reply get_m3u8_info takes as a master playlist. */
  predicate IsMasterReply(r: Reply) {
    r.Answer? && |r.pathUrl| > 0 && Contains(r.text, "EXT-X-STREAM-INF")
  }

  lemma PercentLe(a: nat, b: nat, t: nat)
    requires a <= b && t > 0
    ensures Percent(a, t) <= Percent(b, t)
  {
    MulMonotone(a, b, 100);
    DivMonotone(100 * a, 100 * b, t);
  }

  /** The percentage of the last report, 0 before any. */
  function LastPercent(rs: seq<Report>): int {
    if rs == [] then 0 else rs[|rs| - 1].percent
  }

  /** Segment progress reports: positive, without path and size, strictly
      increasing, and ending with the current progress (0 before any report). */
  ghost predicate ReportsOk(rs: seq<Report>, progress: int) {
    (forall i :: 0 <= i < |rs| ==> rs[i].path.None? && rs[i].size.None? && rs[i].percent > 0) &&
    (forall i, j :: 0 <= i < j < |rs| ==> rs[i].percent < rs[j].percent) &&
    progress == (if |rs| == 0 then 0 else rs[|rs| - 1].percent)
  }

  /** No report yet: the log is well formed at progress 0. */
  lemma ReportsOkEmpty()
    ensures ReportsOk([], 0)
  {
  }

  /** A report of a higher percentage keeps the log well formed. */
  lemma ReportsOkSnoc(rs: seq<Report>, progress: int, pro: int)
    requires ReportsOk(rs, progress) && pro > progress && progress >= 0
    ensures ReportsOk(rs + [Report(pro, None, None)], pro)
  {
    var rs' := rs + [Report(pro, None, None)];
    forall i, j | 0 <= i < j < |rs'| ensures rs'[i].percent < rs'[j].percent {
      if j < |rs| {
        assert rs'[i] == rs[i] && rs'[j] == rs[j];
      } else {
        assert rs'[i] == rs[i];
        if i < |rs| - 1 {
          assert rs[i].percent < rs[|rs| - 1].percent;
        }
      }
    }
  }

  /** The sum of the sizes of the files in a directory, one file at a time:
      the loop over os.listdir at lines 85-86 of m3u8.py. */
  method SumSizes(files: map<DirEntry, nat>) returns (total: nat)
    ensures total == DirSize(files)
  {
    total := 0;
    var rest := files;
    while rest != map[]
      invariant total + DirSize(rest) == DirSize(files)
      decreases |rest|
    {
      var e :| e in rest;
      DirSizeRemove(rest, e);
      total := total + rest[e];
      rest := rest - {e};
    }
  }

  // ---------------------------------------------------------------------------
  // The downloader

  class M3u8Download {
    // The job, as the source's own fields.
    var url: string
    var frontUrl: Option<string>
    var tsUrlList: seq<string>
    var successSum: nat
    var tsSum: nat
    var progress: int
    const name: string
    const shortPath: string
    const numRetries: int
    const key: seq<byte>

    // Its environment: the reply script, the URLs requested so far, the segment
    // directory `<anime>/ep<n>/` with its files, the manifest `<anime>/ep<n>.m3u8`,
    // and the progress reports made.
    var replies: seq<Reply>
    var requested: seq<string>
    var dirExists: bool
    var dir: map<DirEntry, nat>
    var manifest: Option<seq<OutLine>>
    var reports: seq<Report>
    /** For each segment file written, the URI it was fetched from. */
    ghost var fetchedFrom: map<nat, string>

    /** While segments are fetched: the directory holds files only if it exists,
        progress is the integer percentage of counted segments, and the reports
        made so far are positive, strictly increasing and end with the current
        progress. */
    ghost predicate Valid()
      reads this`dirExists, this`dir, this`tsUrlList, this`tsSum, this`successSum, this`progress, this`reports
    {
      (!dirExists ==> dir == map[]) &&
      (|tsUrlList| > 0 ==> dirExists) &&
      (if tsSum > 0 then progress == Percent(successSum, tsSum) else progress == 0) &&
      Reported()
    }

    /** The progress reports made so far are well formed and end with the current progress. */
    ghost predicate Reported()
      reads this`reports, this`progress
    {
      ReportsOk(reports, progress)
    }

    /** Every segment file present is `k.ts` for an index k of the segment list
        and holds what was fetched from the k-th listed URI. */
    ghost predicate FilesFromList()
      reads this`dir, this`tsUrlList, this`fetchedFrom
    {
      forall e :: e in dir && e.Segment? ==>
        e.index < |tsUrlList| && e.index in fetchedFrom && fetchedFrom[e.index] == Lines(tsUrlList[e.index])[0]
    }

    twostate predicate JobUnchanged()
      reads this`url, this`frontUrl, this`tsUrlList, this`successSum, this`tsSum, this`progress, this`reports
    {
      url == old(url) && frontUrl == old(frontUrl) && tsUrlList == old(tsUrlList) &&
      successSum == old(successSum) && tsSum == old(tsSum) && progress == old(progress) &&
      reports == old(reports)
    }

    /** What every step of get_m3u8_info keeps: the invariant, with no
        segment counted and no progress; replies are only consumed, requests
        and playlist URLs only appended, and the directory changes in the key
        file at most. */
    twostate predicate TryKept()
      reads this`dirExists, this`dir, this`tsUrlList, this`tsSum, this`successSum, this`progress, this`reports,
            this`replies, this`requested
    {
      Valid() && successSum == 0 && progress == 0 && reports == old(reports) &&
      Consumed(old(replies), replies) && old(requested) <= requested &&
      old(tsUrlList) <= tsUrlList && (old(dirExists) ==> dirExists) &&
      dir - {KeyFile} == old(dir) - {KeyFile}
    }

    /** What fetching the key may change: the key file alone in the
        directory; replies are only consumed and requests only appended. */
    twostate predicate KeyFrame()
      reads this`dir, this`replies, this`requested
    {
      Consumed(old(replies), replies) && old(requested) <= requested && dir - {KeyFile} == old(dir) - {KeyFile}
    }

    /** What downloading segment k may change: the invariant holds, only
        `k.ts` and the URI recorded for k change, replies are only consumed,
        requests and progress reports only appended, and the count of
        segments done only grows. */
    twostate predicate SegmentFrame(k: nat)
      reads this`dirExists, this`dir, this`tsUrlList, this`tsSum, this`successSum, this`progress, this`reports,
            this`replies, this`requested, this`fetchedFrom
    {
      Valid() && fetchedFrom - {k} == old(fetchedFrom) - {k} && dir - {Segment(k)} == old(dir) - {Segment(k)} &&
      Consumed(old(replies), replies) && old(requested) <= requested &&
      old(reports) <= reports && old(successSum) <= successSum
    }

    /** The outcome of walking a media playlist's lines against the origin
        `front`: a key directive without a URI raises with the manifest and the
        segment total untouched; otherwise there is one decision per line, the
        manifest is the rewritten playlist, the total counts its segments and
        their URLs are resolved and listed, each decision being the one
        get_ts_url makes (no redirect when the key file was there already).
        Without key directives nothing is requested and every line is kept. */
    twostate predicate PlaylistWalked(lines: seq<string>, front: string, raised: bool, ds: seq<KeyDecision>)
      reads this`tsSum, this`manifest, this`tsUrlList, this`url, this`dir, this`requested
    {
      (raised ==>
         tsSum == old(tsSum) && manifest == old(manifest) &&
         exists i :: 0 <= i < |lines| && IsKeyDirective(lines[i]) && MatchUri(lines[i]).None?) &&
      (!raised ==>
         |ds| == |lines| &&
         manifest == Some(Rewrite(lines, ds).out) && tsSum == |Rewrite(lines, ds).segs| &&
         tsUrlList == old(tsUrlList) + ResolveAll(url, front, Rewrite(lines, ds).segs) &&
         DecisionsOk(lines, ds, name, |key| > 0) && (KeyFile in old(dir) ==> !HasRedirect(ds))) &&
      (NoKeyDirectives(lines) ==> !raised && ds == Keeps(|lines|) && requested == old(requested))
    }

    /** Every field of the job and its environment except the reply script and
        the requests, as one value. */
    ghost function Snapshot(): Snap
      reads this`url, this`frontUrl, this`tsUrlList, this`successSum, this`tsSum, this`progress, this`reports,
            this`manifest, this`dir, this`dirExists
    {
      Snap(url, frontUrl, tsUrlList, successSum, tsSum, progress, reports, manifest, dir, dirExists)
    }

    /** Nothing but the requests changed, and those by `sent`. */
    twostate predicate Untouched(sent: seq<string>)
      reads this`url, this`frontUrl, this`tsUrlList, this`successSum, this`tsSum, this`progress, this`reports,
            this`requested, this`manifest, this`dir, this`dirExists
    {
      requested == old(requested) + sent && Snapshot() == old(Snapshot())
    }

    /** A media playlist r without key lines was walked after the requests
        `before`, the URL being `url0` and the segment list `ts0`: the URL is
        kept, the origin recorded, the manifest is the rewritten playlist and
        every segment URL is resolved and listed. */
    ghost predicate MediaWalked(r: Reply, before: seq<string>, url0: string, ts0: seq<string>)
      requires r.Answer? && |r.pathUrl| > 0
      reads this`requested, this`url, this`frontUrl, this`manifest, this`tsSum, this`tsUrlList
    {
      var lines := Lines(r.text);
      var st := Rewrite(lines, Keeps(|lines|));
      requested == before && url == url0 &&
      frontUrl == Some(Origin(r)) && manifest == Some(st.out) &&
      tsSum == |st.segs| &&
      tsUrlList == ts0 + ResolveAll(url, Origin(r), st.segs)
    }

    /** A media playlist r whose key directives all carry a URI was walked
        with decisions ds after the requests `before` (key fetches may follow
        them), the URL being `url0`, the segment list `ts0` and the directory
        `dir0`: the URL is kept, the origin recorded, one decision per line as
        get_ts_url makes it, the manifest is the rewritten playlist and every
        segment URL is resolved and listed. */
    ghost predicate KeyedWalked(r: Reply, before: seq<string>, url0: string, ts0: seq<string>,
                                dir0: map<DirEntry, nat>, ds: seq<KeyDecision>)
      requires r.Answer? && |r.pathUrl| > 0
      reads this`requested, this`url, this`frontUrl, this`manifest, this`tsSum, this`tsUrlList
    {
      var lines := Lines(r.text);
      before <= requested && url == url0 && frontUrl == Some(Origin(r)) &&
      |ds| == |lines| && manifest == Some(Rewrite(lines, ds).out) && tsSum == |Rewrite(lines, ds).segs| &&
      tsUrlList == ts0 + ResolveAll(url, Origin(r), Rewrite(lines, ds).segs) &&
      DecisionsOk(lines, ds, name, |key| > 0) && (KeyFile in dir0 ==> !HasRedirect(ds))
    }

    /** What get_m3u8_info(u, n) promises, started on the script rs0 with the
        requests req0 and the fields snap0: u is requested first, the script
        running out of answers within the budget leaves everything else as it
        was, and otherwise the first answer is handled as one try. */
    ghost predicate Tried(u: string, n: int, rs0: seq<Reply>, req0: seq<string>, snap0: Snap, ds: seq<KeyDecision>)
      reads this`url, this`frontUrl, this`tsUrlList, this`successSum, this`tsSum, this`progress, this`reports,
            this`requested, this`manifest, this`dir, this`dirExists
      decreases |rs0|, 2
    {
      req0 + [u] <= requested && TriedOut(u, n, rs0, req0, snap0) && TriedFirst(u, n, rs0, req0, snap0, ds)
    }

    /** With j the number of refused replies at the head of rs0: when j
        exceeds the budget, or every reply is refused, u is requested exactly
        Budget(n) + 1 times and nothing else changes. */
    ghost predicate TriedOut(u: string, n: int, rs0: seq<Reply>, req0: seq<string>, snap0: Snap)
      reads this`url, this`frontUrl, this`tsUrlList, this`successSum, this`tsSum, this`progress, this`reports,
            this`requested, this`manifest, this`dir, this`dirExists
    {
      var j := LeadingRefused(rs0);
      j > Budget(n) || j == |rs0| ==> requested == req0 + Repeat(u, Budget(n) + 1) && Snapshot() == snap0
    }

    /** Otherwise u is requested j + 1 times and the reply after the refused
        ones is handled as one try. */
    ghost predicate TriedFirst(u: string, n: int, rs0: seq<Reply>, req0: seq<string>, snap0: Snap, ds: seq<KeyDecision>)
      reads this`url, this`frontUrl, this`tsUrlList, this`successSum, this`tsSum, this`progress, this`reports,
            this`requested, this`manifest, this`dir, this`dirExists
      decreases |rs0|, 1
    {
      var j := LeadingRefused(rs0);
      j <= Budget(n) && j < |rs0| ==> Handled(rs0[j], rs0[j + 1..], req0 + Repeat(u, j + 1), snap0, ds)
    }

    /** The answer r, taken after the requests `before` from the fields snap0
        with the script `rest` left after it, was handled as one try: for a
        master playlist, the URL moved to its last variant v (resolved against
        the URL of snap0 and the origin of r) and get_m3u8_info(v) ran on the
        rest of the script with a fresh budget; a media playlist whose key
        directives carry URIs was walked with decisions ds. */
    ghost predicate Handled(r: Reply, rest: seq<Reply>, before: seq<string>, snap0: Snap, ds: seq<KeyDecision>)
      requires !Refused(r)
      reads this`url, this`frontUrl, this`tsUrlList, this`successSum, this`tsSum, this`progress, this`reports,
            this`requested, this`manifest, this`dir, this`dirExists
      decreases |rest| + 1, 0
    {
      before <= requested &&
      (IsMasterReply(r) ==>
         var v := SelectVariant(snap0.url, Origin(r), Lines(r.text));
         Tried(v, numRetries, rest, before, snap0.(url := v, frontUrl := Some(Origin(r))), ds)) &&
      (IsMediaReply(r) && NoKeyDirectives(Lines(r.text)) ==>
         MediaWalked(r, before, snap0.url, snap0.tsUrlList)) &&
      (IsMediaReply(r) && KeyUrisPresent(Lines(r.text)) ==>
         KeyedWalked(r, before, snap0.url, snap0.tsUrlList, snap0.dir, ds))
    }

    /** A refused reply at the head of the script costs one request of u and
        one unit of budget: what the retry with budget n - 1 promises from
        there is what get_m3u8_info(u, n) promises from before the refused try. */
    lemma RetryShift(u: string, n: int, rs0: seq<Reply>, req0: seq<string>, snap0: Snap, ds: seq<KeyDecision>)
      requires n > 0 && (rs0 == [] || Refused(rs0[0])) && req0 + [u] <= requested
      requires Tried(u, n - 1, if rs0 == [] then [] else rs0[1..], req0 + [u], snap0, ds)
      ensures Tried(u, n, rs0, req0, snap0, ds)
    {
      var rest := if rs0 == [] then [] else rs0[1..];
      RetryShiftOut(u, n, rs0, rest, req0, snap0);
      RetryShiftFirst(u, n, rs0, rest, req0, snap0, ds);
    }

    /** RetryShift for the case where the script runs out of answers within the budget. */
    lemma RetryShiftOut(u: string, n: int, rs0: seq<Reply>, rest: seq<Reply>, req0: seq<string>, snap0: Snap)
      requires n > 0 && (rs0 == [] || Refused(rs0[0])) && rest == (if rs0 == [] then [] else rs0[1..])
      requires TriedOut(u, n - 1, rest, req0 + [u], snap0)
      ensures TriedOut(u, n, rs0, req0, snap0)
    {
      var j := LeadingRefused(rs0);
      assert j > 0 ==> LeadingRefused(rest) == j - 1;
      RepeatCons(u, Budget(n - 1) + 1);
      ConcatAssoc(req0, [u], Repeat(u, Budget(n - 1) + 1));
    }

    /** RetryShift for the first answer after the refused replies. */
    lemma RetryShiftFirst(u: string, n: int, rs0: seq<Reply>, rest: seq<Reply>, req0: seq<string>, snap0: Snap,
                          ds: seq<KeyDecision>)
      requires n > 0 && (rs0 == [] || Refused(rs0[0])) && rest == (if rs0 == [] then [] else rs0[1..])
      requires TriedFirst(u, n - 1, rest, req0 + [u], snap0, ds)
      ensures TriedFirst(u, n, rs0, req0, snap0, ds)
    {
      var j := LeadingRefused(rs0);
      if j <= Budget(n) && j < |rs0| {
        assert LeadingRefused(rest) == j - 1 && rest[j - 1] == rs0[j] && rest[j..] == rs0[j + 1..];
        RepeatCons(u, j);
        ConcatAssoc(req0, [u], Repeat(u, j));
      }
    }

    /** A master playlist is handled once get_m3u8_info has run on its variant
        from the fields snap1, those of snap0 with the origin of r recorded. */
    lemma HandledMaster(r: Reply, rest: seq<Reply>, before: seq<string>, snap0: Snap, snap1: Snap,
                        ds: seq<KeyDecision>)
      requires IsMasterReply(r) && before <= requested && snap1 == snap0.(frontUrl := Some(Origin(r)))
      requires var v := SelectVariant(snap0.url, Origin(r), Lines(r.text));
               Tried(v, numRetries, rest, before, snap1.(url := v), ds)
      ensures Handled(r, rest, before, snap0, ds)
    {
    }

    /** The usual start of a job: the script answers a master playlist m and
        then a media playlist md without key directives. get_m3u8_info(u, n)
        then requests u and the variant v of m, and the URL, the origin, the
        manifest and the segment list all come from md, resolved against v. */
    lemma MasterThenMedia(u: string, n: int, m: Reply, md: Reply, more: seq<Reply>, req0: seq<string>,
                          snap0: Snap, ds: seq<KeyDecision>)
      requires IsMasterReply(m) && IsMediaReply(md) && NoKeyDirectives(Lines(md.text))
      requires Tried(u, n, [m, md] + more, req0, snap0, ds)
      ensures var v := SelectVariant(snap0.url, Origin(m), Lines(m.text));
              var st := Rewrite(Lines(md.text), Keeps(|Lines(md.text)|));
              requested == req0 + [u, v] && url == v && frontUrl == Some(Origin(md)) &&
              manifest == Some(st.out) && tsSum == |st.segs| &&
              tsUrlList == snap0.tsUrlList + ResolveAll(v, Origin(md), st.segs)
    {
      var v := SelectVariant(snap0.url, Origin(m), Lines(m.text));
      var rs0, rest := [m, md] + more, [md] + more;
      assert rs0[0] == m && rs0[1..] == rest;
      FirstHandled(u, n, rs0, req0, snap0, ds);
      var snap1 := snap0.(url := v, frontUrl := Some(Origin(m)));
      assert Tried(v, numRetries, rest, req0 + [u], snap1, ds);
      assert rest[0] == md && rest[1..] == more;
      FirstHandled(v, numRetries, rest, req0 + [u], snap1, ds);
      assert MediaWalked(md, req0 + [u] + [v], v, snap0.tsUrlList);
      assert req0 + [u] + [v] == req0 + [u, v];
    }

    /** A first reply that is not refused is handled after one request. */
    lemma FirstHandled(u: string, n: int, rs0: seq<Reply>, req0: seq<string>, snap0: Snap, ds: seq<KeyDecision>)
      requires rs0 != [] && !Refused(rs0[0]) && Tried(u, n, rs0, req0, snap0, ds)
      ensures Handled(rs0[0], rs0[1..], req0 + [u], snap0, ds)
    {
      assert LeadingRefused(rs0) == 0 && Repeat(u, 1) == [u];
    }

    /** A first reply that is not refused is the one handled, after one request. */
    lemma TriedAnswered(u: string, n: int, rs0: seq<Reply>, req0: seq<string>, snap0: Snap, ds: seq<KeyDecision>)
      requires req0 + [u] <= requested && rs0 != [] && !Refused(rs0[0])
      requires Handled(rs0[0], rs0[1..], req0 + [u], snap0, ds)
      ensures Tried(u, n, rs0, req0, snap0, ds)
    {
      assert LeadingRefused(rs0) == 0 && Repeat(u, 1) == [u];
    }

    /** A refused first reply with no budget left ends get_m3u8_info after one
        request, with nothing else changed. */
    lemma TriedRefused(u: string, n: int, rs0: seq<Reply>, req0: seq<string>, snap0: Snap, ds: seq<KeyDecision>)
      requires n <= 0 && (rs0 == [] || Refused(rs0[0]))
      requires requested == req0 + [u] && Snapshot() == snap0
      ensures Tried(u, n, rs0, req0, snap0, ds)
    {
      assert Budget(n) == 0 && Repeat(u, 1) == [u];
    }

    /** The field set-up of __init__; the work it goes on to do is Run. */
    constructor (url: string, animeId: string, episodeIdClean: string, numRetries: int,
                 key: seq<byte>, replies: seq<Reply>, dirExists: bool,
                 dir: map<DirEntry, nat>, manifest: Option<seq<OutLine>>)
      requires dirExists || dir == map[]
      ensures this.url == url && frontUrl == None && tsUrlList == [] && successSum == 0
      ensures tsSum == 0 && progress == 0 && reports == []
      ensures name == "ep" + episodeIdClean && shortPath == PathJoin(animeId, name)
      ensures this.numRetries == numRetries && this.key == key
      ensures this.replies == replies && requested == []
      ensures this.dirExists == dirExists && this.dir == dir && this.manifest == manifest
      ensures fetchedFrom == map[]
      ensures Valid()
    {
      this.url := url;
      frontUrl := None;
      tsUrlList := [];
      successSum := 0;
      tsSum := 0;
      progress := 0;
      var ep := "ep" + episodeIdClean;
      name := ep;
      shortPath := PathJoin(animeId, ep);
      this.numRetries := numRetries;
      this.key := key;
      this.replies := replies;
      requested := [];
      this.dirExists := dirExists;
      this.dir := dir;
      this.manifest := manifest;
      reports := [];
      fetchedFrom := map[];
      new;
      ReportsOkEmpty();
    }

    /** One HTTP GET: the next scripted reply, or an exception once the script is used up. */
    method Fetch(u: string) returns (r: Reply)
      modifies this`replies, this`requested
      ensures requested == old(requested) + [u]
      ensures old(replies) == [] ==> r == Raise && replies == []
      ensures old(replies) != [] ==> r == old(replies)[0] && replies == old(replies)[1..]
      ensures Consumed(old(replies), replies)
    {
      requested := requested + [u];
      if replies == [] {
        r := Raise;
      } else {
        r := replies[0];
        replies := replies[1..];
      }
    }

    /** delete_file: list the segment directory (raising when it is absent), remove
        its files and the directory, then remove the manifest (raising when it is
        absent). */
    method DeleteFile() returns (raised: bool)
      requires Valid() && tsUrlList == []
      modifies this`dir, this`dirExists, this`manifest
      ensures Valid()
      ensures raised <==> !old(dirExists) || old(manifest).None?
      ensures old(dirExists) ==> !dirExists && dir == map[] && manifest == None
      ensures !old(dirExists) ==> dirExists == old(dirExists) && dir == old(dir) && manifest == old(manifest)
      ensures JobUnchanged() && replies == old(replies) && requested == old(requested)
    {
      if !dirExists {
        return true;
      }
      dir := map[];
      dirExists := false;
      if manifest.None? {
        return true;
      }
      manifest := None;
      return false;
    }

    /** download_key: find the quoted URI attribute, store the key file (the
        out-of-band key, or the body fetched from the resolved key URI) and give
        back the redirected directive; after a failed fetch the partial key file
        is removed, the call is retried while the budget lasts, and None is given
        back whatever the retry did. */
    method DownloadKey(line: string, n: int) returns (o: KeyOutcome)
      requires dirExists && frontUrl.Some?
      modifies this`dir, this`replies, this`requested
      ensures KeyFrame()
      ensures o.NoMatch? <==> MatchUri(line).None?
      ensures o.NoMatch? ==> dir == old(dir) && replies == old(replies) && requested == old(requested)
      ensures o.Got? ==> KeyFile in dir && o.line == RedirectKeyLine(line, name, |key| > 0)
      ensures MatchUri(line).Some? && |key| > 0 ==>
                o.Got? && requested == old(requested) && dir[KeyFile] == |key|
      ensures MatchUri(line).Some? && |key| == 0 ==>
                |requested| > |old(requested)| &&
                requested[|old(requested)|] == Resolve(url, frontUrl.value, MatchedUri(line))
      ensures MatchUri(line).Some? && |key| == 0 && old(replies) != [] && old(replies)[0].Raise? ==>
                o == Failed
      ensures old(replies) == [] && MatchUri(line).Some? && |key| == 0 ==> o == Failed
      decreases Budget(n)
    {
      if MatchUri(line).None? {
        return NoMatch;
      }
      if |key| > 0 {
        UpdateOutside(dir, KeyFile, |key|);
        dir := dir[KeyFile := |key|];
        return Got(KeyPrefix(line) + KeyAttribute(name));
      }
      var r := Fetch(Resolve(url, frontUrl.value, MatchedUri(line)));
      if r.Answer? {
        UpdateOutside(dir, KeyFile, r.size);
        dir := dir[KeyFile := r.size];
        return Got(KeyPrefix(line) + KeyAttribute(name) + KeySuffix(line));
      }
      if KeyFile in dir {
        RemoveTwice(dir, KeyFile);
        dir := dir - {KeyFile};
      }
      if n > 0 {
        ghost var mid := replies;
        ghost var midDir := dir;
        var _ := DownloadKey(line, n - 1);
        ConsumedTransitive(old(replies), mid, replies);
        assert dir - {KeyFile} == midDir - {KeyFile};
      }
      return Failed;
    }

    /** Lines 129-135 of get_ts_url for one line: a key directive is dropped
        when the key file is already there, otherwise the key is downloaded and
        the directive redirected (or kept when download_key gave back None);
        raises when the directive has no quoted URI attribute. Any other line is
        kept and nothing is done. */
    method KeyDirective(line: string) returns (raised: bool, d: KeyDecision)
      requires dirExists && frontUrl.Some?
      modifies this`dir, this`replies, this`requested
      ensures old(requested) <= requested && Consumed(old(replies), replies)
      ensures dir - {KeyFile} == old(dir) - {KeyFile}
      ensures raised <==> IsKeyDirective(line) && KeyFile !in old(dir) && MatchUri(line).None?
      ensures !IsKeyDirective(line) ==>
                d == Keep && dir == old(dir) && replies == old(replies) && requested == old(requested)
      ensures IsKeyDirective(line) && KeyFile in old(dir) ==> d == Drop && dir == old(dir)
      ensures KeyFile in old(dir) ==> dir == old(dir) && !d.Redirect?
      ensures !d.Keep? ==> IsKeyDirective(line)
      ensures d.Drop? ==> KeyFile in old(dir)
      ensures d.Redirect? ==>
                MatchUri(line).Some? && d.line == RedirectKeyLine(line, name, |key| > 0) && KeyFile in dir
    {
      if !IsKeyDirective(line) {
        return false, Keep;
      }
      if KeyFile in dir {
        return false, Drop;
      }
      var o := DownloadKey(line, 5);
      if o.NoMatch? {
        return true, Keep;
      }
      if o.Got? {
        return false, Redirect(o.line);
      }
      return false, Keep;
    }

    /** One pass of get_ts_url's loop body on the next line, before any
        `EXT-X-ENDLIST` line: the line's key directive is handled, then a
        segment URI (a line without `#`) is resolved and appended to the list. */
    method VisitLine(line: string, base: string, front: string) returns (raised: bool, d: KeyDecision)
      requires dirExists && frontUrl.Some?
      modifies this`dir, this`replies, this`requested, this`tsUrlList
      ensures dir - {KeyFile} == old(dir) - {KeyFile} && Consumed(old(replies), replies) && old(requested) <= requested
      ensures KeyFile in old(dir) ==> KeyFile in dir && !d.Redirect?
      ensures !IsKeyDirective(line) ==> requested == old(requested)
      ensures raised ==> IsKeyDirective(line) && MatchUri(line).None? && tsUrlList == old(tsUrlList)
      ensures !d.Keep? ==> IsKeyDirective(line)
      ensures d.Redirect? ==>
                MatchUri(line).Some? && d.line == RedirectKeyLine(line, name, |key| > 0) && KeyFile in dir
      ensures !raised && !Contains(line, "#") ==> tsUrlList == old(tsUrlList) + [Resolve(base, front, line)]
      ensures !raised && Contains(line, "#") ==> tsUrlList == old(tsUrlList)
    {
      raised, d := KeyDirective(line);
      if raised {
        return;
      }
      if !Contains(line, "#") {
        tsUrlList := tsUrlList + [Resolve(base, front, line)];
      }
    }

    /** The loop of get_ts_url over the playlist lines, up to the first
        `EXT-X-ENDLIST` tag line or a raising key directive; segment URIs are
        appended to the list as they are met. */
    method WalkLines(lines: seq<string>) returns (raised: bool, out: seq<OutLine>, ts: nat,
                                                  stopped: bool,
                                                  ghost segs: seq<string>, ghost ds: seq<KeyDecision>)
      requires frontUrl.Some? && dirExists
      modifies this`dir, this`replies, this`requested, this`tsUrlList
      ensures |ds| <= |lines| && (!raised && !stopped ==> |ds| == |lines|)
      ensures raised ==> |ds| < |lines| && IsKeyDirective(lines[|ds|]) && MatchUri(lines[|ds|]).None?
      ensures !raised ==> Rewrite(lines[..|ds|], ds) == RewriteState(out, segs, stopped)
      ensures ts == |segs|
      ensures tsUrlList == old(tsUrlList) + ResolveAll(url, frontUrl.value, segs)
      ensures dir - {KeyFile} == old(dir) - {KeyFile}
      ensures Consumed(old(replies), replies) && old(requested) <= requested
      ensures DecisionsOk(lines, ds, name, |key| > 0)
      ensures KeyFile in old(dir) ==> !HasRedirect(ds)
      ensures NoKeyDirectives(lines) ==> requested == old(requested)
    {
      var base, front := url, frontUrl.value;
      var st := RewriteState([], [], false);
      ds := [];
      assert lines[..0] == [];
      var i := 0;
      while i < |lines| && !st.stopped
        invariant 0 <= i <= |lines| && |ds| == i
        invariant Walked(lines, ds, st, base, front, name, |key| > 0, old(tsUrlList), old(dir), old(replies),
                         old(requested), tsUrlList, dir, replies, requested)
      {
        ghost var t1, dir1, r1, q1 := tsUrlList, dir, replies, requested;
        var r, d := VisitLine(lines[i], base, front);
        if r {
          WalkedRaise(lines, ds, st, base, front, name, |key| > 0, old(tsUrlList), old(dir), old(replies),
                      old(requested), t1, dir1, r1, q1, dir, replies, requested);
          return true, st.out, |st.segs|, st.stopped, st.segs, ds;
        }
        WalkedAdvance(lines, ds, d, st, base, front, name, |key| > 0, old(tsUrlList), old(dir), old(replies),
                      old(requested), t1, dir1, r1, q1, tsUrlList, dir, replies, requested);
        var next := RewriteStep(st, lines[i], d);
        st := next;
        ds := ds + [d];
        i := i + 1;
      }
      return false, st.out, |st.segs|, st.stopped, st.segs, ds;
    }

    /** The work of get_ts_url once the segment directory exists: walk the
        media playlist's lines (collecting resolved segment URIs, numbering
        segments from 0, redirecting or dropping key directives, stopping after
        the first `EXT-X-ENDLIST` tag line), then record the segment count and
        write the manifest. Raises, writing nothing, when a key directive has no
        quoted URI attribute; the URIs collected before that stay in the list.
        The ghost `ds` records what was done with each key directive. */
    method WalkPlaylist(lines: seq<string>) returns (raised: bool, ghost ds: seq<KeyDecision>)
      requires frontUrl.Some? && dirExists
      modifies this`dir, this`replies, this`requested, this`tsUrlList, this`tsSum, this`manifest
      ensures KeyFrame() && old(tsUrlList) <= tsUrlList
      ensures PlaylistWalked(lines, frontUrl.value, raised, ds)
    {
      var out, ts, stopped;
      ghost var segs;
      raised, out, ts, stopped, segs, ds := WalkLines(lines);
      PrefixOfConcat(old(tsUrlList), ResolveAll(url, frontUrl.value, segs));
      if raised {
        assert IsKeyDirective(lines[|ds|]) && MatchUri(lines[|ds|]).None?;
        return;
      }
      ds := FinishWalk(lines, ds, out, segs, stopped, name, |key| > 0);
      tsSum := ts;
      manifest := Some(out);
    }

    /** get_ts_url: create the segment directory when absent, then walk the
        playlist's lines as WalkPlaylist says. No segment has been counted yet,
        so progress stays 0. */
    method GetTsUrl(text: string) returns (raised: bool, ghost ds: seq<KeyDecision>)
      requires Valid() && successSum == 0 && frontUrl.Some?
      modifies this`dirExists, this`dir, this`replies, this`requested, this`tsUrlList, this`tsSum, this`manifest
      ensures Valid() && successSum == 0 && progress == 0 && reports == old(reports)
      ensures dirExists && KeyFrame() && old(tsUrlList) <= tsUrlList
      ensures PlaylistWalked(Lines(text), frontUrl.value, raised, ds)
    {
      PercentOfNone(tsSum);
      assert progress == 0;
      dirExists := true;
      raised, ds := WalkPlaylist(Lines(text));
      PercentOfNone(tsSum);
    }

    /** The master-playlist loop of get_m3u8_info: every line without `#` moves
        the URL, resolved against the URL chosen so far. */
    method FollowVariant(text: string)
      requires frontUrl.Some?
      modifies this`url
      ensures url == SelectVariant(old(url), frontUrl.value, Lines(text))
    {
      var lines := Lines(text);
      var front := frontUrl.value;
      var i := 0;
      while i < |lines|
        invariant 0 <= i <= |lines|
        invariant url == SelectVariant(old(url), front, lines[..i])
      {
        assert lines[..i + 1][..i] == lines[..i];
        if !Contains(lines[i], "#") {
          url := Resolve(url, front, lines[i]);
        }
        i := i + 1;
      }
      assert lines[..|lines|] == lines;
    }

    /** The master-playlist branch of get_m3u8_info: move the URL to the last
        variant v, then start over on it with a fresh retry budget, that is
        get_m3u8_info(v, num_retries) on the rest of the script, with the URL
        already moved to v. */
    method FollowMaster(text: string) returns (ghost ds: seq<KeyDecision>)
      requires Valid() && successSum == 0 && frontUrl.Some?
      modifies this`url, this`frontUrl, this`dirExists, this`dir, this`replies, this`requested, this`tsUrlList,
               this`tsSum, this`manifest
      ensures TryKept()
      ensures var v := SelectVariant(old(url), old(frontUrl).value, Lines(text));
              Tried(v, numRetries, old(replies), old(requested), old(Snapshot()).(url := v), ds)
      decreases |replies|, Budget(numRetries) + 2
    {
      FollowVariant(text);
      ds := GetM3u8Info(url, numRetries);
    }

    /** One try of get_m3u8_info (the body of its `try`): fetch the playlist; a
        master playlist moves the URL to its last variant and starts over with a
        fresh retry budget, a media playlist is walked by get_ts_url. Gives back
        whether the try raised, and the key decisions of a media walk. */
    method Attempt(u: string) returns (failed: bool, ghost ds: seq<KeyDecision>)
      requires Valid() && successSum == 0
      modifies this`url, this`frontUrl, this`dirExists, this`dir, this`replies, this`requested, this`tsUrlList,
               this`tsSum, this`manifest
      ensures TryKept()
      ensures |requested| > |old(requested)| && requested[|old(requested)|] == u
      ensures old(replies) == [] ==> failed && Untouched([u]) && replies == []
      ensures old(replies) != [] && Refused(old(replies)[0]) ==>
                failed && Untouched([u]) && replies == old(replies)[1..]
      ensures old(replies) != [] && !Refused(old(replies)[0]) ==>
                Handled(old(replies)[0], old(replies)[1..], old(requested) + [u], old(Snapshot()), ds)
      ensures old(replies) != [] && !Refused(old(replies)[0]) && failed ==>
                !IsMasterReply(old(replies)[0]) &&
                !(IsMediaReply(old(replies)[0]) && KeyUrisPresent(Lines(old(replies)[0].text)))
      decreases |replies|, 0
    {
      var r := Fetch(u);
      ghost var fetched, req := replies, requested;
      failed := Refused(r);
      ds := [];
      if !failed {
        failed, ds := Answered(r);
        ConsumedTransitive(old(replies), fetched, replies);
        PrefixTransitive(old(requested), req, requested);
      }
    }

    /** What a try does with a reply that did not raise: record the origin the
        playlist came from, then follow a master playlist or walk a media one. */
    method Answered(r: Reply) returns (failed: bool, ghost ds: seq<KeyDecision>)
      requires Valid() && successSum == 0 && r.Answer? && |r.pathUrl| > 0
      modifies this`url, this`frontUrl, this`dirExists, this`dir, this`replies, this`requested, this`tsUrlList,
               this`tsSum, this`manifest
      ensures TryKept()
      ensures Handled(r, old(replies), old(requested), old(Snapshot()), ds)
      ensures failed ==> !IsMasterReply(r) && !(IsMediaReply(r) && KeyUrisPresent(Lines(r.text)))
      decreases |replies|, Budget(numRetries) + 3
    {
      frontUrl := Some(Origin(r));
      ds := [];
      if Contains(r.text, "EXT-X-STREAM-INF") {
        ghost var snap1 := Snapshot();
        ds := FollowMaster(r.text);
        HandledMaster(r, old(replies), old(requested), old(Snapshot()), snap1, ds);
        return false, ds;
      }
      failed, ds := GetTsUrl(r.text);
      assert failed ==> !KeyUrisPresent(Lines(r.text));
    }

    /** get_m3u8_info: one try, repeated on the same URL with budget n - 1 when it
        raised and the budget n is still positive; the exception never escapes.
        With j the number of refused replies at the head of the script: when j
        exceeds the budget, or every reply is refused, the URL is requested
        exactly Budget(n) + 1 times and nothing else changes; otherwise the URL
        is requested j + 1 times and the reply after the refused ones is handled
        as one try: a master playlist is followed, a media playlist whose key
        directives carry URIs is walked. */
    method GetM3u8Info(u: string, n: int) returns (ghost ds: seq<KeyDecision>)
      requires Valid() && successSum == 0
      modifies this`url, this`frontUrl, this`dirExists, this`dir, this`replies, this`requested, this`tsUrlList,
               this`tsSum, this`manifest
      ensures TryKept()
      ensures Tried(u, n, old(replies), old(requested), old(Snapshot()), ds)
      decreases |replies|, Budget(n) + 1, 0
    {
      var failed;
      failed, ds := Attempt(u);
      if failed && n > 0 {
        ghost var mid, req := replies, requested;
        ds := Retry(u, n, old(replies), old(requested), old(Snapshot()));
        ConsumedTransitive(old(replies), mid, replies);
        PrefixTransitive(old(requested), req, requested);
      } else if old(replies) != [] && !Refused(old(replies)[0]) {
        PrefixSnoc(old(requested), requested);
        TriedAnswered(u, n, old(replies), old(requested), old(Snapshot()), ds);
      } else {
        TriedRefused(u, n, old(replies), old(requested), old(Snapshot()), ds);
      }
    }

    /** The `except` branch of get_m3u8_info: after a try on u that raised,
        with n still positive, try again with budget n - 1. Stated against the
        script rs0, the requests req0 and the fields snap0 from before the
        failed try: a refused first reply leaves the requests at req0 + [u]
        and the fields as they were; any other reply that raised was neither a
        master playlist nor a media playlist whose key directives carry URIs. */
    method Retry(u: string, n: int, ghost rs0: seq<Reply>, ghost req0: seq<string>, ghost snap0: Snap)
      returns (ghost ds: seq<KeyDecision>)
      requires Valid() && successSum == 0 && n > 0
      requires req0 + [u] <= requested
      requires rs0 == [] || Refused(rs0[0]) ==>
                 replies == (if rs0 == [] then [] else rs0[1..]) && requested == req0 + [u] && Snapshot() == snap0
      requires rs0 != [] && !Refused(rs0[0]) ==>
                 !IsMasterReply(rs0[0]) && !(IsMediaReply(rs0[0]) && KeyUrisPresent(Lines(rs0[0].text)))
      modifies this`url, this`frontUrl, this`dirExists, this`dir, this`replies, this`requested, this`tsUrlList,
               this`tsSum, this`manifest
      ensures TryKept()
      ensures Tried(u, n, rs0, req0, snap0, ds)
      decreases |replies|, Budget(n), 1
    {
      ds := GetM3u8Info(u, n - 1);
      if rs0 == [] || Refused(rs0[0]) {
        RetryShift(u, n, rs0, req0, snap0, ds);
      } else {
        PrefixTransitive(req0 + [u], old(requested), requested);
        PrefixOfConcat(req0, [u]);
        assert LeadingRefused(rs0) == 0 && Repeat(u, 1) == [u];
      }
    }


    /** The counting step of download_ts: one more segment done, then the integer
        percentage, reported only when it differs from the last one. Raises
        (division by zero) when the segment total is still 0, after counting. */
    method CountSegment() returns (raised: bool)
      requires Valid()
      modifies this`successSum, this`progress, this`reports
      ensures Valid()
      ensures successSum == old(successSum) + 1
      ensures raised <==> tsSum == 0
      ensures raised ==> progress == old(progress) && reports == old(reports)
      ensures !raised ==> progress == Percent(successSum, tsSum)
      ensures !raised && progress != old(progress) ==>
                progress > old(progress) && reports == old(reports) + [Report(progress, None, None)]
      ensures !raised && progress == old(progress) ==> reports == old(reports)
    {
      successSum := successSum + 1;
      if tsSum == 0 {
        return true;
      }
      var pro := Percent(successSum, tsSum);
      PercentMonotone(successSum - 1, tsSum);
      if progress != pro {
        ReportsOkSnoc(reports, progress, pro);
        progress := pro;
        reports := reports + [Report(pro, None, None)];
      }
      return false;
    }

    /** One try of download_ts (the body of its `try` with its `except`): a
        segment file already present is counted without a request; otherwise
        the URI is fetched and a 200 answer is written to `k.ts` and counted.
        A non-200 answer is handed back for the caller to retry. Counting
        raises (division by zero) while the segment total is still 0; on an
        exception the segment file is removed if it is there. */
    method TrySegment(u: string, k: nat) returns (t: TsTry)
      requires Valid() && dirExists
      modifies this`dir, this`replies, this`requested, this`successSum, this`progress, this`reports,
               this`fetchedFrom
      ensures SegmentFrame(k)
      ensures Segment(k) in dir && Segment(k) !in old(dir) ==> k in fetchedFrom && fetchedFrom[k] == u
      ensures t.Counted? <==> tsSum > 0 && Segment(k) in dir
      ensures t.Counted? ==> successSum == old(successSum) + 1
      ensures tsSum == 0 ==> Segment(k) !in dir
      ensures !t.Counted? && tsSum > 0 ==> successSum == old(successSum)
      ensures !t.Counted? ==> reports == old(reports) && progress == old(progress)
      ensures t.NotOk? ==> dir == old(dir)
      ensures Segment(k) in old(dir) ==> replies == old(replies) && requested == old(requested) && !t.NotOk?
      ensures Segment(k) in old(dir) && tsSum > 0 ==> t.Counted? && dir == old(dir)
      ensures Segment(k) !in old(dir) ==>
                requested == old(requested) + [u] &&
                (if old(replies) == [] then t.Raised? && replies == [] else replies == old(replies)[1..]) &&
                (old(replies) != [] && old(replies)[0].Answer? && old(replies)[0].status != 200 ==> t.NotOk?) &&
                (old(replies) != [] && old(replies)[0].Raise? ==> t.Raised? && dir == old(dir)) &&
                (old(replies) != [] && old(replies)[0].Answer? && old(replies)[0].status == 200 && tsSum > 0 ==>
                   t.Counted? && dir == old(dir)[Segment(k) := old(replies)[0].size])
    {
      if Segment(k) !in dir {
        var r := Fetch(u);
        if r.Raise? {
          return Raised;
        } else if r.status != 200 {
          return NotOk;
        }
        dir := dir[Segment(k) := r.size];
        fetchedFrom := fetchedFrom[k := u];
      }
      t := CountPresent(k);
    }

    /** The counting half of a try, once `k.ts` is present: the segment is
        counted; when counting raises (the total is still 0) the `except`
        removes the file again. */
    method CountPresent(k: nat) returns (t: TsTry)
      requires Valid() && Segment(k) in dir
      modifies this`dir, this`successSum, this`progress, this`reports
      ensures Valid() && old(reports) <= reports && successSum == old(successSum) + 1
      ensures t.Counted? <==> tsSum > 0
      ensures t.Counted? ==> dir == old(dir)
      ensures !t.Counted? ==>
                t.Raised? && dir == old(dir) - {Segment(k)} && reports == old(reports) && progress == old(progress)
    {
      var raised := CountSegment();
      if !raised {
        return Counted;
      }
      dir := dir - {Segment(k)};
      return Raised;
    }

    /** download_ts: try once; after a non-200 answer retry with budget n - 1
        whatever the budget, after an exception retry only while n > 0. Only
        `k.ts` is touched; when the total is known, the segment is counted
        exactly when its file ends up present. */
    method DownloadTs(tsUrl: string, k: nat, n: int)
      requires Valid() && dirExists
      modifies this`dir, this`replies, this`requested, this`successSum, this`progress, this`reports,
               this`fetchedFrom
      ensures SegmentFrame(k)
      ensures Segment(k) in dir && Segment(k) !in old(dir) ==>
                k in fetchedFrom && fetchedFrom[k] == Lines(tsUrl)[0]
      ensures tsSum > 0 ==> successSum == old(successSum) + (if Segment(k) in dir then 1 else 0)
      ensures tsSum == 0 ==> Segment(k) !in dir && reports == old(reports)
      ensures Segment(k) in old(dir) && tsSum > 0 ==>
                dir == old(dir) && replies == old(replies) && requested == old(requested)
      ensures Segment(k) !in old(dir) ==>
                |requested| > |old(requested)| && requested[|old(requested)|] == Lines(tsUrl)[0]
      ensures Segment(k) !in old(dir) && tsSum > 0 && old(replies) != [] &&
              old(replies)[0].Answer? && old(replies)[0].status == 200 ==>
                dir == old(dir)[Segment(k) := old(replies)[0].size] &&
                requested == old(requested) + [Lines(tsUrl)[0]]
      ensures Segment(k) !in old(dir) && |old(replies)| >= 2 &&
              old(replies)[0].Answer? && old(replies)[0].status != 200 ==>
                |requested| >= |old(requested)| + 2
      ensures Segment(k) !in old(dir) && n <= 0 && old(replies) != [] && old(replies)[0].Raise? ==>
                requested == old(requested) + [Lines(tsUrl)[0]] && dir == old(dir)
      decreases |replies|, Budget(n), 1
    {
      var u := Lines(tsUrl)[0];
      SplitFirstPart(tsUrl, "\n");
      var t := TrySegment(u, k);
      if t.NotOk? || (t.Raised? && n > 0) {
        assert Segment(k) in old(dir) ==> tsSum == 0;
        RetryTs(u, k, n, t, old(fetchedFrom), old(dir), old(replies), old(requested), old(reports), old(successSum));
      }
    }

    /** The retry of download_ts after a try t on u that answered non-200, or
        raised with n still positive: download_ts(u, k, n - 1), stated against
        the segment record f0, the directory d0, the script rs0, the requests
        req0, the reports rep0 and the count ss0 from before that try. */
    method RetryTs(u: string, k: nat, n: int, t: TsTry, ghost f0: map<nat, string>, ghost d0: map<DirEntry, nat>,
                   ghost rs0: seq<Reply>, ghost req0: seq<string>, ghost rep0: seq<Report>, ghost ss0: nat)
      requires Valid() && dirExists && Lines(u) == [u]
      requires t.NotOk? || (t.Raised? && n > 0)
      requires fetchedFrom - {k} == f0 - {k} && dir - {Segment(k)} == d0 - {Segment(k)}
      requires Consumed(rs0, replies) && req0 <= requested && reports == rep0 && ss0 <= successSum
      requires t.NotOk? ==> |replies| < |rs0|
      requires Segment(k) in dir && Segment(k) !in d0 ==> k in fetchedFrom && fetchedFrom[k] == u
      requires tsSum > 0 ==> successSum == ss0 + (if Segment(k) in dir then 1 else 0) && Segment(k) !in dir
      requires tsSum == 0 ==> Segment(k) !in dir
      requires Segment(k) !in d0 ==>
                 requested == req0 + [u] && replies == (if rs0 == [] then [] else rs0[1..]) &&
                 (rs0 != [] && rs0[0].Answer? && rs0[0].status != 200 ==> t.NotOk?)
      modifies this`dir, this`replies, this`requested, this`successSum, this`progress, this`reports,
               this`fetchedFrom
      ensures Valid() && fetchedFrom - {k} == f0 - {k} && dir - {Segment(k)} == d0 - {Segment(k)}
      ensures Consumed(rs0, replies) && req0 <= requested && rep0 <= reports && ss0 <= successSum
      ensures Segment(k) in dir && Segment(k) !in d0 ==> k in fetchedFrom && fetchedFrom[k] == u
      ensures tsSum > 0 ==> successSum == ss0 + (if Segment(k) in dir then 1 else 0)
      ensures tsSum == 0 ==> Segment(k) !in dir && reports == rep0
      ensures Segment(k) !in d0 ==> |requested| > |req0| && requested[|req0|] == u
      ensures Segment(k) !in d0 && |rs0| >= 2 && rs0[0].Answer? && rs0[0].status != 200 ==>
                |requested| >= |req0| + 2
      decreases |rs0|, Budget(n), 0
    {
      DownloadTs(u, k, n - 1);
      ConsumedTransitive(rs0, old(replies), replies);
      PrefixTransitive(req0, old(requested), requested);
      if Segment(k) !in d0 {
        assert old(requested)[|req0|] == u && requested[|req0|] == old(requested)[|req0|];
      }
    }

    /** Every segment file present has an index below k and holds what was
        fetched from the URI listed at its index. */
    ghost predicate SegmentsBelow(k: nat)
      reads this`dir, this`tsUrlList, this`fetchedFrom
    {
      forall e :: e in dir && e.Segment? ==>
        e.index < k && e.index < |tsUrlList| && e.index in fetchedFrom && fetchedFrom[e.index] == Lines(tsUrlList[e.index])[0]
    }

    /** One submission of the loop in __init__: the k-th URI of the list is
        fetched into `k.ts` with the job's retry budget; the count of segments
        done then covers the files `0.ts` to `k.ts`. */
    method SubmitSegment(k: nat)
      requires Valid() && k < |tsUrlList| && SegmentsBelow(k)
      requires tsSum > 0 ==> successSum == CountSegments(dir, k)
      requires tsSum == 0 ==> reports == []
      modifies this`dir, this`replies, this`requested, this`successSum, this`progress, this`reports,
               this`fetchedFrom
      ensures Valid() && SegmentsBelow(k + 1)
      ensures tsSum > 0 ==> successSum == CountSegments(dir, k + 1)
      ensures tsSum == 0 ==> reports == []
      ensures OthersKept(old(dir), dir)
      ensures old(requested) <= requested
    {
      DownloadTs(tsUrlList[k], k, numRetries);
      SameOutside(dir, old(dir), Segment(k));
      SameOutside(fetchedFrom, old(fetchedFrom), k);
      CountSegmentsFrame(old(dir), dir, k);
    }

    /** The submission loop of __init__, run one segment after another: the
        k-th URI of the list is fetched into `k.ts`. Each file present afterwards
        was fetched from its own URI, and (once the total is known) the segments
        counted are exactly the files present. */
    method FetchAll()
      requires Valid() && successSum == 0 && reports == []
      requires forall e :: e in dir ==> !e.Segment?
      modifies this`dir, this`replies, this`requested, this`successSum, this`progress, this`reports,
               this`fetchedFrom
      ensures Valid()
      ensures tsSum > 0 ==> successSum == CountSegments(dir, |tsUrlList|)
      ensures tsSum == 0 ==> reports == []
      ensures FilesFromList()
      ensures tsSum > 0 && |tsUrlList| == tsSum ==>
                (successSum == tsSum <==> forall j :: 0 <= j < tsSum ==> Segment(j) in dir)
      ensures OthersKept(old(dir), dir)
      ensures old(requested) <= requested
    {
      var k := 0;
      while k < |tsUrlList|
        invariant 0 <= k <= |tsUrlList|
        invariant Valid() && SegmentsBelow(k)
        invariant tsSum > 0 ==> successSum == CountSegments(dir, k)
        invariant tsSum == 0 ==> reports == []
        invariant OthersKept(old(dir), dir)
        invariant old(requested) <= requested
      {
        ghost var d0, r0 := dir, requested;
        SubmitSegment(k);
        PrefixTransitive(old(requested), r0, requested);
        OthersKeptTransitive(old(dir), d0, dir);
        k := k + 1;
      }
      if tsSum > 0 && |tsUrlList| == tsSum {
        CountSegmentsFull(dir, tsSum);
      }
    }

    /** Lines 81-89: when the count of segments done equals the segment total,
        the size is the manifest's plus that of every file in the segment
        directory, progress becomes 100 and is reported with the manifest path
        and the size. Reading the sizes raises when the manifest or the
        directory is missing. */
    method Finish() returns (raised: bool)
      requires Valid()
      modifies this`progress, this`reports
      ensures successSum != tsSum ==> !raised && ReportsOk(reports, progress)
      ensures raised <==> successSum == tsSum && (manifest.None? || !dirExists)
      ensures raised ==> ReportsOk(reports, progress)
      ensures successSum == tsSum && !raised ==>
                progress == 100 && |reports| > 0 &&
                ReportsOk(reports[..|reports| - 1], if tsSum > 0 then 100 else 0) &&
                reports[|reports| - 1] ==
                  Report(100, Some(shortPath + ".m3u8"), Some(|Render(manifest.value, name)| + DirSize(dir)))
    {
      if successSum != tsSum {
        return false;
      }
      if manifest.None? || !dirExists {
        return true;
      }
      var fileSize := |Render(manifest.value, name)|;
      var dirSize := SumSizes(dir);
      fileSize := fileSize + dirSize;
      if tsSum > 0 {
        PercentFull(tsSum);
      }
      ghost var segmentReports := reports;
      progress := 100;
      reports := reports + [Report(100, Some(shortPath + ".m3u8"), Some(fileSize))];
      assert reports[..|reports| - 1] == segmentReports;
      return false;
    }

    /** delete_file as its comment in __init__ intends it: clear what an earlier
        attempt left behind, tolerating a segment directory or manifest that is
        not there. Afterwards neither exists. */
    method ClearStale()
      requires Valid() && tsUrlList == []
      modifies this`dir, this`dirExists, this`manifest
      ensures Valid() && !dirExists && dir == map[] && manifest == None
    {
      dir := map[];
      dirExists := false;
      manifest := None;
    }

    /** The first two steps of __init__: clear stale artifacts, then
        get_m3u8_info on the job's URL. */
    method Prepare() returns (ghost ds: seq<KeyDecision>)
      requires Valid() && tsUrlList == [] && successSum == 0 && reports == []
      modifies this`url, this`frontUrl, this`dirExists, this`dir, this`replies, this`requested, this`tsUrlList,
               this`tsSum, this`manifest
      ensures Valid() && successSum == 0 && reports == []
      ensures forall e :: e in dir ==> !e.Segment?
      ensures |requested| > |old(requested)| && requested[|old(requested)|] == old(url)
      ensures Tried(old(url), numRetries, old(replies), old(requested),
                    old(Snapshot()).(dir := map[], dirExists := false, manifest := None), ds)
    {
      ClearStale();
      ghost var cleared := dir;
      ds := GetM3u8Info(url, numRetries);
      OnlyKeyAdded(cleared, dir);
    }

    /** The work __init__ does once its fields are set, with line 77 read as the
        log line it is meant to be and delete_file tolerant of a fresh job:
        resolve and rewrite the playlist, fetch every listed segment in order,
        and finish. The only exception left is the completion step's, raised
        when the manifest or the segment directory is missing. When all
        segments listed by the playlist are counted, the segment reports are
        strictly increasing and end at 100, and a last report of 100 carries the
        manifest path and the total size. */
    method Run() returns (aborted: bool)
      requires Valid() && tsUrlList == [] && successSum == 0 && tsSum == 0 && reports == []
      modifies this
      ensures |requested| > |old(requested)| && requested[|old(requested)|] == old(url)
      ensures FilesFromList()
      ensures tsSum > 0 ==> successSum == CountSegments(dir, |tsUrlList|)
      ensures tsSum > 0 && |tsUrlList| == tsSum ==>
                (successSum == tsSum <==> forall j :: 0 <= j < tsSum ==> Segment(j) in dir)
      ensures aborted <==> successSum == tsSum && (manifest.None? || !dirExists)
      ensures aborted || successSum != tsSum ==> ReportsOk(reports, progress)
      ensures successSum == tsSum && !aborted ==>
                progress == 100 && |reports| > 0 &&
                ReportsOk(reports[..|reports| - 1], if tsSum > 0 then 100 else 0) &&
                reports[|reports| - 1] ==
                  Report(100, Some(shortPath + ".m3u8"), Some(|Render(manifest.value, name)| + DirSize(dir)))
    {
      ghost var ds := Prepare();
      FetchAll();
      aborted := Finish();
    }

    /** __init__ exactly as written: delete_file raises on a job without a
        segment directory or manifest, and otherwise the log call on line 77
        passes `sep` to Logger.info, which raises TypeError at the INFO level the
        logger is set to. Either way the constructor raises before a single
        segment is fetched, and progress never reaches 100. */
    method RunAsWritten() returns (aborted: bool)
      requires Valid() && tsUrlList == [] && successSum == 0 && tsSum == 0 && reports == []
      modifies this
      ensures aborted && progress == 0 && successSum == 0 && reports == []
      ensures forall e :: e in dir ==> !e.Segment?
    {
      aborted := DeleteFile();
      if aborted {
        return;
      }
      ghost var cleared := dir;
      ghost var ds := GetM3u8Info(url, numRetries);
      OnlyKeyAdded(cleared, dir);
      aborted := true;
    }
  }
}
