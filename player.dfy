/** The player page's logic (static/js/player.js): the video format guessed
    from a URL, the error text of a media error, the completion of a cached
    video's URL, the alternative sources, and the choice of the neighbouring
    cached episode for the buttons and for the end of playback.

    The DOM, Plyr, hls.js and the asynchronous HEAD request are not
    modelled; a button's disabled flag is a field of PlayerView, and
    "playing" a cached video is naming it in the result. */
module Player {
  import opened Strings

  /** A cached video as get_downloaded_videos lists it. */
  datatype CachedVideo = CachedVideo(animeId: string, episodeNumber: int, cacheUrl: string)

  /** detectVideoFormat's result. */
  datatype Format = Format(mime: string, extension: string, isHLS: bool, isDASH: bool, isTS: bool)

  const DefaultFormat := Format("video/mp4", ".mp4", false, false, false)

  /** A streaming extension is recognised when the lower-cased URL ends
      with .ext, contains .ext? or contains =ext. */
  predicate Marks(lower: string, ext: string) {
    EndsWith(lower, "." + ext) || Contains(lower, "." + ext + "?") || Contains(lower, "=" + ext)
  }

  predicate Streaming(f: Format) {
    f.isHLS || f.isDASH || f.isTS
  }

  /** The extension table for the other formats, mp4 when none matches. */
  function ByExtension(lower: string): (f: Format)
    ensures !Streaming(f)
    ensures f.extension == ".mp4" || EndsWith(lower, f.extension) || (f.extension == ".ogg" && EndsWith(lower, ".ogv"))
    ensures EndsWith(lower, ".webm") ==> f.mime == "video/webm"
    ensures f == DefaultFormat <==>
              !(EndsWith(lower, ".webm") || EndsWith(lower, ".ogg") || EndsWith(lower, ".ogv") || EndsWith(lower, ".mov") ||
                EndsWith(lower, ".flv") || EndsWith(lower, ".3gp") || EndsWith(lower, ".wmv") || EndsWith(lower, ".avi"))
  {
    if EndsWith(lower, ".webm") then Format("video/webm", ".webm", false, false, false)
    else if EndsWith(lower, ".ogg") || EndsWith(lower, ".ogv") then Format("video/ogg", ".ogg", false, false, false)
    else if EndsWith(lower, ".mov") then Format("video/quicktime", ".mov", false, false, false)
    else if EndsWith(lower, ".flv") then Format("video/x-flv", ".flv", false, false, false)
    else if EndsWith(lower, ".3gp") then Format("video/3gpp", ".3gp", false, false, false)
    else if EndsWith(lower, ".wmv") then Format("video/x-ms-wmv", ".wmv", false, false, false)
    else if EndsWith(lower, ".avi") then Format("video/x-msvideo", ".avi", false, false, false)
    else DefaultFormat
  }

  /** detectVideoFormat: an empty URL gives the default; otherwise HLS,
      DASH and TS are tried in that order, and then the extension table.
      At most one streaming flag is set, and each is set exactly when its
      extension is marked and no earlier one is. */
  function DetectVideoFormat(url: string): (f: Format)
    ensures url == "" ==> f == DefaultFormat
    ensures !(f.isHLS && f.isDASH) && !(f.isHLS && f.isTS) && !(f.isDASH && f.isTS)
    ensures f.isHLS <==> url != "" && Marks(ToLower(url), "m3u8")
    ensures f.isDASH <==> url != "" && !Marks(ToLower(url), "m3u8") && Marks(ToLower(url), "mpd")
    ensures f.isTS <==> url != "" && !Marks(ToLower(url), "m3u8") && !Marks(ToLower(url), "mpd") && Marks(ToLower(url), "ts")
    ensures f.isHLS ==> f.mime == "application/vnd.apple.mpegurl" && f.extension == ".m3u8"
    ensures f.isDASH ==> f.mime == "application/dash+xml" && f.extension == ".mpd"
    ensures f.isTS ==> f.mime == "video/mp2t" && f.extension == ".ts"
  {
    if url == "" then DefaultFormat
    else
      var lower := ToLower(url);
      if Marks(lower, "m3u8") then Format("application/vnd.apple.mpegurl", ".m3u8", true, false, false)
      else if Marks(lower, "mpd") then Format("application/dash+xml", ".mpd", false, true, false)
      else if Marks(lower, "ts") then Format("video/mp2t", ".ts", false, false, true)
      else ByExtension(lower)
  }

  lemma ToLowerIdempotent(s: string)
    ensures ToLower(ToLower(s)) == ToLower(s)
  {
  }

  /** Detection ignores case. */
  lemma DetectIgnoresCase(url: string)
    ensures DetectVideoFormat(ToLower(url)) == DetectVideoFormat(url)
  {
    ToLowerIdempotent(url);
  }

  /** A URL whose lower-cased form ends with .m3u8 is played as HLS. */
  lemma EndsM3u8IsHls(url: string)
    requires EndsWith(ToLower(url), ".m3u8")
    ensures DetectVideoFormat(url).isHLS
  {
    assert "." + "m3u8" == ".m3u8";
    assert Marks(ToLower(url), "m3u8");
  }

  /** Lower-casing keeps a .m3u8 suffix. */
  lemma LowerKeepsM3u8(prefix: string)
    ensures EndsWith(ToLower(prefix + ".m3u8"), ".m3u8")
  {
    ToLowerConcat(prefix, ".m3u8");
    var lower := ToLower(prefix) + ToLower(".m3u8");
    assert ToLower(".m3u8") == ".m3u8";
    assert lower[|lower| - 5..] == ".m3u8";
  }

  /** A cached manifest, served under /video/, is played as HLS. */
  lemma CachedManifestIsHls(animeId: string, episode: string)
    ensures DetectVideoFormat("/video/" + animeId + "/ep" + episode + ".m3u8").isHLS
  {
    var prefix := "/video/" + animeId + "/ep" + episode;
    LowerKeepsM3u8(prefix);
    EndsM3u8IsHls(prefix + ".m3u8");
  }

  /** A media error: its code and its message ("" when absent). */
  datatype MediaError = MediaError(code: int, message: string)

  const Unknown := "未知错误"

  /** The fixed text of a known error code (1 to 4). */
  function KnownMessage(code: int): string
    requires 1 <= code <= 4
  {
    match code
    case 1 => "播放被中止"
    case 2 => "网络错误导致视频下载失败"
    case 3 => "视频解码失败，可能是格式不支持"
    case _ => "视频格式不受支持或地址无效"
  }

  /** getErrorMessage: no error gives the unknown-error text; codes 1 to 4
      give their fixed texts; any other code is named after the unknown-error
      text, followed by the message when there is one. */
  function ErrorMessage(error: Option<MediaError>): (r: string)
    ensures error.None? ==> r == Unknown
    ensures error.Some? && 1 <= error.value.code <= 4 ==> r == KnownMessage(error.value.code)
    ensures error.Some? && !(1 <= error.value.code <= 4) ==>
              StartsWith(r, Unknown + " (" + IntToString(error.value.code) + ")") &&
              (error.value.message == "" <==> r == Unknown + " (" + IntToString(error.value.code) + ")") &&
              (error.value.message != "" ==> EndsWith(r, ": " + error.value.message))
  {
    if error.None? then Unknown
    else
      var e := error.value;
      if 1 <= e.code <= 4 then KnownMessage(e.code)
      else
        var head := Unknown + " (" + IntToString(e.code) + ")";
        var r := head + (if e.message != "" then ": " + e.message else "");
        assert r[..|head|] == head;
        assert e.message != "" ==> r[|r| - |": " + e.message|..] == ": " + e.message;
        r
  }

  /** The four known texts are distinct and none reads as an unknown
      error. */
  lemma KnownMessagesDistinct(a: int, b: int)
    requires 1 <= a <= 4 && 1 <= b <= 4 && a != b
    ensures KnownMessage(a) != KnownMessage(b)
    ensures !StartsWith(KnownMessage(a), Unknown)
  {
    assert KnownMessage(a)[2] != KnownMessage(b)[2];
    assert KnownMessage(a)[0] != Unknown[0];
  }

  /** The URL completion of playCachedVideo (and of the format-update
      handler): a '/' is put in front of a non-empty URL that starts with
      neither http nor '/'. */
  function FullVideoUrl(u: string): (r: string)
    ensures r == u || r == "/" + u
    ensures r == "/" + u <==> u != "" && !StartsWith(u, "http") && !StartsWith(u, "/")
    ensures u != "" ==> StartsWith(r, "http") || StartsWith(r, "/")
  {
    if u != "" && !StartsWith(u, "http") && !StartsWith(u, "/") then
      var r := "/" + u;
      assert r[..1] == "/";
      r
    else u
  }

  /** Completing twice is completing once. */
  lemma FullVideoUrlIdempotent(u: string)
    ensures FullVideoUrl(FullVideoUrl(u)) == FullVideoUrl(u)
  {
  }

  /** The URL up to its last '.', as substring(0, lastIndexOf('.')) takes
      it: empty when there is no '.'. */
  function BeforeLastDot(s: string): (r: string)
    ensures |r| <= |s| && r == s[..|r|]
    ensures LastIndexOf(s, '.').None? ==> r == ""
    ensures LastIndexOf(s, '.').Some? ==> |r| < |s| && s[|r|] == '.'
  {
    match LastIndexOf(s, '.')
    case None => ""
    case Some(i) => s[..i]
  }

  /** The webm and ogg alternative sources: cleared for HLS, DASH and TS,
      otherwise the URL with its last extension replaced. */
  function AlternativeSources(fullUrl: string, f: Format): (r: (string, string))
    ensures Streaming(f) <==> r == ("", "")
    ensures !Streaming(f) ==> EndsWith(r.0, ".webm") && EndsWith(r.1, ".ogg") &&
                              r.0[..|r.0| - 5] == r.1[..|r.1| - 4] == BeforeLastDot(fullUrl)
  {
    if Streaming(f) then ("", "")
    else
      var base := BeforeLastDot(fullUrl);
      var r := (base + ".webm", base + ".ogg");
      assert r.0[|r.0| - 5..] == ".webm" && r.1[|r.1| - 4..] == ".ogg";
      assert r.0[..|r.0| - 5] == base && r.1[..|r.1| - 4] == base;
      r
  }

  /** Whether a cached video of the anime has the episode. */
  predicate HasEpisode(cached: seq<CachedVideo>, animeId: string, episode: int) {
    exists i :: 0 <= i < |cached| && cached[i].animeId == animeId && cached[i].episodeNumber == episode
  }

  /** Whether a cached video is the given episode of the anime. */
  predicate IsEpisode(v: CachedVideo, animeId: string, episode: int) {
    v.animeId == animeId && v.episodeNumber == episode
  }

  /** The cached videos of the anime with the episode, in list order. */
  function Matching(cached: seq<CachedVideo>, animeId: string, episode: int): (r: seq<CachedVideo>)
    ensures forall v :: v in r ==> v in cached && IsEpisode(v, animeId, episode)
    ensures |r| > 0 <==> HasEpisode(cached, animeId, episode)
  {
    if |cached| == 0 then []
    else
      var init := cached[..|cached| - 1];
      var last := cached[|cached| - 1];
      assert cached[..|cached| - 1 + 1] == cached;
      HasEpisodeSnoc(cached, |cached| - 1, animeId, episode);
      Matching(init, animeId, episode) + (if IsEpisode(last, animeId, episode) then [last] else [])
  }

  /** The position of the first cached video of the anime with the episode. */
  predicate FirstEpisodeAt(cached: seq<CachedVideo>, animeId: string, episode: int, i: int) {
    0 <= i < |cached| && IsEpisode(cached[i], animeId, episode) &&
    forall j :: 0 <= j < i ==> !IsEpisode(cached[j], animeId, episode)
  }

  /** The episodes of the anime come in ascending order, as the cached-videos
      listing returns them (ordered by title, then episode). */
  predicate EpisodesAscending(cached: seq<CachedVideo>, animeId: string) {
    forall i, j :: 0 <= i < j < |cached| && cached[i].animeId == animeId && cached[j].animeId == animeId ==>
      cached[i].episodeNumber <= cached[j].episodeNumber
  }

  /** The current episode after playing `played`, starting from `current`:
      playCachedVideo makes the episode it plays the current one. */
  function Reached(played: seq<CachedVideo>, current: int): int {
    if played == [] then current else played[|played| - 1].episodeNumber
  }

  /** The forEach of the buttons and the end-of-playback handlers: a video of
      the anime is played when `current == episode - step` (step +1 for the
      next episode, -1 for the previous one), and since playCachedVideo sets
      the current episode before the forEach moves on, every later video is
      compared with the episode just played. */
  function Cascade(cached: seq<CachedVideo>, animeId: string, current: int, step: int): (r: seq<CachedVideo>)
    ensures r != [] ==> r[0].episodeNumber == current + step && r[0].animeId == animeId
    decreases |cached|
  {
    if cached == [] then []
    else
      var v := cached[0];
      if IsEpisode(v, animeId, current + step) then [v] + Cascade(cached[1..], animeId, v.episodeNumber, step)
      else Cascade(cached[1..], animeId, current, step)
  }

  /** Only cached videos of the anime are played. */
  lemma {:induction false} CascadeMembers(cached: seq<CachedVideo>, animeId: string, current: int, step: int)
    ensures forall v :: v in Cascade(cached, animeId, current, step) ==> v in cached && v.animeId == animeId
    decreases |cached|
  {
    if cached != [] {
      var v := cached[0];
      CascadeCons(cached, animeId, current, step);
      if IsEpisode(v, animeId, current + step) {
        CascadeMembers(cached[1..], animeId, v.episodeNumber, step);
      } else {
        CascadeMembers(cached[1..], animeId, current, step);
      }
    }
  }

  /** Something is played exactly when the episode next to the current one is
      cached for the anime. */
  lemma {:induction false} CascadeEmpty(cached: seq<CachedVideo>, animeId: string, current: int, step: int)
    ensures Cascade(cached, animeId, current, step) == [] <==> !HasEpisode(cached, animeId, current + step)
    decreases |cached|
  {
    HasEpisodeCons(cached, animeId, current + step);
    if cached != [] && !IsEpisode(cached[0], animeId, current + step) {
      CascadeEmpty(cached[1..], animeId, current, step);
    }
  }

  /** Each video played is the episode next to the one played before it. */
  lemma {:induction false} CascadeChain(cached: seq<CachedVideo>, animeId: string, current: int, step: int)
    ensures var r := Cascade(cached, animeId, current, step);
            forall k :: 0 < k < |r| ==> r[k].episodeNumber == r[k - 1].episodeNumber + step
    decreases |cached|
  {
    if cached != [] {
      var v := cached[0];
      CascadeCons(cached, animeId, current, step);
      if IsEpisode(v, animeId, current + step) {
        CascadeChain(cached[1..], animeId, v.episodeNumber, step);
        var t := Cascade(cached[1..], animeId, v.episodeNumber, step);
        var r := [v] + t;
        assert Cascade(cached, animeId, current, step) == r;
        forall k | 0 < k < |r|
          ensures r[k].episodeNumber == r[k - 1].episodeNumber + step
        {
          if k == 1 {
            assert r[1] == t[0] && r[0] == v && t[0].episodeNumber == v.episodeNumber + step;
          } else {
            assert r[k] == t[k - 1] && r[k - 1] == t[k - 2];
          }
        }
      } else {
        CascadeChain(cached[1..], animeId, current, step);
      }
    }
  }

  /** Whatever the order of the list, the first video played is the first
      cached copy of the episode next to the current one. */
  lemma {:induction false} CascadeFirst(cached: seq<CachedVideo>, animeId: string, current: int, step: int)
    ensures var r := Cascade(cached, animeId, current, step);
            r != [] ==> exists i :: FirstEpisodeAt(cached, animeId, current + step, i) && r[0] == cached[i]
    decreases |cached|
  {
    var r := Cascade(cached, animeId, current, step);
    if cached != [] && r != [] {
      if IsEpisode(cached[0], animeId, current + step) {
        assert FirstEpisodeAt(cached, animeId, current + step, 0);
      } else {
        CascadeFirst(cached[1..], animeId, current, step);
        var i :| FirstEpisodeAt(cached[1..], animeId, current + step, i) && r[0] == cached[1..][i];
        assert FirstEpisodeAt(cached, animeId, current + step, i + 1);
      }
    }
  }

  /** Going forward, the k-th video played is episode current+1+k, so the
      current episode afterwards is current plus the number played. */
  lemma {:induction false} CascadeUp(cached: seq<CachedVideo>, animeId: string, current: int)
    ensures var r := Cascade(cached, animeId, current, 1);
            (forall k :: 0 <= k < |r| ==> r[k].episodeNumber == current + 1 + k) &&
            Reached(r, current) == current + |r|
    decreases |cached|
  {
    if cached != [] {
      var v := cached[0];
      if IsEpisode(v, animeId, current + 1) {
        CascadeUp(cached[1..], animeId, v.episodeNumber);
        var t := Cascade(cached[1..], animeId, v.episodeNumber, 1);
        var r := [v] + t;
        assert Cascade(cached, animeId, current, 1) == r;
        assert forall k :: 0 < k < |r| ==> r[k] == t[k - 1];
        assert Reached(r, current) == Reached(t, v.episodeNumber);
      } else {
        CascadeUp(cached[1..], animeId, current);
      }
    }
  }

  /** "Next" on a list in ascending episode order stops at the end of the run
      of cached episodes current+1, current+2, ...: the episode after the one
      it reaches is not cached. */
  lemma {:induction false} CascadeNextRun(cached: seq<CachedVideo>, animeId: string, current: int)
    requires EpisodesAscending(cached, animeId)
    ensures !HasEpisode(cached, animeId, Reached(Cascade(cached, animeId, current, 1), current) + 1)
    decreases |cached|
  {
    if cached == [] {
      HasEpisodeCons(cached, animeId, current + 1);
    } else {
      AscendingTail(cached, animeId);
      if IsEpisode(cached[0], animeId, current + 1) {
        CascadeNextRun(cached[1..], animeId, cached[0].episodeNumber);
        NextRunPlayed(cached, animeId, current);
      } else {
        CascadeNextRun(cached[1..], animeId, current);
        NextRunSkipped(cached, animeId, current);
      }
    }
  }

  /** The step of CascadeNextRun where the first video is played. */
  lemma NextRunPlayed(cached: seq<CachedVideo>, animeId: string, current: int)
    requires cached != [] && IsEpisode(cached[0], animeId, current + 1)
    requires var e := cached[0].episodeNumber;
             !HasEpisode(cached[1..], animeId, Reached(Cascade(cached[1..], animeId, e, 1), e) + 1)
    ensures !HasEpisode(cached, animeId, Reached(Cascade(cached, animeId, current, 1), current) + 1)
  {
    var v, rest := cached[0], cached[1..];
    var t := Cascade(rest, animeId, v.episodeNumber, 1);
    CascadeCons(cached, animeId, current, 1);
    CascadeUp(rest, animeId, v.episodeNumber);
    var r := [v] + t;
    assert Reached(r, current) == Reached(t, v.episodeNumber);
    HasEpisodeCons(cached, animeId, Reached(r, current) + 1);
  }

  /** The step of CascadeNextRun where the first video is passed over: on an
      ascending list it is no later than anything played after it. */
  lemma NextRunSkipped(cached: seq<CachedVideo>, animeId: string, current: int)
    requires cached != [] && EpisodesAscending(cached, animeId) && !IsEpisode(cached[0], animeId, current + 1)
    requires !HasEpisode(cached[1..], animeId, Reached(Cascade(cached[1..], animeId, current, 1), current) + 1)
    ensures !HasEpisode(cached, animeId, Reached(Cascade(cached, animeId, current, 1), current) + 1)
  {
    var rest := cached[1..];
    var r := Cascade(rest, animeId, current, 1);
    CascadeCons(cached, animeId, current, 1);
    CascadeUp(rest, animeId, current);
    if r != [] {
      CascadeMembers(rest, animeId, current, 1);
      AscendingHead(cached, animeId, r[0]);
    }
    HasEpisodeCons(cached, animeId, Reached(r, current) + 1);
  }

  /** "Previous" on a list in ascending episode order plays at most one video:
      the copy of episode current-1 it plays is followed by no earlier
      episode. */
  lemma {:induction false} CascadePreviousOnce(cached: seq<CachedVideo>, animeId: string, current: int)
    requires EpisodesAscending(cached, animeId)
    ensures |Cascade(cached, animeId, current, -1)| <= 1
    decreases |cached|
  {
    if cached != [] {
      var v, rest := cached[0], cached[1..];
      AscendingTail(cached, animeId);
      CascadeCons(cached, animeId, current, -1);
      if IsEpisode(v, animeId, current - 1) {
        CascadeEmpty(rest, animeId, v.episodeNumber, -1);
        if HasEpisode(rest, animeId, current - 2) {
          var j :| 0 <= j < |rest| && rest[j].animeId == animeId && rest[j].episodeNumber == current - 2;
          AscendingHead(cached, animeId, rest[j]);
          assert false;
        }
      } else {
        CascadePreviousOnce(rest, animeId, current);
      }
    }
  }

  /** The forEach as written, with the global current episode held in `cur`:
      the videos played and the current episode afterwards. */
  method PlayFrom(cached: seq<CachedVideo>, animeId: string, current: int, step: int)
    returns (played: seq<CachedVideo>, last: int)
    ensures played == Cascade(cached, animeId, current, step)
    ensures last == Reached(played, current)
  {
    played := [];
    var cur := current;
    var i := 0;
    assert cached[0..] == cached;
    while i < |cached|
      invariant 0 <= i <= |cached|
      invariant played + Cascade(cached[i..], animeId, cur, step) == Cascade(cached, animeId, current, step)
      invariant cur == Reached(played, current)
    {
      var video := cached[i];
      PlayStep(cached[i..], animeId, cur, step, played, Cascade(cached, animeId, current, step));
      assert cached[i..][0] == video && cached[i..][1..] == cached[i + 1..];
      if animeId == video.animeId && cur == video.episodeNumber - step {
        played := played + [video];
        cur := video.episodeNumber;
      }
      i := i + 1;
    }
    last := cur;
  }

  /** One step of the forEach, against the videos already played and the
      whole outcome `total`. */
  lemma PlayStep(rest: seq<CachedVideo>, animeId: string, cur: int, step: int, played: seq<CachedVideo>,
                 total: seq<CachedVideo>)
    requires rest != [] && played + Cascade(rest, animeId, cur, step) == total
    ensures IsEpisode(rest[0], animeId, cur + step) ==>
              (played + [rest[0]]) + Cascade(rest[1..], animeId, rest[0].episodeNumber, step) == total
    ensures !IsEpisode(rest[0], animeId, cur + step) ==> played + Cascade(rest[1..], animeId, cur, step) == total
  {
    CascadeCons(rest, animeId, cur, step);
    var t := Cascade(rest[1..], animeId, rest[0].episodeNumber, step);
    assert played + [rest[0]] + t == played + ([rest[0]] + t);
  }

  /** One step of the forEach: the first video is played exactly when it is
      the episode next to the current one, and then becomes the current one. */
  lemma CascadeCons(cached: seq<CachedVideo>, animeId: string, current: int, step: int)
    requires cached != []
    ensures Cascade(cached, animeId, current, step) ==
            if IsEpisode(cached[0], animeId, current + step)
            then [cached[0]] + Cascade(cached[1..], animeId, cached[0].episodeNumber, step)
            else Cascade(cached[1..], animeId, current, step)
  {
  }

  /** The forEach with its target episode fixed before the loop: every video of
      the anime with the wanted episode is played, in list order. */
  method PlayWanted(cached: seq<CachedVideo>, animeId: string, wanted: int) returns (played: seq<CachedVideo>)
    ensures played == Matching(cached, animeId, wanted)
  {
    played := [];
    var i := 0;
    while i < |cached|
      invariant 0 <= i <= |cached|
      invariant played == Matching(cached[..i], animeId, wanted)
    {
      var video := cached[i];
      assert cached[..i + 1][..i] == cached[..i];
      if animeId == video.animeId && wanted == video.episodeNumber {
        played := played + [video];
      }
      i := i + 1;
    }
    assert cached[..i] == cached;
  }

  /** The previous-episode button: below episode 1 it only shows a notice
      (nothing played); otherwise the forEach looks for the episode before
      the current one, and after each match for the episode before that. */
  method PreviousEpisode(cached: seq<CachedVideo>, animeId: string, current: int)
    returns (played: seq<CachedVideo>, last: int)
    ensures current > 0 ==> played == Cascade(cached, animeId, current, -1)
    ensures current <= 0 ==> played == []
    ensures last == Reached(played, current)
  {
    if current > 0 {
      played, last := PlayFrom(cached, animeId, current, -1);
    } else {
      played, last := [], current;
    }
  }

  /** The next-episode button and the `ended` handler of the hls.js player
      that playCachedVideo creates, as written: the forEach looks for the episode
      after the current one, and after each match for the episode after that,
      so on a list in episode order it runs on to the end of the run of cached
      episodes (CascadeNextRun). */
  method NextEpisode(cached: seq<CachedVideo>, animeId: string, current: int)
    returns (played: seq<CachedVideo>, last: int)
    ensures played == Cascade(cached, animeId, current, 1)
    ensures last == Reached(played, current)
  {
    played, last := PlayFrom(cached, animeId, current, 1);
  }

  /** "Next" as it is evidently meant: the episode after the one showing when
      the button is pressed or the video ends, fixed before the forEach, so
      exactly the cached copies of episode current+1 are played. */
  method NextEpisodeIntended(cached: seq<CachedVideo>, animeId: string, current: int)
    returns (played: seq<CachedVideo>, last: int)
    ensures played == Matching(cached, animeId, current + 1)
    ensures forall v :: v in played ==> v.episodeNumber == current + 1
    ensures played != [] <==> HasEpisode(cached, animeId, current + 1)
    ensures last == Reached(played, current)
  {
    played := PlayWanted(cached, animeId, current + 1);
    last := Reached(played, current);
  }

  /** With episode 2 showing and episodes 3 and 4 cached, "next" as written
      plays episode 3 and then episode 4, and stops on 4; the intended "next"
      plays episode 3 only. */
  lemma NextRunsAhead()
    ensures var cached := [CachedVideo("a", 3, "/video/a/ep3.m3u8"), CachedVideo("a", 4, "/video/a/ep4.m3u8")];
            Cascade(cached, "a", 2, 1) == cached && Reached(cached, 2) == 4 &&
            Matching(cached, "a", 2 + 1) == [cached[0]]
  {
    var cached := [CachedVideo("a", 3, "/video/a/ep3.m3u8"), CachedVideo("a", 4, "/video/a/ep4.m3u8")];
    assert cached[1..][1..] == [];
    assert Cascade(cached[1..], "a", 3, 1) == [cached[1]];
    assert cached[..1] == [cached[0]] && cached[..1][..0] == [];
  }

  /** The end-of-playback handler of the first player, the one initPlayer
      creates: it compares like the previous-episode button, so it would play
      the episode before the current one. The defect is latent: that player
      is destroyed by playCachedVideo, the only place that sets the current
      anime and episode, before any cached video plays, so the handler can
      fire only while there is no current anime, and then plays nothing. */
  method EndedAsWritten(cached: seq<CachedVideo>, animeId: string, current: int)
    returns (played: seq<CachedVideo>, last: int)
    ensures played == Cascade(cached, animeId, current, -1)
    ensures last == Reached(played, current)
  {
    played, last := PlayFrom(cached, animeId, current, -1);
  }

  /** Were the first player's handler to fire at the end of episode 2, with
      episodes 1, 2 and 3 cached, it would go back to episode 1, where every
      other "next" path goes on to episode 3. */
  lemma EndedGoesBack()
    ensures var cached := [CachedVideo("a", 1, "/video/a/ep1.mp4"), CachedVideo("a", 2, "/video/a/ep2.mp4"),
                           CachedVideo("a", 3, "/video/a/ep3.mp4")];
            Cascade(cached, "a", 2, -1) == [cached[0]] && Cascade(cached, "a", 2, 1) == [cached[2]]
  {
    var cached := [CachedVideo("a", 1, "/video/a/ep1.mp4"), CachedVideo("a", 2, "/video/a/ep2.mp4"),
                   CachedVideo("a", 3, "/video/a/ep3.mp4")];
    assert cached[1..] == [cached[1], cached[2]] && cached[1..][1..] == [cached[2]] && cached[1..][1..][1..] == [];
  }

  /** The player's buttons. */
  class PlayerView {
    var prevDisabled: bool
    var nextDisabled: bool

    constructor ()
      ensures prevDisabled && nextDisabled
    {
      prevDisabled := true;
      nextDisabled := true;
    }

    /** updatePlayerUI: both buttons start disabled; previous is enabled
        iff the episode before is cached for the anime, next iff the episode
        after is. So a button is enabled exactly when pressing it plays
        something. */
    method UpdatePlayerUI(cached: seq<CachedVideo>, animeId: string, episode: int)
      modifies this
      ensures prevDisabled <==> !HasEpisode(cached, animeId, episode - 1)
      ensures nextDisabled <==> !HasEpisode(cached, animeId, episode + 1)
    {
      prevDisabled := true;
      nextDisabled := true;
      var i := 0;
      while i < |cached|
        invariant 0 <= i <= |cached|
        invariant prevDisabled <==> !HasEpisode(cached[..i], animeId, episode - 1)
        invariant nextDisabled <==> !HasEpisode(cached[..i], animeId, episode + 1)
      {
        var video := cached[i];
        HasEpisodeSnoc(cached, i, animeId, episode - 1);
        HasEpisodeSnoc(cached, i, animeId, episode + 1);
        if animeId == video.animeId {
          if episode == video.episodeNumber + 1 {
            prevDisabled := false;
          }
          if episode == video.episodeNumber - 1 {
            nextDisabled := false;
          }
        }
        i := i + 1;
      }
      assert cached[..i] == cached;
    }
  }

  /** A prefix one video longer has the episode when the shorter one has it
      or the added video is it. */
  lemma HasEpisodeSnoc(cached: seq<CachedVideo>, i: nat, animeId: string, episode: int)
    requires i < |cached|
    ensures HasEpisode(cached[..i + 1], animeId, episode) <==>
            HasEpisode(cached[..i], animeId, episode) || IsEpisode(cached[i], animeId, episode)
  {
    var a, b := cached[..i + 1], cached[..i];
    if HasEpisode(b, animeId, episode) {
      var j :| 0 <= j < |b| && b[j].animeId == animeId && b[j].episodeNumber == episode;
      assert a[j] == b[j];
    }
    if HasEpisode(a, animeId, episode) && !IsEpisode(cached[i], animeId, episode) {
      var j :| 0 <= j < |a| && a[j].animeId == animeId && a[j].episodeNumber == episode;
      assert j < i && b[j] == a[j];
    }
  }

  /** A list has the episode when its first video is it or the rest has it. */
  lemma HasEpisodeCons(cached: seq<CachedVideo>, animeId: string, episode: int)
    ensures cached != [] ==>
              (HasEpisode(cached, animeId, episode) <==>
               IsEpisode(cached[0], animeId, episode) || HasEpisode(cached[1..], animeId, episode))
    ensures cached == [] ==> !HasEpisode(cached, animeId, episode)
  {
    if cached != [] && HasEpisode(cached[1..], animeId, episode) {
      var j :| 0 <= j < |cached[1..]| && IsEpisode(cached[1..][j], animeId, episode);
      assert IsEpisode(cached[j + 1], animeId, episode);
    }
    if cached != [] && HasEpisode(cached, animeId, episode) && !IsEpisode(cached[0], animeId, episode) {
      var j :| 0 <= j < |cached| && IsEpisode(cached[j], animeId, episode);
      assert IsEpisode(cached[1..][j - 1], animeId, episode);
    }
  }

  /** The rest of an ascending list is ascending. */
  lemma AscendingTail(cached: seq<CachedVideo>, animeId: string)
    requires cached != [] && EpisodesAscending(cached, animeId)
    ensures EpisodesAscending(cached[1..], animeId)
  {
    var rest := cached[1..];
    forall i, j | 0 <= i < j < |rest| && rest[i].animeId == animeId && rest[j].animeId == animeId
      ensures rest[i].episodeNumber <= rest[j].episodeNumber
    {
      assert rest[i] == cached[i + 1] && rest[j] == cached[j + 1];
    }
  }

  /** In an ascending list, the first video of the anime comes no later in
      episode order than any later video of it. */
  lemma AscendingHead(cached: seq<CachedVideo>, animeId: string, v: CachedVideo)
    requires cached != [] && EpisodesAscending(cached, animeId)
    requires v in cached[1..] && v.animeId == animeId
    ensures cached[0].animeId == animeId ==> cached[0].episodeNumber <= v.episodeNumber
  {
    var j :| 0 <= j < |cached[1..]| && cached[1..][j] == v;
    assert cached[j + 1] == v;
  }
}
