/** The video entry point (utils/video.py): download_video, its progress
    callback, and the aria2 monitoring loop. */
module Video {
  import opened Strings
  import opened M3u8

  // ---------------------------------------------------------------------------
  // download_video

  /** The episode id download_video works with: the episode number's text with
      every "ep" removed. */
  function CleanEpisodeId(episode: string): (r: string)
    ensures !Contains(episode, "ep") ==> r == episode
  {
    Replace(episode, "ep", "")
  }

  /** Episode numbers given as digits, with or without the "ep" prefix, clean
      to the same digits, so the prefix is never doubled. */
  lemma CleanEpisodeIdDigits(digits: string)
    requires AllDigits(digits)
    ensures CleanEpisodeId(digits) == digits
    ensures CleanEpisodeId("ep" + digits) == digits
  {
    NotContainsFirstChar(digits, "ep");
    var s := "ep" + digits;
    assert StartsWith(s, "ep");
    assert s[2..] == digits;
  }

  /** The path download_video hands back on success, relative to the video
      directory: `<anime>/ep<clean>.m3u8`. */
  function ResultPath(animeId: string, clean: string): (r: string)
    ensures EndsWith(r, ".m3u8")
    ensures animeId != "" && !EndsWith(animeId, "/") ==> r == animeId + "/ep" + clean + ".m3u8"
  {
    PathJoin(animeId, "ep" + clean + ".m3u8")
  }

  /** The returned path is the downloader's manifest path, the one its final
      report carries. */
  lemma ResultPathIsManifest(animeId: string, clean: string)
    ensures ResultPath(animeId, clean) == PathJoin(animeId, "ep" + clean) + ".m3u8"
  {
    assert ("ep" + clean)[0] == 'e' && ("ep" + clean + ".m3u8")[0] == 'e';
    assert !StartsWith("ep" + clean, "/");
    assert !StartsWith("ep" + clean + ".m3u8", "/");
    assert animeId + ("ep" + clean + ".m3u8") == animeId + ("ep" + clean) + ".m3u8";
    assert animeId + "/" + ("ep" + clean + ".m3u8") == animeId + "/" + ("ep" + clean) + ".m3u8";
  }

  /** download_video's URL guards: a non-empty URL starting with "http" ... */
  predicate AcceptedUrl(url: string) {
    url != "" && StartsWith(url, "http")
  }

  /** ... whose lower-cased text contains ".m3u8". */
  predicate HlsUrl(url: string) {
    Contains(ToLower(url), ".m3u8")
  }

  /** The outcome download_video makes of the downloader's reports: the path,
      with the final report of 100 carrying it (or, when the count of segments
      went past the total, the segment reports up to 100); otherwise None, with
      one -1 report added for a truthy task id. */
  ghost predicate Outcome(path: Option<string>, expected: string, taskTruthy: bool, reports: seq<Report>) {
    var init := if reports == [] then [] else reports[..|reports| - 1];
    (path.Some? ==>
       path.value == expected &&
       (ReportsOk(reports, 100) ||
        (reports != [] && reports[|reports| - 1].percent == 100 &&
         reports[|reports| - 1].path == Some(path.value) && ReportsOk(init, LastPercent(init))))) &&
    (path.None? && taskTruthy ==>
       reports != [] && reports[|reports| - 1] == Report(-1, None, None) && ReportsOk(init, LastPercent(init))) &&
    (path.None? && !taskTruthy ==> ReportsOk(reports, LastPercent(reports)))
  }

  /** What download_video returns when the downloader never gets to 100: None,
      with one report of -1 for a truthy task id. */
  function Failed(taskTruthy: bool): (reports: seq<Report>)
    ensures |reports| <= 1
    ensures reports != [] <==> taskTruthy
  {
    if taskTruthy then [Report(-1, None, None)] else []
  }

  /** Lines 708-730 for a URL past the guards, as written: construct the
      downloader with 10 retries. Its constructor raises before a segment is
      fetched (M3u8Download.RunAsWritten), so the run always ends in the
      handler: None, with a report of -1 for a truthy task id and no other
      report. */
  method Delegate(videoUrl: string, animeId: string, clean: string, taskTruthy: bool,
                  replies: seq<Reply>, dirExists: bool, dir: map<DirEntry, nat>,
                  manifest: Option<seq<OutLine>>)
    returns (path: Option<string>, reports: seq<Report>)
    requires dirExists || dir == map[]
    ensures path == None && reports == Failed(taskTruthy)
    ensures Outcome(path, ResultPath(animeId, clean), taskTruthy, reports)
  {
    var d := new M3u8Download(videoUrl, animeId, clean, 10, [], replies, dirExists, dir, manifest);
    var raised := d.RunAsWritten();
    ReportsOkEmpty();
    path, reports := Conclude(raised, d.progress, d.reports, d.successSum == d.tsSum, d.tsSum > 0,
                              ResultPath(animeId, clean), taskTruthy);
  }

  /** Lines 708-730 with the downloader's constructor corrected (M3u8Download.Run):
      the path when the run reached 100, otherwise None and a report of -1 for
      a truthy task id. */
  method DelegateCorrected(videoUrl: string, animeId: string, clean: string, taskTruthy: bool,
                           replies: seq<Reply>, dirExists: bool, dir: map<DirEntry, nat>,
                           manifest: Option<seq<OutLine>>)
    returns (path: Option<string>, reports: seq<Report>)
    requires dirExists || dir == map[]
    ensures Outcome(path, ResultPath(animeId, clean), taskTruthy, reports)
  {
    var d := new M3u8Download(videoUrl, animeId, clean, 10, [], replies, dirExists, dir, manifest);
    var raised := d.Run();
    ResultPathIsManifest(animeId, clean);
    path, reports := Conclude(raised, d.progress, d.reports, d.successSum == d.tsSum, d.tsSum > 0,
                              ResultPath(animeId, clean), taskTruthy);
  }

  /** What download_video makes of a finished run: the path when the run
      ended at progress 100 without an exception, otherwise None and, for a
      truthy task id, one more report of -1. */
  method Conclude(raised: bool, progress: int, runReports: seq<Report>, full: bool, positive: bool,
                  expected: string, taskTruthy: bool)
    returns (path: Option<string>, reports: seq<Report>)
    requires raised || !full ==> ReportsOk(runReports, progress)
    requires full && !raised ==>
               progress == 100 && |runReports| > 0 &&
               ReportsOk(runReports[..|runReports| - 1], if positive then 100 else 0) &&
               runReports[|runReports| - 1].percent == 100 && runReports[|runReports| - 1].path == Some(expected)
    ensures Outcome(path, expected, taskTruthy, reports)
    ensures raised || progress != 100 ==> path == None && reports == runReports + Failed(taskTruthy)
  {
    if !raised && progress == 100 {
      return Some(expected), runReports;
    }
    path := None;
    if taskTruthy {
      reports := runReports + [Report(-1, None, None)];
      assert reports[..|reports| - 1] == runReports;
    } else {
      reports := runReports;
    }
  }

  /** download_video with its environment as parameters: the downloader's reply
      script, segment directory and manifest. A URL refused by the guards, or
      not an HLS URL (the ValueError its own handler catches), returns None
      with no report. Otherwise the downloader is constructed with 10 retries;
      its constructor raises (M3u8Download.RunAsWritten), and the handler
      returns None with one report of -1 when the task id is truthy: as
      written, no HLS download ever returns a path. */
  method DownloadVideo(videoUrl: string, animeId: string, episodeNumber: string, taskTruthy: bool,
                       replies: seq<Reply>, dirExists: bool, dir: map<DirEntry, nat>,
                       manifest: Option<seq<OutLine>>)
    returns (path: Option<string>, reports: seq<Report>)
    requires dirExists || dir == map[]
    ensures path == None
    ensures !AcceptedUrl(videoUrl) || !HlsUrl(videoUrl) ==> reports == []
    ensures AcceptedUrl(videoUrl) && HlsUrl(videoUrl) ==> reports == Failed(taskTruthy)
  {
    if !AcceptedUrl(videoUrl) {
      return None, [];
    }
    if !HlsUrl(videoUrl) {
      return None, [];
    }
    var clean := CleanEpisodeId(episodeNumber);
    path, reports := Delegate(videoUrl, animeId, clean, taskTruthy, replies, dirExists, dir, manifest);
  }

  /** download_video over the corrected downloader: the same guards; past them
      a run ending at progress 100 without an exception returns the manifest
      path, and any other outcome reaches the undefined name on line 730, whose
      NameError is caught: one report of -1 when the task id is truthy, and
      None. */
  method DownloadVideoCorrected(videoUrl: string, animeId: string, episodeNumber: string, taskTruthy: bool,
                                replies: seq<Reply>, dirExists: bool, dir: map<DirEntry, nat>,
                                manifest: Option<seq<OutLine>>)
    returns (path: Option<string>, reports: seq<Report>)
    requires dirExists || dir == map[]
    ensures !AcceptedUrl(videoUrl) || !HlsUrl(videoUrl) ==> path == None && reports == []
    ensures AcceptedUrl(videoUrl) && HlsUrl(videoUrl) ==>
              Outcome(path, ResultPath(animeId, CleanEpisodeId(episodeNumber)), taskTruthy, reports)
  {
    if !AcceptedUrl(videoUrl) {
      return None, [];
    }
    if !HlsUrl(videoUrl) {
      return None, [];
    }
    var clean := CleanEpisodeId(episodeNumber);
    path, reports := DelegateCorrected(videoUrl, animeId, clean, taskTruthy, replies, dirExists, dir, manifest);
  }

  // ---------------------------------------------------------------------------
  // update_progress

  /** The progress callback download_video defines (lines 716-723): the
      integer progress is stored only for a truthy task id, and only when it is
      even or at least 98. Some(p) is the value stored. */
  function UpdateProgress(taskTruthy: bool, progress: int): (r: Option<int>)
    ensures r.Some? ==> r.value == progress && taskTruthy
    ensures taskTruthy && progress >= 98 ==> r.Some?
    ensures r.None? && taskTruthy ==> progress % 2 == 1 && progress < 98
  {
    if taskTruthy && (progress % 2 == 0 || progress >= 98) then Some(progress) else None
  }

  /** With a task id, of two consecutive percentages at least one is stored,
      so the stored progress never lags by more than one point. */
  lemma UpdateProgressNoGap(progress: int)
    ensures UpdateProgress(true, progress).Some? || UpdateProgress(true, progress + 1).Some?
  {
    assert progress % 2 == 0 || (progress + 1) % 2 == 0;
  }

  // ---------------------------------------------------------------------------
  // The aria2 monitoring loop

  /** One poll of aria2.tellStatus: an RPC error result, an exception, or a
      status with the download's total and completed lengths. */
  datatype Poll =
    | RpcError
    | PollRaised
    | Status(status: string, total: nat, completed: nat)

  /** How the loop ended. */
  datatype Aria2End = Completed | ErrorStatus | RemovedStatus | GaveUp

  /** The polling budget: at most 60 retries. */
  const MaxRetries: nat := 60

  /** The poll answered at step j; after the script, every poll raises. */
  function PollAt(polls: seq<Poll>, j: nat): Poll {
    if j < |polls| then polls[j] else PollRaised
  }

  /** A status that ends the loop. */
  predicate Terminal(p: Poll) {
    p.Status? && (p.status == "complete" || p.status == "error" || p.status == "removed")
  }

  /** A poll that is counted as a retry: an RPC error, an exception, or any
      status other than active and waiting (paused included). */
  predicate CountsAsRetry(p: Poll) {
    !p.Status? || (p.status != "active" && p.status != "waiting")
  }

  /** A status that carries a progress value: active, waiting or paused with a
      positive total. */
  predicate HasPercent(p: Poll) {
    p.Status? && (p.status == "active" || p.status == "waiting" || p.status == "paused") && p.total > 0
  }

  /** The integer percentage of a progress-carrying status, floored. */
  function PollPercent(p: Poll): (r: int)
    requires HasPercent(p)
    ensures r >= 0 && (p.completed <= p.total ==> r <= 100)
  {
    if p.completed <= p.total then
      PercentLe(p.completed, p.total, p.total);
      PercentFull(p.total);
      Percent(p.completed, p.total)
    else
      Percent(p.completed, p.total)
  }

  /** How many of the first n polls count as retries. */
  function RetryCount(polls: seq<Poll>, n: nat): (c: nat)
    ensures c <= n
  {
    if n == 0 then 0 else RetryCount(polls, n - 1) + (if CountsAsRetry(PollAt(polls, n - 1)) then 1 else 0)
  }

  /** The percentages observed in the first n polls, in order. */
  function Observed(polls: seq<Poll>, n: nat): seq<int> {
    if n == 0 then []
    else
      var p := PollAt(polls, n - 1);
      Observed(polls, n - 1) + (if HasPercent(p) then [PollPercent(p)] else [])
  }

  /** The largest of xs, or d when none exceeds d. */
  function MaxOr(xs: seq<int>, d: int): (m: int)
    ensures m >= d
    ensures forall i :: 0 <= i < |xs| ==> xs[i] <= m
    ensures m == d || m in xs
  {
    if xs == [] then d
    else
      var m := MaxOr(xs[..|xs| - 1], d);
      if xs[|xs| - 1] > m then xs[|xs| - 1] else m
  }

  /** The values of xs that exceed every earlier value and d: the ones the
      callback receives. */
  function Records(xs: seq<int>, d: int): seq<int> {
    if xs == [] then []
    else
      Records(xs[..|xs| - 1], d) + (if xs[|xs| - 1] > MaxOr(xs[..|xs| - 1], d) then [xs[|xs| - 1]] else [])
  }

  /** The values passed to the callback are strictly increasing, each above d
      and taken from the observed ones; the last is the maximum observed. */
  lemma {:induction false} RecordsIncreasing(xs: seq<int>, d: int)
    ensures forall i, j :: 0 <= i < j < |Records(xs, d)| ==> Records(xs, d)[i] < Records(xs, d)[j]
    ensures forall i :: 0 <= i < |Records(xs, d)| ==> d < Records(xs, d)[i] <= MaxOr(xs, d) && Records(xs, d)[i] in xs
    ensures Records(xs, d) != [] ==> Records(xs, d)[|Records(xs, d)| - 1] == MaxOr(xs, d)
    ensures Records(xs, d) == [] ==> MaxOr(xs, d) == d
    decreases |xs|
  {
    if xs != [] {
      var init, x := xs[..|xs| - 1], xs[|xs| - 1];
      assert xs == init + [x];
      RecordsIncreasing(init, d);
      var r, m := Records(init, d), MaxOr(init, d);
      var rs := Records(xs, d);
      assert rs == r + (if x > m then [x] else []);
      assert MaxOr(xs, d) == (if x > m then x else m);
      forall i | 0 <= i < |r| ensures r[i] in xs {
        assert r[i] in init;
      }
      if x > m {
        forall i, j | 0 <= i < j < |rs| ensures rs[i] < rs[j] {
          if j < |r| {
            assert rs[i] == r[i] && rs[j] == r[j];
          } else {
            assert rs[i] == r[i] <= m < x == rs[j];
          }
        }
        forall i | 0 <= i < |rs| ensures d < rs[i] <= MaxOr(xs, d) && rs[i] in xs {
          if i < |r| {
            assert rs[i] == r[i];
          } else {
            assert rs[i] == x == xs[|xs| - 1];
          }
        }
      } else {
        assert rs == r;
      }
    }
  }

  /** One more value extends the records by itself exactly when it exceeds
      the maximum so far. */
  lemma RecordsSnoc(xs: seq<int>, x: int, d: int)
    ensures Records(xs + [x], d) == Records(xs, d) + (if x > MaxOr(xs, d) then [x] else [])
    ensures MaxOr(xs + [x], d) == if x > MaxOr(xs, d) then x else MaxOr(xs, d)
  {
    assert (xs + [x])[..|xs|] == xs;
  }

  /** One more poll adds its percentage, if it carries one, to the observed ones. */
  lemma ObservedStep(polls: seq<Poll>, n: nat)
    ensures HasPercent(PollAt(polls, n)) ==>
              Observed(polls, n + 1) == Observed(polls, n) + [PollPercent(PollAt(polls, n))]
    ensures !HasPercent(PollAt(polls, n)) ==> Observed(polls, n + 1) == Observed(polls, n)
  {
  }

  /** The monitoring loop's state after `steps` polls none of which ended it:
      the retries counted, the percentages called back and the last of them. */
  ghost predicate Running(polls: seq<Poll>, steps: nat, retries: nat, callbacks: seq<int>, lastProgress: int) {
    retries == RetryCount(polls, steps) &&
    callbacks == Records(Observed(polls, steps), -1) &&
    lastProgress == MaxOr(Observed(polls, steps), -1) &&
    forall j :: 0 <= j < steps ==> !Terminal(PollAt(polls, j))
  }

  /** One pass of download_with_aria2's monitoring loop: the poll at `steps`
      either ends the loop (stop is the way it ended) or updates the retries
      and the percentages called back. */
  method Aria2Poll(polls: seq<Poll>, steps: nat, retries: nat, callbacks: seq<int>, lastProgress: int)
    returns (retries': nat, callbacks': seq<int>, lastProgress': int, stop: Option<Aria2End>)
    requires Running(polls, steps, retries, callbacks, lastProgress)
    ensures stop.None? ==> !Terminal(PollAt(polls, steps)) &&
                           Running(polls, steps + 1, retries', callbacks', lastProgress')
    ensures stop.Some? ==> Terminal(PollAt(polls, steps)) && retries' == retries && !stop.value.GaveUp? &&
                           (stop.value.Completed? <==> PollAt(polls, steps).status == "complete") &&
                           (stop.value.ErrorStatus? <==> PollAt(polls, steps).status == "error")
    ensures stop == Some(Completed) ==> callbacks' == callbacks + [100]
    ensures stop.Some? && stop != Some(Completed) ==> callbacks' == Records(Observed(polls, steps + 1), -1)
  {
    var p := PollAt(polls, steps);
    ObservedStep(polls, steps);
    retries', callbacks', lastProgress', stop := retries, callbacks, lastProgress, None;
    if !p.Status? {
      retries' := retries + 1;
    } else if p.status == "complete" {
      callbacks', stop := callbacks + [100], Some(Completed);
    } else if p.status == "error" {
      stop := Some(ErrorStatus);
    } else if p.status == "removed" {
      stop := Some(RemovedStatus);
    } else {
      if HasPercent(p) {
        var pro := PollPercent(p);
        RecordsSnoc(Observed(polls, steps), pro, -1);
        if pro > lastProgress {
          lastProgress', callbacks' := pro, callbacks + [pro];
        }
      }
      if CountsAsRetry(p) {
        retries' := retries + 1;
      }
    }
  }

  /** download_with_aria2's monitoring loop over a script of polls, with the
      size of the output file afterwards (None when it does not exist). The
      loop runs while not completed and fewer than 60 retries were counted:
      "complete" calls back 100 and stops, "error" and "removed" return False
      at once, a progress-carrying status calls back the percentage when it
      exceeds the last one called back (from -1). The result is then whether
      the output file exists with a positive size, whether or not the loop
      gave up. */
  method Aria2Monitor(polls: seq<Poll>, outputSize: Option<nat>)
    returns (ok: bool, callbacks: seq<int>, retries: nat, steps: nat, end: Aria2End)
    ensures retries <= MaxRetries
    ensures end.GaveUp? ==> retries == RetryCount(polls, steps)
    ensures !end.GaveUp? ==> steps > 0 && retries == RetryCount(polls, steps - 1)
    ensures end.GaveUp? <==> retries == MaxRetries && forall j :: 0 <= j < steps ==> !Terminal(PollAt(polls, j))
    ensures !end.GaveUp? ==>
              steps > 0 && Terminal(PollAt(polls, steps - 1)) &&
              (forall j :: 0 <= j < steps - 1 ==> !Terminal(PollAt(polls, j))) &&
              (end.Completed? <==> PollAt(polls, steps - 1).status == "complete") &&
              (end.ErrorStatus? <==> PollAt(polls, steps - 1).status == "error")
    ensures end.ErrorStatus? || end.RemovedStatus? ==> !ok
    ensures end.Completed? || end.GaveUp? ==> (ok <==> outputSize.Some? && outputSize.value > 0)
    ensures end.Completed? ==> callbacks == Records(Observed(polls, steps - 1), -1) + [100]
    ensures !end.Completed? ==> callbacks == Records(Observed(polls, steps), -1)
  {
    retries := 0;
    var lastProgress := -1;
    callbacks := [];
    steps := 0;
    end := GaveUp;
    while retries < MaxRetries
      invariant retries <= MaxRetries && Running(polls, steps, retries, callbacks, lastProgress)
      decreases MaxRetries - retries + (|polls| - if steps < |polls| then steps else |polls|)
    {
      var stop;
      retries, callbacks, lastProgress, stop := Aria2Poll(polls, steps, retries, callbacks, lastProgress);
      steps := steps + 1;
      if stop.Some? {
        end := stop.value;
        ok := end.Completed? && outputSize.Some? && outputSize.value > 0;
        return;
      }
    }
    ok := outputSize.Some? && outputSize.value > 0;
  }
}
