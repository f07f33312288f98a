# anime_crawler, modelled in Dafny

anime_crawler is a small Flask application. It crawls an anime site
(yhdm.one), turns a chosen range of episodes into download tasks, and
downloads each episode's HLS stream. To download a stream it resolves the
playlist, fetches every `.ts` segment, and writes a local manifest that points
at the fetched files. A scheduler re-runs periodic tasks once a day. The
application serves the cached files with HTTP range support and offers two
pages: a player and a crawler/task page.

This project models the core of that system in Dafny 4.11 and proves
properties of the model:

| file | models |
|---|---|
| `strings.dfy` | the Python and JavaScript string operations the core relies on: split/join, replace, lower-casing, decimal text, `os.path.join` |
| `sorting.dfy` | an insertion sort, proved sorted and a permutation, the reference for `ORDER BY` and `Array.sort`; the order of ties is not stated |
| `m3u8.dfy` | `utils/m3u8.py`: playlist resolution, key redirection, the manifest rewrite, segment fetching with retries, and progress reporting (class `M3u8Download`) |
| `video.dfy` | `download_video`, as written and over the corrected downloader, and the aria2 monitoring loop of `utils/video.py` |
| `app.dfy` | `serve_video`: content sniffing, the disposition header, range parsing and the chunked body |
| `executor.dfy` | `execute_task` of `tasks/executor.py` |
| `operations.dfy` | the task, result and anime tables of `database/operations.py` (class `Database`) |
| `models.dfy` | `init_db` and `check_and_add_column` of `database/models.py` (class `Store`) |
| `scheduler.dfy` | `TaskScheduler` of `tasks/scheduler.py` |
| `network.dfy` | `make_request` and the domain helpers of `utils/network.py` |
| `crawler.dfy` | the path builders, `extract_anime_id` and `get_episode_video` of `core/crawler.py` |
| `filesystem.dfy` | `utils/filesystem.py` over a file system modelled as a map (class `Disk`) |
| `player.dfy` | format detection, error texts, URL completion and episode navigation of `static/js/player.js` |
| `crawler_page.dfy` | the time encoding, episode selection, pagination, status labels and result order of `static/js/crawler.js` |

The environment is passed in as parameters:

- HTTP replies are a scripted sequence. A request consumes the next reply; once the script is used up, every request raises.
- The clock and today's midnight are integers.
- The disk is a map from paths (or segment-directory entries) to sizes.
- HTML scraping, JSON decoding and the downloader are functions given to the model.

The model does not use random choice. Where the source picks at random, the
pick is an index parameter.

## Model

| member | source | states |
|---|---|---|
| M3u8.ResolveEndsWithLine | utils/m3u8.py:104-109 | a resolved playlist URI ends with the line it came from; a relative line keeps the current URL up to its last `/` |
| M3u8.ResolveAll | utils/m3u8.py:140-145 | every segment line is resolved, in order, one URL per line |
| M3u8.SelectVariant | utils/m3u8.py:100-109 | the URL chosen from a master playlist: starting from the requested URL, every line without `#`, the empty line included, is resolved against the URL chosen so far, so the last such line decides |
| M3u8.SelectVariantTagsOnly | utils/m3u8.py:100-110 | lines holding `#` never move the URL chosen from a master playlist |
| M3u8.SelectVariantLastWins | utils/m3u8.py:100-110 | the last line without `#` decides the variant, resolved against the URL chosen before it |
| M3u8.TrailingNewlineSelectsDirectory | utils/m3u8.py:100-109 | a master playlist whose text ends with a newline selects its last, empty line, so the URL becomes a directory ending in `/` |
| M3u8.TrailingEmptyLine | utils/m3u8.py:101 | splitting a text that ends with the separator yields an empty last part |
| M3u8.FindQuote | utils/m3u8.py:194 | the first position at or after a start holding a quote, a double quote or a vertical bar (the regular expression's character class), and none before it |
| M3u8.MatchUriFrom | utils/m3u8.py:194 | the leftmost `URI=` followed by a quote character, with the lazily matched closing quote |
| M3u8.NoUriNoMatch | utils/m3u8.py:194 | a line without `URI=` has no match, so `download_key` raises on it |
| M3u8.MatchedAttribute | utils/m3u8.py:194 | the matched text starts with `URI=` and holds at least the two quotes after it |
| M3u8.RedirectKeyLineShape | utils/m3u8.py:196-210 | a redirected key directive keeps the text before the attribute and names `./<name>/key`; the text after the attribute is kept only when the key came from the network |
| M3u8.Rewrite | utils/m3u8.py:125-147 | get_ts_url's walk over a media playlist: a line without `#` becomes the next local segment entry and its URI is kept, a key directive is dropped, redirected or copied as decided for it, any other tag is copied, and the walk ends after the first tag holding `EXT-X-ENDLIST` |
| M3u8.RewriteStepSegs | utils/m3u8.py:127-147 | a step that has not stopped adds exactly the line when it is a segment line, and nothing otherwise |
| M3u8.RewriteNumbersSegments | utils/m3u8.py:126-148 | the k-th segment line becomes local entry k; the manifest's segment references are 0, 1, … in order |
| M3u8.RewriteKeepsSegmentOrder | utils/m3u8.py:127-145 | until `EXT-X-ENDLIST` stops the walk, the segment URIs are exactly the segment lines, in order |
| M3u8.RewriteStoppedStays | utils/m3u8.py:137-138 | once stopped, later lines change nothing |
| M3u8.RewriteStopsAtEndlist | utils/m3u8.py:136-138 | the first tag line holding `EXT-X-ENDLIST` stops the walk and ends the manifest with that line |
| M3u8.LocalEntryInjective | utils/m3u8.py:147 | distinct segments get distinct local entries |
| M3u8.CountSegmentsFull | utils/m3u8.py:79-81 | all n segment files are present exactly when the count reaches n |
| M3u8.Percent | utils/m3u8.py:172-183 | the progress percentage `int(100 * s // t)`: 100 times the counted segments, floor-divided by the number of segments |
| M3u8.PercentOfNone | utils/m3u8.py:172-183 | no counted segment is 0 percent |
| M3u8.PercentMonotone | utils/m3u8.py:172-183 | the percentage never falls as segments are counted |
| M3u8.PercentFull | utils/m3u8.py:172-183 | counting the last segment gives 100 |
| M3u8.SumSizes | utils/m3u8.py:84-86 | the loop's total is the sum of the file sizes in the directory |
| M3u8.M3u8Download.constructor | utils/m3u8.py:52-71 | the fields start from the arguments: the URL, the names `ep<n>` and `<anime>/ep<n>`, the retry count, no segments and progress 0 |
| M3u8.M3u8Download.Fetch | utils/m3u8.py:98 | a GET records the request and consumes the next reply, or raises once the script is used up |
| M3u8.M3u8Download.DeleteFile | utils/m3u8.py:242-250 | raises exactly when the segment directory or the manifest is missing; otherwise both are gone |
| M3u8.M3u8Download.DownloadKey | utils/m3u8.py:190-217 | no match raises; an inline key writes the key file without a request; otherwise the key URI is requested, resolved against the playlist, and a raising fetch gives None |
| M3u8.M3u8Download.KeyDirective | utils/m3u8.py:128-135 | a key directive is dropped when the key file exists, redirected after the key is fetched, or kept on None; only a directive without a quoted URI raises; any other line is kept untouched |
| M3u8.M3u8Download.VisitLine | utils/m3u8.py:127-145 | one playlist line: a key directive handled as above, a segment line resolved and appended to the segment list |
| M3u8.M3u8Download.WalkLines | utils/m3u8.py:125-147 | the loop's output is the rewrite of the lines visited; the segment list grows by those lines resolved; only the key file may change in the directory |
| M3u8.M3u8Download.WalkPlaylist | utils/m3u8.py:125-153 | the whole walk, with the manifest written from the rewrite unless a line raised |
| M3u8.M3u8Download.GetTsUrl | utils/m3u8.py:119-153 | the directory exists afterwards, the segment total is the number listed, progress stays 0 and no report is made |
| M3u8.M3u8Download.FollowVariant | utils/m3u8.py:101-109 | the URL becomes the variant chosen by the master playlist |
| M3u8.M3u8Download.FollowMaster | utils/m3u8.py:100-110 | the variant chosen from the master playlist is fetched by a nested get_m3u8_info with a fresh budget of `num_retries` on the rest of the replies: its outcome is the Tried contract for that variant |
| M3u8.M3u8Download.HandledMaster | utils/m3u8.py:99-110 | a master reply counts as handled once the nested get_m3u8_info on its variant has run from the state with the reply's origin recorded |
| M3u8.M3u8Download.MasterThenMedia | utils/m3u8.py:97-113 | a master playlist answered first and a media playlist without keys next: the URL and then the variant are requested, and the URL, origin, manifest, segment count and segment list all come from the media playlist, resolved against the variant |
| M3u8.M3u8Download.FirstHandled | utils/m3u8.py:97-113 | a first reply that neither raises nor is empty is the one handled, after a single request |
| M3u8.M3u8Download.TriedAnswered | utils/m3u8.py:97-113 | conversely, handling such a first reply after one request is a complete get_m3u8_info |
| M3u8.M3u8Download.TriedRefused | utils/m3u8.py:114-117 | a refused first reply with no budget left ends get_m3u8_info after one request with nothing else changed |
| M3u8.M3u8Download.Attempt | utils/m3u8.py:97-117 | one try requests the URL; a raising or empty-path reply fails it with nothing else changed; any other reply is handled (a master playlist followed, a media playlist walked), and the try fails only for a media playlist with a key directive lacking a quoted URI |
| M3u8.M3u8Download.Answered | utils/m3u8.py:99-113 | a reply that did not raise records its origin and is followed when it is a master playlist and walked when it is a media playlist; it raises only on a key directive lacking a quoted URI |
| M3u8.M3u8Download.GetM3u8Info | utils/m3u8.py:93-117 | with j refused replies at the head of the script: the URL is requested first; when j exceeds the budget or every reply is refused it is requested exactly `max(n,0) + 1` times and nothing else changes; otherwise it is requested j + 1 times and the next reply is handled as one try, a master playlist followed by a nested get_m3u8_info on its variant with a fresh budget and a media playlist whose key directives carry URIs walked |
| M3u8.M3u8Download.Retry | utils/m3u8.py:114-117 | the `except` branch: retrying with budget n - 1 after a failed try keeps the promise of get_m3u8_info(u, n) from before that try |
| M3u8.M3u8Download.RetryShift | utils/m3u8.py:114-117 | a refused reply costs one request of the URL and one unit of budget: the retry's promise from after it is the caller's promise from before it |
| M3u8.M3u8Download.RetryShiftOut | utils/m3u8.py:114-117 | the shift for a script that runs out of answers within the budget: `Budget(n)` requests and nothing else changed |
| M3u8.M3u8Download.RetryShiftFirst | utils/m3u8.py:114-117 | the shift for the first answer after the refused replies: it is handled after one more request of the URL |
| M3u8.M3u8Download.CountSegment | utils/m3u8.py:179-183 | the success count grows by one; with segments listed, progress is the integer percentage and a report is made exactly when it rises; with none, division by zero raises |
| M3u8.M3u8Download.TrySegment | utils/m3u8.py:159-188 | one try of a segment: a present file is counted without a request; a 200 answer writes and counts the file; another status changes nothing; a raise removes the file |
| M3u8.M3u8Download.CountPresent | utils/m3u8.py:178-186 | a present segment is counted, or the file is removed again when counting raises |
| M3u8.M3u8Download.DownloadTs | utils/m3u8.py:155-188 | the first line of the URI is requested; a segment is counted exactly when its file ends up present; a non-200 answer is retried; a raise is retried while the budget lasts |
| M3u8.M3u8Download.RetryTs | utils/m3u8.py:176-188 | the retry after a non-200 answer, or after an exception with budget left: download_ts(u, k, n - 1) touches only `k.ts`, keeps the URL as the first new request, counts the segment exactly when its file ends up present, and after a non-200 first answer makes at least one more request |
| M3u8.M3u8Download.SubmitSegment | utils/m3u8.py:79-80 | after segment k, the count equals the segment files 0..k present, and each present file holds what its listed URI returned |
| M3u8.M3u8Download.FetchAll | utils/m3u8.py:78-80 | after the loop, the count equals the files present; every segment is counted exactly when all files exist; other files are kept |
| M3u8.M3u8Download.Finish | utils/m3u8.py:81-89 | when every segment was counted, progress is set to 100 and a last report carries the manifest path and the total size; it raises only when the manifest or directory is missing |
| M3u8.M3u8Download.ClearStale | utils/m3u8.py:74-75 | afterwards neither the segment directory nor the manifest exists |
| M3u8.M3u8Download.Prepare | utils/m3u8.py:73-76 | stale artifacts are cleared and the job's URL is requested first; no segment file is present; the outcome is get_m3u8_info on the job's URL with the configured budget, from the cleared state |
| M3u8.M3u8Download.Run | utils/m3u8.py:73-91 | when all listed segments are counted, the reports are strictly increasing, end at 100, and the last one carries the manifest path and size; the only exception left is the completion step's |
| M3u8.M3u8Download.RunAsWritten | utils/m3u8.py:73-77 | as written, `__init__` aborts at line 75 (no segment directory or manifest yet) or at line 77: no segment is fetched, progress stays 0 and no report is made |
| Video.CleanEpisodeId | utils/video.py:708 | an episode number without `ep` is kept as it is |
| Video.CleanEpisodeIdDigits | utils/video.py:707-708 | digits, with or without an `ep` prefix, clean to the same digits |
| Video.ResultPath | utils/video.py:728-729 | the returned path ends in `.m3u8` and is `<anime>/ep<clean>.m3u8` |
| Video.ResultPathIsManifest | utils/video.py:729 | the returned path is the manifest path the downloader's final report carries |
| Video.Delegate | utils/video.py:726-732 | as written the downloader's constructor always raises, so the result is None with a single -1 report for a truthy task id and none otherwise |
| Video.DelegateCorrected | utils/video.py:726-732 | over the corrected downloader: full progress returns the manifest path, anything else ends in None with one -1 report for a task |
| Video.Failed | utils/video.py:902-905 | the handler's reports: exactly one, of -1, when the task id is truthy |
| Video.Outcome | utils/video.py:728-905 | what download_video makes of the downloader's reports: the expected path with a final report of 100 carrying it, or None with one -1 report added for a truthy task id |
| Video.Conclude | utils/video.py:728-905 | full progress without an exception returns the path; any other outcome reaches the NameError and returns None with the run's reports plus the -1 report for a truthy task id |
| Video.DownloadVideo | utils/video.py:674-905 | as written it always returns None: a URL failing the http or `.m3u8` guard with no report, any other with a single -1 report for a truthy task id |
| Video.DownloadVideoCorrected | utils/video.py:674-905 | with the downloader corrected: a URL failing a guard returns None with no report; otherwise the manifest path with reports ending at 100, or None with the -1 report for a task |
| Video.UpdateProgress | utils/video.py:716-723 | a progress value is stored only for a task, and exactly when it is even or at least 98 |
| Video.UpdateProgressNoGap | utils/video.py:719-722 | of two consecutive percentages at least one is stored |
| Video.PollPercent | utils/video.py:625-627 | the floored percentage is non-negative and at most 100 when completed does not exceed total |
| Video.RetryCount | utils/video.py:583-655 | the retries counted in n polls are at most n |
| Video.RecordsIncreasing | utils/video.py:630-643 | the values called back are strictly increasing and taken from the observed ones; the last is the maximum |
| Video.Aria2Poll | utils/video.py:584-655 | one poll either continues the loop with its state advanced or stops on complete, error or removed, with the callbacks so far |
| Video.Aria2Monitor | utils/video.py:578-666 | stops at the first terminal status or after 60 retries; error and removed fail; success needs a non-empty output file; the callbacks are the rising percentages, then 100 on completion |
| App.SplitExt | app.py:214 | `os.path.splitext`: the two parts rebuild the path; the extension is empty or a dotted tail with no `/` |
| App.ExtOfBasename | app.py:284-286 | the extension of a path is the extension of its basename |
| App.Sniff | app.py:218-246 | an empty file fails the read; MPEG-TS is detected exactly when bytes 0 and 187 are the sync byte |
| App.MatroskaUnreachable | app.py:232-242 | no header is sniffed as Matroska; an EBML header is WebM unless it is MPEG-TS or carries `ftyp` |
| App.ExtensionType | app.py:250-261 | `.ts` is MPEG-TS; an unlisted extension takes the guessed type or `application/octet-stream` |
| App.ContentType | app.py:214-278 | the sniffed type wins; otherwise the type of the lower-cased extension |
| App.Disposition | app.py:281-287 | anything but MPEG-TS under a non-`.ts` name is served inline under its basename |
| App.DispositionEndsWithExt | app.py:281 | a `.ts` name keeps its own extension before the closing quote |
| App.DispositionKeepsTs | app.py:281-284 | a `.ts` file, in any case, keeps its name |
| App.DispositionRenamesTs | app.py:284-287 | MPEG-TS content under another extension is renamed to `<stem>.ts` |
| App.DispositionNamesTs | app.py:281-287 | MPEG-TS content is always offered under a name ending in `.ts` up to case |
| App.SearchRange | app.py:315 | a match at the head of the header is the search result |
| App.RangeBounds | app.py:312-323 | an unmatched header asks for 0..size-1; a matched one for its start and its end, or size-1 |
| App.RangeMatch | app.py:315-321 | the pattern `bytes=(\d+)-(\d*)` matched at one position: the first digit run is the start, and the digit run after `-`, when there is one, the end |
| App.RangeMatchOf | app.py:315-321 | `bytes=<digits>-<tail>` matches with the digits' value and the tail's leading digits |
| App.RangeRoundTripClosed | app.py:312-323 | a header written as `bytes=a-b` is read back as a..b |
| App.RangeRoundTripOpen | app.py:320-323 | a header written as `bytes=a-` is read back as a..size-1 |
| App.Window | app.py:294-307 | the bytes generate(start, end) yields: from start through end, cut at the end of the file, and none when start is past the file or end is before start |
| App.Generate | app.py:294-307 | the chunks, each non-empty and at most 1 MiB, concatenate to exactly the requested window |
| App.RangeResponse | app.py:310-358 | 206 with `bytes start-end/size`, the end clipped to size-1, a length of end-start+1 and those bytes |
| App.ServeVideo | app.py:204-376 | 404 exactly when the file is missing; a non-empty Range header gives the range answer; otherwise 200 with the whole file, its type and disposition |
| Executor.FirstEpisode | tasks/executor.py:35-59 | the first episode is at least 1, and is the stored start when that is positive |
| Executor.Range | tasks/executor.py:67 | the episodes first..last-1 in order |
| Executor.FinalStatus | tasks/executor.py:104-109 | completed exactly when all succeeded, partial when some did, failed when none did |
| Executor.CountSuccess | tasks/executor.py:67-101 | how many episodes of the range succeed: stored at 100, or answered 200 with a local path |
| Executor.Failures | tasks/executor.py:67-101 | the episodes of the range that do not succeed, in order; each gets a -1 progress |
| Executor.Requested | tasks/executor.py:67-101 | the episodes of the range whose video is requested: those whose stored progress is not 100, in order |
| Executor.SuccessesAndFailures | tasks/executor.py:67-98 | every episode of the range is either a success or reported as failed |
| Executor.CompletedIffNoFailure | tasks/executor.py:104-109 | a task is completed exactly when no episode failed, and failed exactly when all did |
| Executor.ExecuteTask | tasks/executor.py:13-126 | a missing task does nothing and requests nothing; an unknown end with no detail fails without requesting or failing any episode; otherwise every episode of the range is visited, the stored-100 ones are not requested, and the status follows the success count; the task always leaves the running set |
| Executor.VisitEpisodes | tasks/executor.py:67-101 | the loop visits the range in order and gives the requested episodes, the failures and the success count |
| Operations.NextRun | database/operations.py:131-140 | the first run is today's daily time, or tomorrow's once the clock is 10 minutes past it |
| Operations.NextRunNotStale | database/operations.py:131-140 | the first run is never more than the grace period in the past, nor more than a day plus grace ahead |
| Operations.CacheUrl | database/operations.py:321 | the cache URL is `/video/` followed by the stored path |
| Operations.VideoCacheUrl | database/operations.py:604-611 | a listed video has a cache URL exactly when it has a path; a stored `/video/` URL is kept, anything else is rebuilt |
| Operations.TitleThenEpisodePreorder | database/operations.py:594-595 | ORDER BY title, episode is a total preorder |
| Operations.NewerFirstPreorder | database/operations.py:176 | ORDER BY updated_at DESC is a total preorder |
| Operations.Database.SaveAnime | database/operations.py:11-60 | an existing site id keeps its id and creation time and is updated; a new one gets the next id; no other anime changes |
| Operations.Database.CreateTask | database/operations.py:113-163 | a new task with the next id, status pending, created and updated now, and the first run as next_run exactly when periodic |
| Operations.Database.Task | database/operations.py:195-224 | the stored row, or None |
| Operations.Database.UpdateTaskStatus | database/operations.py:226-255 | the status and update time of that task change, and nothing else; a missing task is left alone |
| Operations.Database.UpdateTaskNextRun | database/operations.py:257-286 | the next run and update time of that task change, and nothing else |
| Operations.Database.DownloadProgress | database/operations.py:423-451 | the progress of the (task, episode) row, or None without one |
| Operations.Database.UpdateDownloadProgress | database/operations.py:288-363 | the row reads back the new progress; completion with a path stores the path, size and cache URL; a new row is downloading with size 0; other rows are untouched |
| Operations.Database.UpdateDownloadSize | database/operations.py:453-500 | the row's size is set, or a downloading row is inserted with it; other rows are untouched |
| Operations.Database.DeleteTask | database/operations.py:396-421 | the task and all its result rows go; other tasks' rows are untouched |
| Operations.Database.JoinedRows | database/operations.py:582-596 | the join holds exactly the downloaded result rows that join to a task and an anime |
| Operations.Database.DownloadedVideos | database/operations.py:568-628 | the list is sorted by title, then episode; it holds only downloaded, joining rows; every cache URL starts with `/video/` |
| Operations.Database.SortedJoinedRows | database/operations.py:594-595 | the sorted join is ordered and holds only downloaded, joining rows |
| Operations.Database.DownloadedVideosComplete | database/operations.py:582-596 | every downloaded row that joins is listed, whatever the scan order |
| Operations.Database.TaskRows | database/operations.py:176-183 | the rows are exactly the stored tasks, each as stored |
| Operations.Database.GetTasks | database/operations.py:165-193 | the tasks sorted newest first; a task whose status is `updating` makes the row conversion raise, so the answer is the empty list |
| Operations.Database.TaskRowsMembers | database/operations.py:176-183 | the sorted rows hold exactly the stored tasks |
| Operations.Database.SortedTaskRows | database/operations.py:176 | get_tasks lists every task once, most recently updated first, as a permutation of the scan |
| Models.CheckAndAdd | database/models.py:98-118 | True with the column appended exactly when the table lacks it; an existing column changes nothing |
| Models.CheckAndAddTwice | database/models.py:98-118 | afterwards the column is there, the earlier columns are kept, and a second call adds nothing |
| Models.CreateIfMissing | database/models.py:19-79 | CREATE TABLE IF NOT EXISTS keeps an existing table and adds a missing one |
| Models.InitDbComplete | database/models.py:11-96 | without an error, init_db commits with the four tables and the five later columns in place, and keeps what was there |
| Models.InitDbIdempotent | database/models.py:11-96 | init_db on a schema it has already set up changes nothing |
| Models.Store.CheckAndAddColumn | database/models.py:98-118 | adds the column exactly when the table lacks it; a missing table raises |
| Models.Store.CreateTable | database/models.py:19-79 | one CREATE TABLE IF NOT EXISTS, or a raise with nothing changed |
| Models.Store.AddColumnStep | database/models.py:82-88 | one check_and_add_column call of init_db, with the statement's effect or its raise |
| Models.Store.InitDb | database/models.py:11-96 | the statements run in order; the first that raises stops the rest, and the call does not commit |
| Models.Store.CreateTables | database/models.py:19-79 | the four CREATE TABLE statements, stopping at the first that raises |
| Models.Store.AddColumns | database/models.py:82-88 | the five column checks, stopping at the first that raises |
| Scheduler.FollowingRun | tasks/scheduler.py:75-79 | tomorrow's daily time once the clock is past daily_update_time plus 10 minutes, today's otherwise |
| Scheduler.FollowingRunIsTomorrow | tasks/scheduler.py:76-77 | with a real clock the following run is always tomorrow, after now |
| Scheduler.Dispatch | tasks/scheduler.py:65-82 | a dispatched task is running with the following run and updated now, and otherwise unchanged |
| Scheduler.Scheduled | tasks/scheduler.py:64-82 | after a check, the due tasks are dispatched and every other task is as it was |
| Scheduler.DueIds | tasks/scheduler.py:64-65 | the due tasks, in list order |
| Scheduler.NothingDueAfterCheck | tasks/scheduler.py:64-82 | with a real clock, no task is still due after a check |
| Scheduler.TaskScheduler.Start | tasks/scheduler.py:25-36 | refused when already running; otherwise the flag is set and a thread started |
| Scheduler.TaskScheduler.Stop | tasks/scheduler.py:38-44 | the flag is cleared and the thread dropped |
| Scheduler.TaskScheduler.CheckPendingTasks | tasks/scheduler.py:57-86 | the due tasks are dispatched and the rest are left alone; nothing happens when get_tasks answers empty because a task is updating |
| Scheduler.AllListed | tasks/scheduler.py:62 | get_tasks lists every task |
| Scheduler.ScheduledWhenAllListed | tasks/scheduler.py:64-86 | once every task has been seen, the loop's outcome is the whole check's |
| Scheduler.DispatchDue | tasks/scheduler.py:64-86 | the loop over the listed rows dispatches exactly the due ones |
| Scheduler.MarkDispatched | tasks/scheduler.py:68-82 | one dispatched task: its status and next run are written |
| Network.RandomUa | utils/network.py:19-21 | the user agent is one of the configured ones |
| Network.BaseUrlOf | utils/network.py:27-29 | the base URL is `https://yhdm.one`, https:// followed by the first configured domain, and get_domain gives that domain back |
| Network.DomainOfBaseUrl | utils/network.py:23-25 | a base URL built from a domain gives the domain back |
| Network.ConfiguredDomain | utils/network.py:23-25 | the configured domain is yhdm.one |
| Network.OnDomain | utils/network.py:90-91 | a request URL starts with `https://<domain>/` |
| Network.OnDomainSlash | utils/network.py:91 | a relative path gets its `/` exactly once |
| Network.NextUntried | utils/network.py:116 | the first listed domain not tried yet, or none exactly when all were tried |
| Network.RotationDistinct | utils/network.py:113-124 | the rotation never tries a domain twice, takes only listed domains, and stops only when all were tried |
| Network.RotationStops | utils/network.py:122-124 | once no domain is left, the rotation stays where it is |
| Network.Plan | utils/network.py:110-124 | the URLs make_request asks for when no answer ends it: an absolute URL 2 × retry times; a relative one retry times on the primary domain and then once on each domain the rotation switches to, or 2 × retry times on the primary domain when no domain is configured; none when retry ≤ 0 |
| Network.PlanBound | utils/network.py:110 | at most 2 × retry attempts are made |
| Network.ConfiguredPlan | utils/network.py:110-124 | with the configured single domain, a relative URL is tried retry + 1 times on yhdm.one |
| Network.NextTarget | utils/network.py:110-124 | the next attempt's URL is the plan's, and the loop stops exactly where the plan ends |
| Network.MakeRequest | utils/network.py:59-177 | the URLs requested are a prefix of the plan; the answer is the first 404 or 200, with the body only for 200; -1 with no body when the plan runs out |
| Network.PlanAt | utils/network.py:110-124 | an absolute URL is tried as it is; a relative one on the primary domain for the first retry attempts, then on the rotation's domains |
| Crawler.ListPath | core/crawler.py:36 | page 1 is `/list`, any other page `/list?page=N` |
| Crawler.ListPathInjective | core/crawler.py:36 | different positive pages ask for different paths |
| Crawler.SearchShow | core/crawler.py:239-241 | the match is a non-empty word run that follows `/show/` in the link |
| Crawler.SearchShowLeftmost | core/crawler.py:239-241 | the search is the leftmost match: None exactly when `/show/` is never followed by a word character, otherwise the longest word run after the leftmost such `/show/` |
| Crawler.ExtractAnimeId | core/crawler.py:225-242 | None exactly for an empty link or one where `/show/` is never followed by a word character; otherwise the word run after the leftmost such `/show/` |
| Crawler.ExtractAnimeIdRoundTrip | core/crawler.py:239-241 | a show link gives its id back |
| Crawler.ApiPath | core/crawler.py:642 | the play API path starts with `/_get_plays/` |
| Crawler.FirstValue | core/crawler.py:667-678 | the value is taken from the first source holding the key, and none without one |
| Crawler.CompleteUrl | core/crawler.py:697-704 | an http URL is kept; a protocol-relative one gets `https:` |
| Crawler.CompleteUrlIdempotent | core/crawler.py:697-704 | with an http base URL, a completed URL starts with http, and completing twice is completing once |
| Crawler.AnsweredShape | core/crawler.py:653-745 | every answer is 200 or 500; a URL is always complete; a local path appears only with a URL, under `/video/<anime id>/` |
| Crawler.GetEpisodeVideo | core/crawler.py:638-745 | the play API is asked at most four times on yhdm.one; a 200 reply is decoded and answered; anything else is 500 |
| Crawler.Answered | core/crawler.py:658-714 | the answer to a decoded payload: 500 when decoding failed or the URL found is not text, 200 without a URL when no source holds a truthy one, otherwise 200 with the completed URL and, when the download gives a path, `/video/<anime>/<file name>` |
| Crawler.VideoFromPayload | core/crawler.py:658-714 | the answer to a decoded payload is the model's answer to it |
| Crawler.ConfiguredRequestCount | core/crawler.py:647-650 | the play API path is relative, so it is asked for four times at most |
| CrawlerPage.JsRem | static/js/crawler.js:493 | JavaScript's `%` agrees with `%` on non-negative numbers and lies strictly between -b and b |
| CrawlerPage.JsNumber | static/js/crawler.js:361 | a digit run reads as a number |
| CrawlerPage.Pad2Reads | static/js/crawler.js:494 | two-digit padding of 0..99 reads back as the number |
| CrawlerPage.DailyTimeFormat | static/js/crawler.js:491-495 | seconds since midnight shown as `HH:MM`: the whole hours and the whole minutes left over, each padded to two digits |
| CrawlerPage.DailyTimeRoundTrip | static/js/crawler.js:491-495 | formatting a daily time and reading the input back gives it in whole minutes |
| CrawlerPage.TimeParts | static/js/crawler.js:492-494 | a time shows as hours ≤ 99 and minutes ≤ 59 that add back to its whole minutes |
| CrawlerPage.DailyTimeEncode | static/js/crawler.js:361-362 | the time input split on `:` and read with Number: hours × 3600 + minutes × 60, or no number when a part does not read as one or the minutes are missing |
| CrawlerPage.EncodePadded | static/js/crawler.js:361-362 | the input reads `HH:MM` back as h hours and m minutes |
| CrawlerPage.EncodeDigits | static/js/crawler.js:361-362 | two digit runs around `:` read as hours × 3600 + minutes × 60 |
| CrawlerPage.WholeMinutes | static/js/crawler.js:492-493 | hours and minutes of a time add back to its whole minutes |
| CrawlerPage.FirstIndex | static/js/crawler.js:231 | indexOf is the first position of the value |
| CrawlerPage.RemoveFirst | static/js/crawler.js:235 | splice(indexOf(x), 1) removes one occurrence of x |
| CrawlerPage.ToggleTwice | static/js/crawler.js:230-236 | selecting and then unselecting an episode restores the selection |
| CrawlerPage.EpisodeSelection.Toggle | static/js/crawler.js:230-240 | an unselected episode is appended, a selected one removed; the batch button is disabled exactly when nothing is selected; a selection without repeats keeps none |
| CrawlerPage.EpisodeSelection.SelectAll | static/js/crawler.js:243-254 | the selection becomes the checkboxes' episodes in page order |
| CrawlerPage.EpisodeSelection.DeselectAll | static/js/crawler.js:257-267 | nothing is selected and the button is disabled |
| CrawlerPage.EpisodeSelection.BatchCreateTask | static/js/crawler.js:270-295 | with a selection, the form spans its smallest to its largest episode, and the end is locked exactly for one episode |
| CrawlerPage.NumericLeTotal | static/js/crawler.js:285 | the comparator `a - b` is a total preorder |
| CrawlerPage.StatusText | static/js/crawler.js:548-558 | an unknown status is shown as it is |
| CrawlerPage.StatusTextDistinct | static/js/crawler.js:548-558 | known statuses get distinct labels, none of them a raw status name |
| CrawlerPage.RenderPagination | static/js/crawler.js:102-134 | prev/next are disabled exactly at the ends and point one page away; the pages are exactly max(1, current-2) up to min(total, start+4), consecutive, at most five, within 1..total, the current one among them, and five whenever total is at least 5 and current is at most total-2 |
| CrawlerPage.ParseIntPrefix | static/js/crawler.js:744-745 | parseInt of a digit run is its value |
| CrawlerPage.KeyLeTotal | static/js/crawler.js:742-747 | the results comparator is a total preorder |
| CrawlerPage.SortResults | static/js/crawler.js:742-747 | the results are rearranged, not changed, into ascending episode number |
| CrawlerPage.KeyOfDigits | static/js/crawler.js:742-780 | a digit episode number is shown as it is and sorted by its value |
| CrawlerPage.KeyOfEpisode | static/js/crawler.js:742-780 | an episode n, plain or as `ep<n>`, is shown as n and sorted as n |
| Player.ByExtension | static/js/player.js:844-870 | no streaming flag; the extension table's type when the URL ends with a listed extension, mp4 exactly otherwise |
| Player.DetectVideoFormat | static/js/player.js:748-873 | an empty URL is mp4; HLS, DASH and TS are tried in that order and at most one flag is set, each exactly when its marker is present and no earlier one is |
| Player.DetectIgnoresCase | static/js/player.js:767-782 | detection ignores case |
| Player.EndsM3u8IsHls | static/js/player.js:767-777 | a URL ending with `.m3u8` in any case is HLS |
| Player.CachedManifestIsHls | static/js/player.js:767-777 | a cached manifest served under `/video/` is played as HLS |
| Player.ErrorMessage | static/js/player.js:1234-1249 | no error is "unknown"; codes 1 to 4 get their texts; any other code gets "unknown (code)" followed by the message when there is one |
| Player.KnownMessagesDistinct | static/js/player.js:1234-1249 | the four known texts are distinct and none reads as an unknown error |
| Player.FullVideoUrl | static/js/player.js:388-391 | a URL that is neither http nor rooted gets a leading `/`, and only such a URL |
| Player.FullVideoUrlIdempotent | static/js/player.js:388-391 | completing twice is completing once |
| Player.BeforeLastDot | static/js/player.js:412 | the URL up to its last `.`, empty without one |
| Player.AlternativeSources | static/js/player.js:409-425 | cleared for streaming formats; otherwise the URL with its extension replaced by `.webm` and `.ogg` |
| Player.Matching | static/js/player.js:192-198 | the cached videos of the anime with that episode; there are some exactly when the episode is cached |
| Player.PlayWanted | static/js/player.js:192-198 | with the target episode fixed before the forEach, every cached video of that episode is played, in list order |
| Player.Cascade | static/js/player.js:192-198 | the forEach as written, where playCachedVideo (line 385) makes each match the current episode: the first video played is of the anime and at episode current+step |
| Player.PlayFrom | static/js/player.js:192-198 | the loop plays exactly the cascade and leaves the current episode at the last one played |
| Player.CascadeMembers | static/js/player.js:192-198 | only cached videos of the anime are played |
| Player.CascadeEmpty | static/js/player.js:192-198 | nothing is played exactly when episode current+step is not cached |
| Player.CascadeChain | static/js/player.js:192-198 | each video played is one step past the one before it |
| Player.CascadeFirst | static/js/player.js:192-198 | the first video played is the first cached copy of episode current+step |
| Player.CascadeUp | static/js/player.js:192-198 | going forward, the k-th video played is episode current+1+k, and the current episode ends at current plus the number played |
| Player.CascadeNextRun | static/js/player.js:192-198 | on a list in episode order, "next" stops only where the following episode is not cached: it runs to the end of the run of consecutive cached episodes |
| Player.CascadePreviousOnce | static/js/player.js:171-176 | on a list in episode order, going back plays at most one video |
| Player.PreviousEpisode | static/js/player.js:168-183 | below episode 1 nothing is played; otherwise the previous button plays the backward cascade from the current episode (on a list in episode order, at most episode current-1) and the current episode becomes the last one played |
| Player.NextEpisode | static/js/player.js:188-198 | as written, the next button and the `ended` handler of the hls.js player (lines 503-513) play the forward cascade: on a list in episode order, every cached episode from current+1 to the end of that run, the last of them left current |
| Player.NextEpisodeIntended | static/js/player.js:188-198 | "next" as meant: exactly the cached copies of episode current+1 are played, and some are exactly when that episode is cached |
| Player.NextRunsAhead | static/js/player.js:192-198 | with episode 2 showing and episodes 3 and 4 cached, "next" as written plays 3 and then 4 and stays on 4; as meant it plays only 3 |
| Player.EndedAsWritten | static/js/player.js:100-108 | the first player's handler, as written, would play the backward cascade, episode current-1 on a list in episode order; it is latent, since that player is replaced before any cached video plays |
| Player.EndedGoesBack | static/js/player.js:100-108 | with episodes 1 to 3 cached, that handler firing at the end of episode 2 would play episode 1, not episode 3 |
| Player.PlayerView.UpdatePlayerUI | static/js/player.js:690-706 | prev/next are disabled exactly when the neighbouring episode is not cached |
| FileSystem.EnsureDir | utils/filesystem.py:11-20 | an existing path is left alone; otherwise the directory and its missing ancestors are created, or makedirs raises exactly when an ancestor is a regular file; existing entries are kept |
| FileSystem.EnsureDirIdempotent | utils/filesystem.py:11-20 | ensuring a directory twice is ensuring it once |
| FileSystem.EnsureDirAncestors | utils/filesystem.py:18-19 | after a new directory, every ancestor of it is a directory |
| FileSystem.RelativeVideoPath | utils/filesystem.py:41-53 | `<anime>/ep<id>.<ext>` starts with `<anime>/ep` and ends with `.<ext>` |
| FileSystem.VideoPathIsRootPlusRelative | utils/filesystem.py:22-53 | with an ordinary root and anime id, the full path is the root, `/` and the relative path |
| FileSystem.Disk.EnsureDirExists | utils/filesystem.py:11-20 | the disk becomes the ensured one, or is unchanged when makedirs raises |
| FileSystem.Disk.GetVideoPath | utils/filesystem.py:22-39 | the anime's directory is ensured and the episode's path in it returned |
| FileSystem.Disk.FileExists | utils/filesystem.py:55-65 | true exactly for an existing regular file |
| FileSystem.Disk.FileSize | utils/filesystem.py:67-79 | a regular file's size, 0 otherwise |
| FileSystem.Disk.DeleteFile | utils/filesystem.py:81-99 | a regular file is removed and True returned; anything else, or a failed removal, returns False with nothing removed |

## Left out

- Downloaders other than the m3u8 one: yt-dlp, ffmpeg, the aria2 download start and the fallback chain after line 730 of `utils/video.py`. The aria2 monitoring loop is modelled; starting the process and its RPC setup are not.
- Concurrency: the thread pool of `M3u8Download` and the scheduler's worker thread. Segments are fetched one after another in list order, and the scheduler's `_run` sleep loop is left out.
- Network details: the SSL adapter, timeouts, random sleeps between retries, and response encodings (gbk). Replies are a scripted sequence.
- HTML parsing (BeautifulSoup), JSON decoding and the regular-expression search for player links inside HTML are parameters, not modelled.
- The time zone: today's midnight is a parameter.
- Floating point: percentages are integers, floored where the source floors them.
- Video.Aria2Monitor: the callback receives the floored integer percentage instead of the float the source passes.
- The DOM, Plyr and hls.js, and the player's HEAD request that re-checks a `.mp4` URL's content type. `navigator.onLine` is not modelled; format detection is synchronous.
- JavaScript's loose equality, string ids compared to numbers, and the corner cases of `parseInt`/`Number` beyond digit runs. NaN keys sort first; their exact placement by the engine is not modelled.
- Mock data, configuration loading and logging.
- `os.removedirs` removing empty parents, and database exceptions other than those named in the contracts.
- Operations outside the core: `save_episode`, `get_anime_by_site_id`, `get_task_by_anime_id`, `update_task_last_run`, `get_tasks_by_status`. Closing connections is not modelled either.
- The rollback in `init_db` undoes nothing in the model. Python's sqlite3 module runs CREATE TABLE and ALTER TABLE outside a transaction, so the statements before a failing one stay applied.
- `output_mp4` and `shell_run_cmd_block` of `utils/m3u8.py`, which call ffmpeg, are not part of this model.
- M3u8.M3u8Download.GetM3u8Info: a media playlist with a key directive that has `URI=` but no quoted value makes the walk raise partway, after possible key requests; the retry that follows is not characterised (only that the URL was requested first).
- App.DigitRun / App.RangeMatch: a digit of the Range header is an ASCII digit. Python's `\d` also matches other Unicode decimal digits, and `int()` reads them, so a header such as `bytes=` followed by Arabic-Indic digits asks for that range in the source, while in the model it matches nothing and the answer covers the whole file.
- Crawler.IsWord / Crawler.ExtractAnimeId: a word character is ASCII only. Python's `\w` also accepts other Unicode letters and digits, so a link such as `/show/` followed by Chinese characters yields an id in the source and None in the model.
- M3u8.M3u8Download.Finish / M3u8.M3u8Download.Run: the manifest's size is counted in characters. `os.path.getsize` counts UTF-8 bytes, which differ for a playlist line holding non-ASCII text.
- Players without an `ended` handler: only the hls.js player (line 498 of `static/js/player.js`) registers one. The native-HLS player (line 566), the standard-format player (line 589) and `tryFallbackPlayer` (line 1101) register none, so playback simply stops when their video ends; the model has no member for that.
- Player.EndedAsWritten: which Plyr instance is alive is not modelled. The first player's `ended` handler (lines 100-108 of `static/js/player.js`) compares like the previous button, but playCachedVideo destroys that player (lines 429-431) before any cached video plays in it, so the current-1 comparison is a latent defect and not listed under Findings.

## Findings

| source | as written | input that shows it | evidently intended | confidence | as-written member | corrected member |
|---|---|---|---|---|---|---|
| utils/m3u8.py:77 | `logger.info` is called with a `sep=` keyword, which `Logger.info` does not accept, so `__init__` raises TypeError before any download | any job | log the job and go on to fetch the segments | not executed | M3u8.M3u8Download.RunAsWritten | M3u8.M3u8Download.Run |
| static/js/player.js:192-198 | the forEach compares each cached video with the global current episode, which playCachedVideo reassigns (line 385) on every match, so "next" and the `ended` handler of the hls.js player (lines 505-511) play current+1, then current+2, and so on to the end of the run of cached episodes | episode 2 showing, episodes 3 and 4 of the anime cached in that order: episode 3 starts, then episode 4, and the player stays on 4 | play episode current+1 only, comparing with a target fixed before the forEach | not executed | Player.NextEpisode | Player.NextEpisodeIntended |
| utils/m3u8.py:242-250 | `delete_file` lists the segment directory with `os.listdir` before checking that it exists, so a first download raises | a job whose `<anime>/ep<n>/` directory does not exist yet | tolerate a missing directory or manifest, as the call's comment in `__init__` says | not executed | M3u8.M3u8Download.DeleteFile | M3u8.M3u8Download.ClearStale |
