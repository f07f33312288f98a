/** The progress store (database/operations.py): the animes, tasks and
    task_results tables and the operations the crawler performs on them.

    Each table is a map: animes keyed by site id (save_anime is the only writer
    and looks the site id up first, so site ids stay unique), tasks by their
    id, and task_results by (task id, episode number) (the two writers look
    that pair up first, so it stays unique). Row ids come from counters,
    which is what AUTOINCREMENT gives: an id is never reused. The clock
    (time.time()) and today's Beijing midnight are parameters. */
module Operations {
  import opened Strings
  import opened Sorting

  datatype AnimeRow = AnimeRow(id: int, siteId: string, title: string, description: string,
                               coverUrl: string, totalEpisodes: int, createdAt: int, updatedAt: int)

  /** A tasks row; isPeriodic is stored as 1 or 0, and nextRun and lastRun
      may be NULL. */
  datatype TaskRow = TaskRow(id: int, animeId: string, startEpisode: int, endEpisode: Option<int>,
                             isPeriodic: int, dailyUpdateTime: int, status: string,
                             nextRun: Option<int>, lastRun: Option<int>, createdAt: int, updatedAt: int)

  /** A task_results row; file_size defaults to 0, file_path and cache_url to NULL. */
  datatype ResultRow = ResultRow(id: int, status: string, progress: int, filePath: Option<string>,
                                 fileSize: Option<int>, cacheUrl: Option<string>,
                                 createdAt: int, updatedAt: int)

  /** A row of the join get_downloaded_videos selects. */
  datatype Joined = Joined(key: (int, int), id: int, filePath: string, fileSize: Option<int>,
                           cacheUrl: Option<string>, animeId: string, title: string)

  /** One entry of the downloaded-videos list. */
  datatype Video = Video(id: int, taskId: int, animeId: string, animeTitle: string,
                         episodeNumber: int, cacheUrl: Option<string>, fileSize: Option<int>)

  const DaySeconds := 86400
  /** How long after the daily time a new task still runs today. */
  const Grace := 600

  /** create_task's first run: T = midnight + daily_update_time, today, unless
      the clock is already 10 minutes past T, in which case tomorrow. */
  function NextRun(now: int, midnight: int, dailyUpdateTime: int): (r: int)
    ensures r == midnight + dailyUpdateTime || r == midnight + dailyUpdateTime + DaySeconds
    ensures r == midnight + dailyUpdateTime + DaySeconds <==> now >= midnight + dailyUpdateTime + Grace
  {
    var today := midnight + dailyUpdateTime;
    if now >= today + Grace then today + DaySeconds else today
  }

  /** With a consistent clock (now falls on the day that starts at midnight)
      and a daily time within the day, the first run is never more than the
      grace period in the past, and at most a day and the grace period ahead. */
  lemma NextRunNotStale(now: int, midnight: int, dailyUpdateTime: int)
    requires midnight <= now < midnight + DaySeconds
    requires 0 <= dailyUpdateTime < DaySeconds
    ensures now - Grace < NextRun(now, midnight, dailyUpdateTime) < now + DaySeconds + Grace
  {
  }

  /** The Python truthiness of a file path: present and non-empty. */
  predicate Truthy(p: Option<string>) {
    p.Some? && p.value != ""
  }

  /** The cache URL of a stored file path. */
  function CacheUrl(path: string): (u: string)
    ensures StartsWith(u, "/video/") && u[|"/video/"|..] == path
  {
    "/video/" + path
  }

  /** get_downloaded_videos's cache URL: a stored one that starts with
      /video/ is kept, otherwise one is built from the file path; an empty
      file path gives none. */
  function VideoCacheUrl(filePath: string, stored: Option<string>): (u: Option<string>)
    ensures u.Some? <==> filePath != ""
    ensures u.Some? ==> StartsWith(u.value, "/video/")
    ensures u.Some? && !(stored.Some? && StartsWith(stored.value, "/video/")) ==> u == Some(CacheUrl(filePath))
    ensures u.Some? && stored.Some? && StartsWith(stored.value, "/video/") ==> u == stored
  {
    if filePath == "" then None
    else if stored.Some? && StartsWith(stored.value, "/video/") then stored
    else Some(CacheUrl(filePath))
  }

  function ToVideo(j: Joined): Video {
    Video(j.id, j.key.0, j.animeId, j.title, j.key.1, VideoCacheUrl(j.filePath, j.cacheUrl), j.fileSize)
  }

  /** ORDER BY a.title, tr.episode_number. */
  predicate TitleThenEpisode(a: Joined, b: Joined) {
    if a.title == b.title then a.key.1 <= b.key.1 else StrLe(a.title, b.title)
  }

  /** ORDER BY updated_at DESC. */
  predicate NewerFirst(a: TaskRow, b: TaskRow) {
    a.updatedAt >= b.updatedAt
  }

  lemma TitleThenEpisodePreorder()
    ensures TotalPreorder(TitleThenEpisode)
  {
    forall a, b ensures TitleThenEpisode(a, b) || TitleThenEpisode(b, a) {
      StrLeTotal(a.title, b.title);
    }
    forall a, b, c | TitleThenEpisode(a, b) && TitleThenEpisode(b, c)
      ensures TitleThenEpisode(a, c)
    {
      if a.title != b.title && b.title != c.title {
        StrLeTransitive(a.title, b.title, c.title);
        if a.title == c.title {
          StrLeAntisymmetric(a.title, b.title);
        }
      }
    }
  }

  lemma NewerFirstPreorder()
    ensures TotalPreorder(NewerFirst)
  {
  }

  /** The videos in the order of the joined rows. */
  function Converted(rows: seq<Joined>): (vs: seq<Video>)
    ensures |vs| == |rows|
    ensures forall i :: 0 <= i < |rows| ==> vs[i] == ToVideo(rows[i])
  {
    if |rows| == 0 then [] else Converted(rows[..|rows| - 1]) + [ToVideo(rows[|rows| - 1])]
  }

  /** A scan order of a table: every key exactly once. */
  ghost predicate Enumerates<K(!new)>(scan: seq<K>, keys: set<K>) {
    (forall k :: k in scan <==> k in keys) &&
    (forall i, j :: 0 <= i < j < |scan| ==> scan[i] != scan[j])
  }

  class Database {
    var animes: map<string, AnimeRow>
    var tasks: map<int, TaskRow>
    var results: map<(int, int), ResultRow>
    var nextAnimeId: int
    var nextTaskId: int
    var nextResultId: int

    ghost predicate Valid()
      reads this
    {
      0 < nextAnimeId && 0 < nextTaskId && 0 < nextResultId &&
      (forall s :: s in animes ==> animes[s].siteId == s && 0 < animes[s].id < nextAnimeId) &&
      (forall t :: t in tasks ==> tasks[t].id == t && 0 < t < nextTaskId) &&
      (forall k :: k in results ==> 0 < results[k].id < nextResultId)
    }

    constructor ()
      ensures Valid()
      ensures animes == map[] && tasks == map[] && results == map[]
    {
      animes, tasks, results := map[], map[], map[];
      nextAnimeId, nextTaskId, nextResultId := 1, 1, 1;
    }

    /** save_anime: an anime already stored under the site id keeps its id
        and creation time and has its other fields and updated_at replaced;
        otherwise a row with a fresh id is inserted. The id is returned. */
    method SaveAnime(siteId: string, title: string, description: string, coverUrl: string,
                     totalEpisodes: int, now: int)
      returns (id: int)
      requires Valid()
      modifies this`animes, this`nextAnimeId
      ensures Valid()
      ensures siteId in animes && animes[siteId].id == id
      ensures animes[siteId].title == title && animes[siteId].description == description
      ensures animes[siteId].coverUrl == coverUrl && animes[siteId].totalEpisodes == totalEpisodes
      ensures animes[siteId].updatedAt == now
      ensures siteId in old(animes) ==>
                id == old(animes)[siteId].id && animes[siteId].createdAt == old(animes)[siteId].createdAt &&
                nextAnimeId == old(nextAnimeId)
      ensures siteId !in old(animes) ==>
                id == old(nextAnimeId) && nextAnimeId == id + 1 && animes[siteId].createdAt == now
      ensures forall s :: s != siteId ==> (s in animes <==> s in old(animes))
      ensures forall s :: s != siteId && s in animes ==> animes[s] == old(animes)[s]
    {
      if siteId in animes {
        var row := animes[siteId];
        id := row.id;
        animes := animes[siteId := row.(title := title, description := description, coverUrl := coverUrl,
                                        totalEpisodes := totalEpisodes, updatedAt := now)];
      } else {
        id := nextAnimeId;
        animes := animes[siteId := AnimeRow(id, siteId, title, description, coverUrl, totalEpisodes, now, now)];
        nextAnimeId := nextAnimeId + 1;
      }
    }

    /** create_task: a pending task with a fresh id; is_periodic is stored as
        1 or 0, and next_run is the first run for a periodic task and NULL
        otherwise. */
    method CreateTask(animeId: string, startEpisode: int, endEpisode: Option<int>, isPeriodic: bool,
                      dailyUpdateTime: int, now: int, midnight: int)
      returns (id: int)
      requires Valid()
      modifies this`tasks, this`nextTaskId
      ensures Valid()
      ensures id == old(nextTaskId) && id !in old(tasks) && nextTaskId == id + 1
      ensures tasks == old(tasks)[id := TaskRow(id, animeId, startEpisode, endEpisode,
                                                 if isPeriodic then 1 else 0, dailyUpdateTime, "pending",
                                                 if isPeriodic then Some(NextRun(now, midnight, dailyUpdateTime)) else None,
                                                 None, now, now)]
    {
      id := nextTaskId;
      var nextRun := NextRun(now, midnight, dailyUpdateTime);
      var row := TaskRow(id, animeId, startEpisode, endEpisode, if isPeriodic then 1 else 0, dailyUpdateTime,
                         "pending", if isPeriodic then Some(nextRun) else None, None, now, now);
      tasks := tasks[id := row];
      nextTaskId := nextTaskId + 1;
    }

    /** get_task: the row, or None. */
    function Task(taskId: int): (r: Option<TaskRow>)
      reads this
      ensures r.Some? <==> taskId in tasks
      ensures r.Some? ==> r.value == tasks[taskId]
    {
      if taskId in tasks then Some(tasks[taskId]) else None
    }

    /** update_task_status: a missing task is left alone (UPDATE of no row). */
    method UpdateTaskStatus(taskId: int, status: string, now: int)
      requires Valid()
      modifies this`tasks
      ensures Valid()
      ensures taskId in old(tasks) ==> tasks == old(tasks)[taskId := old(tasks)[taskId].(status := status, updatedAt := now)]
      ensures taskId !in old(tasks) ==> tasks == old(tasks)
    {
      if taskId in tasks {
        tasks := tasks[taskId := tasks[taskId].(status := status, updatedAt := now)];
      }
    }

    /** update_task_next_run. */
    method UpdateTaskNextRun(taskId: int, nextRun: int, now: int)
      requires Valid()
      modifies this`tasks
      ensures Valid()
      ensures taskId in old(tasks) ==> tasks == old(tasks)[taskId := old(tasks)[taskId].(nextRun := Some(nextRun), updatedAt := now)]
      ensures taskId !in old(tasks) ==> tasks == old(tasks)
    {
      if taskId in tasks {
        tasks := tasks[taskId := tasks[taskId].(nextRun := Some(nextRun), updatedAt := now)];
      }
    }

    /** get_download_progress: the progress of the (task, episode) row, or None
        when there is no row. */
    function DownloadProgress(taskId: int, episode: int): (r: Option<int>)
      reads this
      ensures r.Some? <==> (taskId, episode) in results
      ensures r.Some? ==> r.value == results[(taskId, episode)].progress
    {
      if (taskId, episode) in results then Some(results[(taskId, episode)].progress) else None
    }

    /** update_download_progress. On an existing row only the progress and
        updated_at change, unless the progress is 100 and a file path is
        given, in which case file path, size and cache URL are set too; the
        status is never changed. A new row is completed with path, size and
        cache URL when the progress is 100 and a path is given, and
        downloading with the given progress (and the column defaults)
        otherwise. Either way the progress reads back, and no other row
        changes. */
    method UpdateDownloadProgress(taskId: int, episode: int, progress: int, filePath: Option<string>,
                                  fileSize: Option<int>, now: int)
      requires Valid()
      modifies this`results, this`nextResultId
      ensures Valid()
      ensures DownloadProgress(taskId, episode) == Some(progress)
      ensures forall k :: k != (taskId, episode) ==> (k in results <==> k in old(results))
      ensures forall k :: k != (taskId, episode) && k in results ==> results[k] == old(results)[k]
      ensures var k := (taskId, episode); var row := results[k];
              row.updatedAt == now &&
              (progress == 100 && Truthy(filePath) ==>
                row.filePath == filePath && row.fileSize == fileSize && row.cacheUrl == Some(CacheUrl(filePath.value))) &&
              (k in old(results) ==>
                row.id == old(results)[k].id && row.status == old(results)[k].status &&
                row.createdAt == old(results)[k].createdAt &&
                (!(progress == 100 && Truthy(filePath)) ==>
                  row.filePath == old(results)[k].filePath && row.fileSize == old(results)[k].fileSize &&
                  row.cacheUrl == old(results)[k].cacheUrl)) &&
              (k !in old(results) ==>
                row.id == old(nextResultId) && row.createdAt == now &&
                (progress == 100 && Truthy(filePath) ==> row.status == "completed") &&
                (!(progress == 100 && Truthy(filePath)) ==>
                  row.status == "downloading" && row.filePath.None? && row.fileSize == Some(0) && row.cacheUrl.None?))
      ensures (taskId, episode) in old(results) ==> nextResultId == old(nextResultId)
      ensures (taskId, episode) !in old(results) ==> nextResultId == old(nextResultId) + 1
    {
      var k := (taskId, episode);
      var finished := progress == 100 && Truthy(filePath);
      if k in results {
        var row := results[k];
        if finished {
          row := row.(progress := progress, filePath := filePath, fileSize := fileSize,
                      cacheUrl := Some(CacheUrl(filePath.value)), updatedAt := now);
        } else {
          row := row.(progress := progress, updatedAt := now);
        }
        results := results[k := row];
      } else {
        var row;
        if finished {
          row := ResultRow(nextResultId, "completed", progress, filePath, fileSize,
                           Some(CacheUrl(filePath.value)), now, now);
        } else {
          row := ResultRow(nextResultId, "downloading", progress, None, Some(0), None, now, now);
        }
        results := results[k := row];
        nextResultId := nextResultId + 1;
      }
    }

    /** update_download_size: an existing row gets the size (its progress and
        status are kept); otherwise a downloading row with progress 0 and that
        size is inserted. */
    method UpdateDownloadSize(taskId: int, episode: int, fileSize: Option<int>, now: int)
      requires Valid()
      modifies this`results, this`nextResultId
      ensures Valid()
      ensures (taskId, episode) in results && results[(taskId, episode)].fileSize == fileSize
      ensures results[(taskId, episode)].updatedAt == now
      ensures (taskId, episode) in old(results) ==>
                results[(taskId, episode)] == old(results)[(taskId, episode)].(fileSize := fileSize, updatedAt := now) &&
                nextResultId == old(nextResultId)
      ensures (taskId, episode) !in old(results) ==>
                results[(taskId, episode)] == ResultRow(old(nextResultId), "downloading", 0, None, fileSize, None, now, now) &&
                nextResultId == old(nextResultId) + 1
      ensures forall k :: k != (taskId, episode) ==> (k in results <==> k in old(results))
      ensures forall k :: k != (taskId, episode) && k in results ==> results[k] == old(results)[k]
    {
      var k := (taskId, episode);
      if k in results {
        results := results[k := results[k].(fileSize := fileSize, updatedAt := now)];
      } else {
        results := results[k := ResultRow(nextResultId, "downloading", 0, None, fileSize, None, now, now)];
        nextResultId := nextResultId + 1;
      }
    }

    /** delete_task: every result row of the task goes, then the task; rows of
        other tasks are untouched. */
    method DeleteTask(taskId: int)
      requires Valid()
      modifies this`results, this`tasks
      ensures Valid()
      ensures tasks == old(tasks) - {taskId}
      ensures forall k :: k in results <==> k in old(results) && k.0 != taskId
      ensures forall k :: k in results ==> results[k] == old(results)[k]
      ensures forall e :: DownloadProgress(taskId, e).None?
    {
      results := map k | k in results && k.0 != taskId :: results[k];
      tasks := tasks - {taskId};
    }

    /** A result row is downloaded: progress 100 and a file path. */
    predicate Downloaded(k: (int, int))
      reads this
    {
      k in results && results[k].progress == 100 && results[k].filePath.Some?
    }

    /** It joins to a task, and the task to an anime by site id. */
    predicate Joins(k: (int, int))
      reads this
    {
      k.0 in tasks && tasks[k.0].animeId in animes
    }

    function JoinRow(k: (int, int)): Joined
      reads this
      requires Downloaded(k) && Joins(k)
    {
      var r := results[k];
      var a := animes[tasks[k.0].animeId];
      Joined(k, r.id, r.filePath.value, r.fileSize, r.cacheUrl, tasks[k.0].animeId, a.title)
    }

    /** The join and filter of get_downloaded_videos, in scan order. */
    function JoinedRows(scan: seq<(int, int)>): (rows: seq<Joined>)
      reads this
      ensures forall j :: j in rows ==> Downloaded(j.key) && Joins(j.key) && j == JoinRow(j.key)
      ensures forall i :: 0 <= i < |scan| && Downloaded(scan[i]) && Joins(scan[i]) ==> JoinRow(scan[i]) in rows
    {
      if |scan| == 0 then []
      else
        var k := scan[|scan| - 1];
        JoinedRows(scan[..|scan| - 1]) + (if Downloaded(k) && Joins(k) then [JoinRow(k)] else [])
    }

    /** get_downloaded_videos: the downloaded rows that join to a task and an
        anime, ordered by anime title and then episode, each turned into a
        list entry with its cache URL. */
    method DownloadedVideos(scan: seq<(int, int)>) returns (videos: seq<Video>)
      requires Enumerates(scan, results.Keys)
      ensures videos == Converted(SortBy(JoinedRows(scan), TitleThenEpisode))
      ensures forall i, j :: 0 <= i < j < |videos| ==>
                StrLe(videos[i].animeTitle, videos[j].animeTitle) &&
                (videos[i].animeTitle == videos[j].animeTitle ==> videos[i].episodeNumber <= videos[j].episodeNumber)
      ensures forall i :: 0 <= i < |videos| ==>
                Downloaded((videos[i].taskId, videos[i].episodeNumber)) &&
                Joins((videos[i].taskId, videos[i].episodeNumber))
      ensures forall i :: 0 <= i < |videos| && videos[i].cacheUrl.Some? ==> StartsWith(videos[i].cacheUrl.value, "/video/")
    {
      var rows := SortBy(JoinedRows(scan), TitleThenEpisode);
      videos := ConvertAll(rows);
      SortedJoinedRows(scan);
      ConvertedOrdered(rows);
    }

    /** The loop of get_downloaded_videos that turns each joined row into a
        list entry. */
    static method ConvertAll(rows: seq<Joined>) returns (videos: seq<Video>)
      ensures videos == Converted(rows)
    {
      videos := [];
      var i := 0;
      while i < |rows|
        invariant 0 <= i <= |rows|
        invariant videos == Converted(rows[..i])
      {
        assert rows[..i + 1][..i] == rows[..i];
        videos := videos + [ToVideo(rows[i])];
        i := i + 1;
      }
      assert rows[..i] == rows;
    }

    /** The sorted join is ordered and holds only rows that are downloaded and join. */
    lemma SortedJoinedRows(scan: seq<(int, int)>)
      ensures SortedBy(SortBy(JoinedRows(scan), TitleThenEpisode), TitleThenEpisode)
      ensures forall j :: j in SortBy(JoinedRows(scan), TitleThenEpisode) ==> Downloaded(j.key) && Joins(j.key)
    {
      TitleThenEpisodePreorder();
      SortByCorrect(JoinedRows(scan), TitleThenEpisode);
      forall j | j in SortBy(JoinedRows(scan), TitleThenEpisode)
        ensures Downloaded(j.key) && Joins(j.key)
      {
        assert j in multiset(JoinedRows(scan));
      }
    }

    /** Converting keeps the order of titles and episodes. */
    static lemma ConvertedOrdered(rows: seq<Joined>)
      requires SortedBy(rows, TitleThenEpisode)
      ensures var videos := Converted(rows);
              forall i, j :: 0 <= i < j < |videos| ==>
                StrLe(videos[i].animeTitle, videos[j].animeTitle) &&
                (videos[i].animeTitle == videos[j].animeTitle ==> videos[i].episodeNumber <= videos[j].episodeNumber)
    {
      var videos := Converted(rows);
      forall i, j | 0 <= i < j < |videos|
        ensures StrLe(videos[i].animeTitle, videos[j].animeTitle)
      {
        assert TitleThenEpisode(rows[i], rows[j]);
        if rows[i].title == rows[j].title {
          StrLeTotal(rows[i].title, rows[j].title);
        }
      }
    }

    /** Every downloaded row that joins is listed, whatever order the store
        scans the table in. */
    lemma DownloadedVideosComplete(scan: seq<(int, int)>, k: (int, int))
      requires Enumerates(scan, results.Keys)
      requires Downloaded(k) && Joins(k)
      ensures ToVideo(JoinRow(k)) in Converted(SortBy(JoinedRows(scan), TitleThenEpisode))
    {
      var rows := JoinedRows(scan);
      TitleThenEpisodePreorder();
      SortByCorrect(rows, TitleThenEpisode);
      var i :| 0 <= i < |scan| && scan[i] == k;
      assert JoinRow(k) in rows;
      assert JoinRow(k) in multiset(SortBy(rows, TitleThenEpisode));
      var sorted := SortBy(rows, TitleThenEpisode);
      var j :| 0 <= j < |sorted| && sorted[j] == JoinRow(k);
      assert Converted(sorted)[j] == ToVideo(JoinRow(k));
    }

    /** The task rows in scan order. */
    function TaskRows(scan: seq<int>): (rows: seq<TaskRow>)
      reads this
      requires Valid()
      ensures |rows| <= |scan|
      ensures forall r :: r in rows ==> r.id in tasks && tasks[r.id] == r
      ensures forall i :: 0 <= i < |scan| && scan[i] in tasks ==> tasks[scan[i]] in rows
    {
      if |scan| == 0 then []
      else
        var t := scan[|scan| - 1];
        TaskRows(scan[..|scan| - 1]) + (if t in tasks then [tasks[t]] else [])
    }

    predicate AnyUpdating()
      reads this
    {
      exists t :: t in tasks && tasks[t].status == "updating"
    }

    /** get_tasks: every task, most recently updated first (SortedTaskRows
        says that this is every stored task, in that order). A task whose
        status is updating makes the call fail on the missing episode_number
        column, so then the answer is the empty list. */
    method GetTasks(scan: seq<int>) returns (r: seq<TaskRow>)
      requires Valid()
      requires Enumerates(scan, tasks.Keys)
      ensures AnyUpdating() ==> r == []
      ensures !AnyUpdating() ==> r == SortBy(TaskRows(scan), NewerFirst)
      ensures forall x :: x in r ==> x.id in tasks && tasks[x.id] == x && x.status != "updating"
    {
      var rows := SortBy(TaskRows(scan), NewerFirst);
      var updating := HasUpdating(rows);
      TaskRowsMembers(scan);
      if updating {
        var j :| 0 <= j < |rows| && rows[j].status == "updating";
        assert rows[j] in rows;
        assert tasks[rows[j].id].status == "updating";
        return [];
      }
      forall t | t in tasks
        ensures tasks[t].status != "updating"
      {
        assert tasks[t] in rows;
      }
      return rows;
    }

    /** The loop of get_tasks that looks for a task being updated. */
    static method HasUpdating(rows: seq<TaskRow>) returns (found: bool)
      ensures found <==> exists j :: 0 <= j < |rows| && rows[j].status == "updating"
    {
      var i := 0;
      while i < |rows|
        invariant 0 <= i <= |rows|
        invariant forall j :: 0 <= j < i ==> rows[j].status != "updating"
      {
        if rows[i].status == "updating" {
          return true;
        }
        i := i + 1;
      }
      return false;
    }

    /** The sorted task rows hold exactly the stored tasks. */
    lemma TaskRowsMembers(scan: seq<int>)
      requires Valid()
      requires Enumerates(scan, tasks.Keys)
      ensures var rows := SortBy(TaskRows(scan), NewerFirst);
              (forall t :: t in tasks ==> tasks[t] in rows) &&
              (forall x :: x in rows ==> x.id in tasks && tasks[x.id] == x)
    {
      var rows := SortBy(TaskRows(scan), NewerFirst);
      NewerFirstPreorder();
      SortByCorrect(TaskRows(scan), NewerFirst);
      forall t | t in tasks
        ensures tasks[t] in rows
      {
        var j :| 0 <= j < |scan| && scan[j] == t;
        assert tasks[t] in TaskRows(scan);
        assert tasks[t] in multiset(rows);
      }
      forall x | x in rows
        ensures x.id in tasks && tasks[x.id] == x
      {
        assert x in multiset(TaskRows(scan));
      }
    }

    /** get_tasks lists every stored task once, most recently updated first. */
    lemma SortedTaskRows(scan: seq<int>)
      requires Valid()
      requires Enumerates(scan, tasks.Keys)
      ensures var rows := SortBy(TaskRows(scan), NewerFirst);
              SortedBy(rows, NewerFirst) && multiset(rows) == multiset(TaskRows(scan)) &&
              (forall t :: t in tasks ==> tasks[t] in rows) &&
              (forall x :: x in rows ==> x.id in tasks && tasks[x.id] == x)
    {
      NewerFirstPreorder();
      SortByCorrect(TaskRows(scan), NewerFirst);
      TaskRowsMembers(scan);
    }
  }
}
