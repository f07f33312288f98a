/** The task executor (tasks/executor.py, execute_task): download every
    episode of a task's range and record how the task went.

    The task row, the anime detail, the stored episode progress and the
    outcome of get_episode_video for each episode are parameters; the
    writes execute_task makes are its results. */
module Executor {
  import opened Strings

  /** A task row: the anime and the episode range, either end possibly NULL. */
  datatype Task = Task(animeId: string, start: Option<int>, end: Option<int>)

  /** What get_anime_detail gives: a falsy detail, a detail with this many
      episodes, or an exception. */
  datatype Detail = NoDetail | Episodes(count: nat) | DetailRaised

  /** What get_episode_video gives for one episode: a falsy result, a result
      with its status code and whether it carries a local path, or an
      exception. */
  datatype Fetch = Falsy | Info(statusCode: int, hasLocalPath: bool) | FetchRaised

  /** The writes and the outcome of one execute_task: the status written
      (None when the task is missing), the episodes visited in order, the
      episodes whose video was requested, the episodes reported as failed
      (progress -1), and the running tasks afterwards. */
  datatype Outcome = Outcome(status: Option<string>, visited: seq<int>, requested: seq<int>,
                             failed: seq<int>, running: set<int>)

  /** The first episode: 1 when NULL, and never below 1. */
  function FirstEpisode(start: Option<int>): (s: int)
    ensures s >= 1
    ensures start.Some? && start.value >= 1 ==> s == start.value
  {
    if start.None? || start.value < 1 then 1 else start.value
  }

  /** An episode is a success when its stored progress is already 100, or when
      get_episode_video answers 200 with a local path. */
  predicate Succeeds(stored: map<int, int>, fetch: int -> Fetch, ep: int) {
    (ep in stored && stored[ep] == 100) ||
    (fetch(ep).Info? && fetch(ep).statusCode == 200 && fetch(ep).hasLocalPath)
  }

  /** The episodes first..last - 1 in order. */
  function Range(first: int, last: int): (r: seq<int>)
    ensures |r| == if last <= first then 0 else last - first
    ensures forall i :: 0 <= i < |r| ==> r[i] == first + i
    decreases last - first
  {
    if last <= first then [] else Range(first, last - 1) + [last - 1]
  }

  /** How many of the episodes first..last - 1 succeed. */
  function CountSuccess(stored: map<int, int>, fetch: int -> Fetch, first: int, last: int): (c: nat)
    ensures c <= if last <= first then 0 else last - first
    decreases last - first
  {
    if last <= first then 0
    else CountSuccess(stored, fetch, first, last - 1) + (if Succeeds(stored, fetch, last - 1) then 1 else 0)
  }

  /** The episodes of first..last - 1 that do not succeed, in order. */
  function Failures(stored: map<int, int>, fetch: int -> Fetch, first: int, last: int): seq<int>
    decreases last - first
  {
    if last <= first then []
    else Failures(stored, fetch, first, last - 1) + (if Succeeds(stored, fetch, last - 1) then [] else [last - 1])
  }

  /** The episodes of first..last - 1 whose video is requested: those whose
      stored progress is not 100. */
  function Requested(stored: map<int, int>, first: int, last: int): seq<int>
    decreases last - first
  {
    if last <= first then []
    else Requested(stored, first, last - 1) + (if last - 1 in stored && stored[last - 1] == 100 then [] else [last - 1])
  }

  /** The final status: completed when every episode of the range succeeded
      (success == end - start + 1), partial when some did, failed otherwise. */
  function FinalStatus(success: nat, total: int): (s: string)
    ensures s == "completed" <==> success == total
    ensures s == "partial" <==> 0 < success && success != total
    ensures s == "failed" <==> success == 0 && total != 0
  {
    if success == total then "completed" else if success > 0 then "partial" else "failed"
  }

  /** Every episode of the range is either a success or reported as failed. */
  lemma {:induction false} SuccessesAndFailures(stored: map<int, int>, fetch: int -> Fetch, first: int, last: int)
    requires first <= last
    ensures CountSuccess(stored, fetch, first, last) + |Failures(stored, fetch, first, last)| == last - first
    decreases last - first
  {
    if last > first {
      SuccessesAndFailures(stored, fetch, first, last - 1);
    }
  }

  /** So, for a non-empty range, the task is completed exactly when no episode
      was reported as failed, and failed exactly when every episode was. */
  lemma CompletedIffNoFailure(stored: map<int, int>, fetch: int -> Fetch, first: int, last: int)
    requires first < last
    ensures FinalStatus(CountSuccess(stored, fetch, first, last), last - first) == "completed" <==>
              Failures(stored, fetch, first, last) == []
    ensures FinalStatus(CountSuccess(stored, fetch, first, last), last - first) == "failed" <==>
              |Failures(stored, fetch, first, last)| == last - first
  {
    SuccessesAndFailures(stored, fetch, first, last);
  }

  /** execute_task. A missing task changes nothing. A NULL start is 1 and a
      start below 1 is raised to 1. A NULL end is the episode count of the
      detail (a falsy detail fails the task, an empty episode list completes
      it, an exception fails it); an end that is given is used as it is.
      Episodes start..end are visited once each in ascending order: a stored
      progress of 100 is a success without a request; otherwise the video is
      requested, and a 200 answer with a local path is a success, anything
      else (an exception included) reports -1 for that episode. The status is
      then completed, partial or failed. The task always leaves the running
      tasks. */
  method ExecuteTask(taskId: int, task: Option<Task>, detail: Detail, stored: map<int, int>,
                     fetch: int -> Fetch, running: set<int>)
    returns (out: Outcome)
    ensures out.running == running - {taskId}
    ensures task.None? ==> out.status.None? && out.visited == [] && out.requested == [] && out.failed == []
    ensures task.Some? && task.value.end.None? && !detail.Episodes? ==>
              out.status == Some("failed") && out.visited == [] && out.requested == [] && out.failed == []
    ensures task.Some? && task.value.end.None? && detail == Episodes(0) ==>
              out.status == Some("completed") && out.visited == [] && out.requested == [] && out.failed == []
    ensures task.Some? && (task.value.end.Some? || (detail.Episodes? && detail.count > 0)) ==>
              var first := FirstEpisode(task.value.start);
              var last := if task.value.end.Some? then task.value.end.value else detail.count;
              out.visited == Range(first, last + 1) &&
              out.requested == Requested(stored, first, last + 1) &&
              out.failed == Failures(stored, fetch, first, last + 1) &&
              out.status == Some(FinalStatus(CountSuccess(stored, fetch, first, last + 1), last - first + 1))
  {
    if task.None? {
      return Outcome(None, [], [], [], running - {taskId});
    }
    var start := task.value.start;
    var first := if start.None? then 1 else start.value;
    var last: int;
    if task.value.end.None? {
      if detail.DetailRaised? || detail.NoDetail? {
        return Outcome(Some("failed"), [], [], [], running - {taskId});
      }
      if detail.count == 0 {
        return Outcome(Some("completed"), [], [], [], running - {taskId});
      }
      last := detail.count;
    } else {
      last := task.value.end.value;
    }
    if first < 1 {
      first := 1;
    }
    var total := last - first + 1;
    var success, visited, requested, failed := VisitEpisodes(first, last, stored, fetch);
    return Outcome(Some(FinalStatus(success, total)), visited, requested, failed, running - {taskId});
  }

  /** The loop over episodes first..last of execute_task. */
  method VisitEpisodes(first: int, last: int, stored: map<int, int>, fetch: int -> Fetch)
    returns (success: nat, visited: seq<int>, requested: seq<int>, failed: seq<int>)
    ensures visited == Range(first, last + 1)
    ensures requested == Requested(stored, first, last + 1)
    ensures failed == Failures(stored, fetch, first, last + 1)
    ensures success == CountSuccess(stored, fetch, first, last + 1)
  {
    success := 0;
    visited, requested, failed := [], [], [];
    var ep := first;
    while ep < last + 1
      invariant first <= ep && (ep <= last + 1 || ep == first)
      invariant visited == Range(first, ep)
      invariant requested == Requested(stored, first, ep)
      invariant failed == Failures(stored, fetch, first, ep)
      invariant success == CountSuccess(stored, fetch, first, ep)
    {
      visited := visited + [ep];
      if ep in stored && stored[ep] == 100 {
        success := success + 1;
      } else {
        requested := requested + [ep];
        var info := fetch(ep);
        if info.Info? && info.statusCode == 200 && info.hasLocalPath {
          success := success + 1;
        } else {
          failed := failed + [ep];
        }
      }
      ep := ep + 1;
    }
  }
}
