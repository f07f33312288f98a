/** The periodic task scheduler (tasks/scheduler.py): a start/stop flag and
    the check that dispatches every periodic task whose next run has come and
    schedules its following run.

    The worker thread and its sleep loop are not modelled; a started thread
    is the flag hasThread, and a dispatched task is the id in the list the
    check returns (the executor thread it starts is left to the Executor
    module). The clock and today's Beijing midnight are parameters. */
module Scheduler {
  import opened Strings
  import opened Operations
  import opened Sorting

  /** A task is dispatched iff it is periodic, has a next run (NULL and 0 are
      falsy) and that run is not in the future. */
  predicate Due(t: TaskRow, now: int) {
    t.isPeriodic != 0 && t.nextRun.Some? && t.nextRun.value != 0 && t.nextRun.value <= now
  }

  /** The following run of a dispatched task. The rule compares the clock,
      an absolute timestamp, with daily_update_time + 600, a number of
      seconds into the day: tomorrow's daily time when the clock is past it,
      today's otherwise. */
  function FollowingRun(now: int, midnight: int, dailyUpdateTime: int): (r: int)
    ensures now >= dailyUpdateTime + Grace ==> r == midnight + DaySeconds + dailyUpdateTime
    ensures now < dailyUpdateTime + Grace ==> r == midnight + dailyUpdateTime
  {
    if now >= dailyUpdateTime + Grace then midnight + DaySeconds + dailyUpdateTime
    else midnight + dailyUpdateTime
  }

  /** For every clock later than the first ten minutes of 1970-01-02 (so for
      every real one), the following run is tomorrow's daily time, which is
      strictly after the clock; a dispatched task is therefore never due
      again in the same check. */
  lemma FollowingRunIsTomorrow(now: int, midnight: int, dailyUpdateTime: int)
    requires midnight <= now < midnight + DaySeconds
    requires 0 <= dailyUpdateTime < DaySeconds
    requires now >= DaySeconds + Grace
    ensures FollowingRun(now, midnight, dailyUpdateTime) == midnight + DaySeconds + dailyUpdateTime
    ensures FollowingRun(now, midnight, dailyUpdateTime) > now
  {
  }

  /** A dispatched row: status running, the following run, updated now. */
  function Dispatch(t: TaskRow, now: int, midnight: int): (d: TaskRow)
    ensures d.id == t.id && d.status == "running"
    ensures d.nextRun == Some(FollowingRun(now, midnight, t.dailyUpdateTime))
    ensures d == t.(status := "running", nextRun := d.nextRun, updatedAt := now)
  {
    t.(status := "running", nextRun := Some(FollowingRun(now, midnight, t.dailyUpdateTime)), updatedAt := now)
  }

  /** The tasks after a check that listed every task: the due ones
      dispatched, every other one as it was. */
  function Scheduled(tasks: map<int, TaskRow>, now: int, midnight: int): (m: map<int, TaskRow>)
    ensures m.Keys == tasks.Keys
    ensures forall t :: t in tasks && !Due(tasks[t], now) ==> m[t] == tasks[t]
    ensures forall t :: t in tasks && Due(tasks[t], now) ==> m[t] == Dispatch(tasks[t], now, midnight)
  {
    map t | t in tasks :: if Due(tasks[t], now) then Dispatch(tasks[t], now, midnight) else tasks[t]
  }

  /** The ids of the due rows, in list order. */
  function DueIds(rows: seq<TaskRow>, now: int): (ids: seq<int>)
    ensures |ids| <= |rows|
  {
    if |rows| == 0 then []
    else
      var last := rows[|rows| - 1];
      DueIds(rows[..|rows| - 1], now) + (if Due(last, now) then [last.id] else [])
  }

  /** With a real clock, a check leaves no task due: every task that was due
      now has its next run in the future. */
  lemma {:induction false} NothingDueAfterCheck(tasks: map<int, TaskRow>, now: int, midnight: int)
    requires midnight <= now < midnight + DaySeconds && now >= DaySeconds + Grace
    requires forall t :: t in tasks ==> 0 <= tasks[t].dailyUpdateTime < DaySeconds
    ensures forall t :: t in tasks ==>
              var s := Scheduled(tasks, now, midnight);
              Due(tasks[t], now) ==> !Due(s[t], now)
  {
    forall t | t in tasks && Due(tasks[t], now)
      ensures !Due(Scheduled(tasks, now, midnight)[t], now)
    {
      FollowingRunIsTomorrow(now, midnight, tasks[t].dailyUpdateTime);
    }
  }

  class TaskScheduler {
    var checkInterval: int
    var isRunning: bool
    var hasThread: bool

    constructor (checkInterval: int)
      ensures this.checkInterval == checkInterval && !isRunning && !hasThread
    {
      this.checkInterval := checkInterval;
      isRunning := false;
      hasThread := false;
    }

    /** start: refused when already running, with nothing changed; otherwise
        the flag is set and a worker thread is started. */
    method Start() returns (started: bool)
      modifies this`isRunning, this`hasThread
      ensures started <==> !old(isRunning)
      ensures isRunning
      ensures !started ==> hasThread == old(hasThread)
      ensures started ==> hasThread
    {
      if isRunning {
        return false;
      }
      isRunning := true;
      hasThread := true;
      return true;
    }

    /** stop: the flag is cleared and the thread, if any, is joined and
        dropped. */
    method Stop()
      modifies this`isRunning, this`hasThread
      ensures !isRunning && !hasThread
    {
      isRunning := false;
      if hasThread {
        hasThread := false;
      }
    }

    /** _check_pending_tasks: the tasks get_tasks lists are walked in its
        order; each due one is marked running, its executor is started (its
        id is appended to the result) and its next run is moved to the
        following run. No other task is touched. When get_tasks gives the
        empty list (a task is being updated) nothing happens. */
    method CheckPendingTasks(db: Database, scan: seq<int>, now: int, midnight: int)
      returns (dispatched: seq<int>)
      requires db.Valid()
      requires Enumerates(scan, db.tasks.Keys)
      modifies db`tasks
      ensures db.Valid()
      ensures old(db.AnyUpdating()) ==> dispatched == [] && db.tasks == old(db.tasks)
      ensures !old(db.AnyUpdating()) ==>
                dispatched == DueIds(old(SortBy(db.TaskRows(scan), NewerFirst)), now) &&
                db.tasks == Scheduled(old(db.tasks), now, midnight)
    {
      var rows := db.GetTasks(scan);
      ghost var before := db.tasks;
      AllListed(db, scan, before);
      dispatched := DispatchDue(db, rows, now, midnight);
      if !old(db.AnyUpdating()) {
        ScheduledWhenAllListed(before, db.tasks, Ids(rows), now, midnight);
      } else {
        UnchangedWhenNoneListed(before, db.tasks, Ids(rows), now, midnight);
      }
    }
  }

  /** With nothing seen, the loop changes nothing. */
  lemma UnchangedWhenNoneListed(before: map<int, TaskRow>, cur: map<int, TaskRow>, seen: set<int>,
                                now: int, midnight: int)
    requires Progressed(before, cur, seen, now, midnight)
    requires seen == {}
    ensures cur == before
  {
    forall t | t in cur
      ensures cur[t] == before[t]
    {
    }
  }

  /** get_tasks lists every task. */
  lemma AllListed(db: Database, scan: seq<int>, tasks: map<int, TaskRow>)
    requires db.Valid() && tasks == db.tasks
    requires Enumerates(scan, db.tasks.Keys)
    ensures tasks.Keys <= Ids(SortBy(db.TaskRows(scan), NewerFirst))
  {
    db.TaskRowsMembers(scan);
  }

  /** Once every task has been seen, the loop's outcome is the whole check's. */
  lemma ScheduledWhenAllListed(before: map<int, TaskRow>, cur: map<int, TaskRow>, seen: set<int>,
                               now: int, midnight: int)
    requires Progressed(before, cur, seen, now, midnight)
    requires before.Keys <= seen
    ensures cur == Scheduled(before, now, midnight)
  {
    var s := Scheduled(before, now, midnight);
    forall t | t in cur
      ensures cur[t] == s[t]
    {
    }
  }

  /** The ids of the rows. */
  function Ids(rows: seq<TaskRow>): (ids: set<int>)
    ensures forall x :: x in rows ==> x.id in ids
  {
    if |rows| == 0 then {} else Ids(rows[..|rows| - 1]) + {rows[|rows| - 1].id}
  }

  /** The tasks part-way through the loop: the due tasks among those seen
      are dispatched, the others are as they were. */
  ghost predicate Progressed(before: map<int, TaskRow>, cur: map<int, TaskRow>, seen: set<int>,
                             now: int, midnight: int) {
    cur.Keys == before.Keys &&
    forall t :: t in before ==>
      cur[t] == if Due(before[t], now) && t in seen then Dispatch(before[t], now, midnight) else before[t]
  }

  lemma ProgressStep(before: map<int, TaskRow>, cur: map<int, TaskRow>, seen: set<int>,
                     row: TaskRow, now: int, midnight: int)
    requires Progressed(before, cur, seen, now, midnight)
    requires row.id in before && before[row.id] == row
    ensures cur[row.id] == row || cur[row.id] == Dispatch(row, now, midnight)
    ensures Due(row, now) ==>
              Progressed(before, cur[row.id := Dispatch(row, now, midnight)], seen + {row.id}, now, midnight)
    ensures !Due(row, now) ==> Progressed(before, cur, seen + {row.id}, now, midnight)
  {
  }

  /** The loop of _check_pending_tasks over the listed rows, each of which is
      the stored row of its task. */
  method DispatchDue(db: Database, rows: seq<TaskRow>, now: int, midnight: int)
    returns (dispatched: seq<int>)
    requires db.Valid()
    requires forall x :: x in rows ==> x.id in db.tasks && db.tasks[x.id] == x
    modifies db`tasks
    ensures db.Valid()
    ensures dispatched == DueIds(rows, now)
    ensures Progressed(old(db.tasks), db.tasks, Ids(rows), now, midnight)
  {
    ghost var before := db.tasks;
    ghost var seen: set<int> := {};
    dispatched := [];
    var i := 0;
    while i < |rows|
      invariant 0 <= i <= |rows|
      invariant db.Valid()
      invariant dispatched == DueIds(rows[..i], now)
      invariant seen == Ids(rows[..i])
      invariant Progressed(before, db.tasks, seen, now, midnight)
    {
      var row := rows[i];
      assert rows[..i + 1][..i] == rows[..i];
      assert row in rows;
      ProgressStep(before, db.tasks, seen, row, now, midnight);
      if Due(row, now) {
        MarkDispatched(db, row, now, midnight);
        dispatched := dispatched + [row.id];
      }
      seen := seen + {row.id};
      i := i + 1;
    }
    assert rows[..i] == rows;
  }

  /** The two writes for one dispatched task: its status becomes running and
      its next run the following run. Writing them twice changes nothing. */
  method MarkDispatched(db: Database, row: TaskRow, now: int, midnight: int)
    requires db.Valid()
    requires row.id in db.tasks
    requires db.tasks[row.id] == row || db.tasks[row.id] == Dispatch(row, now, midnight)
    modifies db`tasks
    ensures db.Valid()
    ensures db.tasks == old(db.tasks)[row.id := Dispatch(row, now, midnight)]
  {
    db.UpdateTaskStatus(row.id, "running", now);
    db.UpdateTaskNextRun(row.id, FollowingRun(now, midnight, row.dailyUpdateTime), now);
  }
}
