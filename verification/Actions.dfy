/**
 models/actions: the steps themselves, statement by statement on the tables. Each is proved to
 change the tables as its specification in `ActionsModel` says. `now` is the clock.
 */
module Actions {
  import opened ActionsStatus
  import opened ActionsModel
  import M = ActionsModel
  import opened ActionsRuns
  import opened ActionsHistory
  import opened ActionsConcurrency
  import opened ActionsCancel
  import opened ActionsSteps

  /** The columns of a job row that updates set; zero means "not set". */
  datatype JobUpdate = JobUpdate(
    runId: int, repoId: int, taskId: int, status: int, attempt: int, started: int, stopped: int)

  /** The column list of an update: none, so that zero columns are skipped, or status and stopped. */
  datatype Columns = NonZeroColumns | StatusAndStopped

  function Apply(row: Job, b: JobUpdate, cols: Columns): Job {
    if cols == StatusAndStopped then row.(status := b.status, stopped := b.stopped)
    else row.(runId := NonZero(row.runId, b.runId), repoId := NonZero(row.repoId, b.repoId),
              taskId := NonZero(row.taskId, b.taskId), status := NonZero(row.status, b.status),
              attempt := NonZero(row.attempt, b.attempt), started := NonZero(row.started, b.started),
              stopped := NonZero(row.stopped, b.stopped))
  }

  function Occurring(jobs: seq<Job>): set<int> {
    set k | 0 <= k < |jobs| :: jobs[k].status
  }

  lemma OccurringNext(jobs: seq<Job>, i: nat)
    requires i < |jobs|
    ensures Occurring(jobs[..i + 1]) == Occurring(jobs[..i]) + {jobs[i].status}
  {
    forall x | x in Occurring(jobs[..i]) + {jobs[i].status}
      ensures x in Occurring(jobs[..i + 1])
    {
      if x == jobs[i].status {
        assert jobs[..i + 1][i].status == x;
      } else {
        var k :| 0 <= k < i && jobs[..i][k].status == x;
        assert jobs[..i + 1][k].status == x;
      }
    }
    forall x | x in Occurring(jobs[..i + 1])
      ensures x in Occurring(jobs[..i]) + {jobs[i].status}
    {
      var k :| 0 <= k < i + 1 && jobs[..i + 1][k].status == x;
      if k < i {
        assert jobs[..i][k].status == x;
      }
    }
  }

  /** `AggregateJobStatus`: seven flags over one pass. */
  method AggregateJobStatus(jobs: seq<Job>) returns (r: int)
    ensures r == Aggregate(Occurring(jobs))
  {
    var allSuccessOrSkipped, allSkipped := |jobs| != 0, |jobs| != 0;
    var hasFailure, hasCancelled, hasWaiting, hasRunning, hasBlocked := false, false, false, false, false;
    for i := 0 to |jobs|
      invariant allSuccessOrSkipped <==> |jobs| != 0 && Occurring(jobs[..i]) <= {SUCCESS, SKIPPED}
      invariant allSkipped <==> |jobs| != 0 && Occurring(jobs[..i]) <= {SKIPPED}
      invariant hasFailure <==> FAILURE in Occurring(jobs[..i])
      invariant hasCancelled <==> CANCELLED in Occurring(jobs[..i])
      invariant hasWaiting <==> WAITING in Occurring(jobs[..i])
      invariant hasRunning <==> RUNNING in Occurring(jobs[..i])
      invariant hasBlocked <==> BLOCKED in Occurring(jobs[..i])
    {
      var status := jobs[i].status;
      OccurringNext(jobs, i);
      allSuccessOrSkipped := allSuccessOrSkipped && (status == SUCCESS || status == SKIPPED);
      allSkipped := allSkipped && status == SKIPPED;
      hasFailure := hasFailure || status == FAILURE;
      hasCancelled := hasCancelled || status == CANCELLED;
      hasWaiting := hasWaiting || status == WAITING;
      hasRunning := hasRunning || status == RUNNING;
      hasBlocked := hasBlocked || status == BLOCKED;
    }
    assert jobs[..|jobs|] == jobs;
    assert |jobs| != 0 ==> jobs[0].status in Occurring(jobs);
    if {
      case allSkipped => r := SKIPPED;
      case !allSkipped && allSuccessOrSkipped => r := SUCCESS;
      case !allSkipped && !allSuccessOrSkipped =>
        r := if hasCancelled then CANCELLED else if hasRunning then RUNNING else if hasWaiting then WAITING
             else if hasFailure then FAILURE else if hasBlocked then BLOCKED else UNKNOWN;
    }
  }

  lemma NonEmpty(s: set<int>)
    ensures s == {} || exists x :: x in s
  {
    if forall x :: x !in s {
      assert s == {};
    }
  }

  lemma AddRow(s: M.State, list: seq<Found>, ids: set<int>, j: int)
    requires RowsOf(s, list, ids) && j in s.jobs
    ensures RowsOf(s, list + [Found(j, s.jobs[j])], ids + {j})
  {
    var list' := list + [Found(j, s.jobs[j])];
    assert list'[|list|] == Found(j, s.jobs[j]);
    forall k | k in ids + {j}
      ensures exists f :: f in list' && f.id == k
    {
      if k in ids {
        var f :| f in list && f.id == k;
        assert f in list';
      }
    }
  }

  lemma RowsAggregate(s: M.State, found: seq<Found>, runId: int, rows: seq<Job>)
    requires RowsOf(s, found, JobsOfRuns(s, {runId}))
    requires |rows| == |found| && forall i :: 0 <= i < |found| ==> rows[i] == found[i].row
    ensures Occurring(rows) == StatusesOf(s.jobs, runId)
  {
    forall x | x in StatusesOf(s.jobs, runId)
      ensures x in Occurring(rows)
    {
      var j :| j in s.jobs && s.jobs[j].runId == runId && s.jobs[j].status == x;
      assert j in JobsOfRuns(s, {runId});
      var f :| f in found && f.id == j;
      var i :| 0 <= i < |found| && found[i] == f;
      assert rows[i].status == x;
    }
    forall x | x in Occurring(rows)
      ensures x in StatusesOf(s.jobs, runId)
    {
      var i :| 0 <= i < |rows| && rows[i].status == x;
      assert found[i] in found;
    }
  }

  lemma JoinRows(s: M.State, a: seq<Found>, x: set<int>, b: seq<Found>, y: set<int>)
    requires RowsOf(s, a, x) && RowsOf(s, b, y)
    ensures RowsOf(s, a + b, x + y)
  {
    forall j | j in x + y
      ensures exists f :: f in a + b && f.id == j
    {
      if j in x {
        var f :| f in a && f.id == j;
        assert f in a + b;
      } else {
        var f :| f in b && f.id == j;
        assert f in a + b;
      }
    }
  }

  /** Each returned job is done, and was given as one that was not. */
  ghost predicate AreFrom(cancelled: seq<Found>, rows: seq<Found>) {
    forall c :: c in cancelled ==>
      IsDone(c.row.status) && exists f :: f in rows && f.id == c.id && !IsDone(f.row.status)
  }

  lemma AreFromNext(cancelled: seq<Found>, rows: seq<Found>, k: nat, c: Found)
    requires AreFrom(cancelled, rows) && k < |rows|
    requires IsDone(c.row.status) && c.id == rows[k].id && !IsDone(rows[k].row.status)
    ensures AreFrom(cancelled + [c], rows)
  {
    assert rows[k] in rows;
  }

  function Ids(fs: seq<Found>): seq<int> {
    seq(|fs|, i requires 0 <= i < |fs| => fs[i].id)
  }

  lemma IdsNext(fs: seq<Found>, f: Found)
    ensures Ids(fs + [f]) == Ids(fs) + [f.id]
  {
  }

  /** After `k` turns the table is `s`, `ids` were returned, and the rest of the list leads to the specified end. */
  ghost predicate Progress(s0: M.State, s: M.State, rows: seq<Found>, k: nat, ids: seq<int>, now: int)
    requires k <= |rows|
  {
    && Consistent(s0) && Consistent(s) && (Inv(s0) ==> Inv(s)) && Later(s0, s)
    && (forall f :: f in rows ==> SeenBefore(s0, f) && SeenBefore(s, f))
    && CancelAll(s0, rows, now) == CancelAll(s, rows[k..], now)
    && Cancelled(s0, rows, now) == ids + Cancelled(s, rows[k..], now)
  }

  lemma StartProgress(s: M.State, rows: seq<Found>, now: int)
    requires Consistent(s) && forall f :: f in rows ==> SeenBefore(s, f)
    ensures Progress(s, s, rows, 0, [], now)
  {
    assert rows[0..] == rows;
    assert [] + Cancelled(s, rows, now) == Cancelled(s, rows, now);
  }

  lemma MoreIds(ids: seq<int>, id: int, hit: bool, more: seq<int>)
    ensures ids + ((if hit then [id] else []) + more) == (if hit then ids + [id] else ids) + more
  {
  }

  lemma ProgressStep(s0: M.State, s: M.State, rows: seq<Found>, k: nat, ids: seq<int>, now: int)
    requires k < |rows| && Progress(s0, s, rows, k, ids, now)
    ensures SeenBefore(s, rows[k])
    ensures Progress(s0, CancelOne(s, rows[k], now), rows, k + 1,
                     if Hits(s, rows[k]) then ids + [rows[k].id] else ids, now)
  {
    var f, s1 := rows[k], CancelOne(s, rows[k], now);
    assert f in rows && rows[k..][0] == f && rows[k..][1..] == rows[k + 1..];
    CancelTurn(s, rows[k..], now);
    LaterTransitive(s0, s, s1);
    forall g | g in rows ensures SeenBefore(s1, g) { SeenStaysSeen(s, s1, g); }
    MoreIds(ids, f.id, Hits(s, f), Cancelled(s1, rows[k + 1..], now));
  }

  lemma EndProgress(s0: M.State, s: M.State, rows: seq<Found>, ids: seq<int>, now: int)
    requires Progress(s0, s, rows, |rows|, ids, now)
    ensures s == CancelAll(s0, rows, now) && ids == Cancelled(s0, rows, now)
  {
    assert ids + [] == ids;
  }

  class Tables {
    var runs: map<int, Run>
    var jobs: map<int, Job>
    var tasks: map<int, Task>
    var steps: map<int, seq<TaskStep>>
    var repos: map<int, Repo>
    var nextTaskId: int

    function State(): M.State
      reads this
    {
      M.State(runs, jobs, tasks, steps, repos, nextTaskId)
    }

    constructor (s: M.State)
      ensures State() == s
    {
      runs, jobs, tasks, steps, repos, nextTaskId := s.runs, s.jobs, s.tasks, s.steps, s.repos, s.nextTaskId;
    }

    /** A query for some jobs: their current rows, in no particular order. */
    method FindJobs(ids: set<int>) returns (list: seq<Found>)
      requires ids <= jobs.Keys
      ensures RowsOf(State(), list, ids)
    {
      list := [];
      var rest := ids;
      while rest != {}
        invariant rest <= ids
        invariant RowsOf(State(), list, ids - rest)
        decreases rest
      {
        NonEmpty(rest);
        var j :| j in rest;
        AddRow(State(), list, ids - rest, j);
        list := list + [Found(j, jobs[j])];
        rest := rest - {j};
        assert ids - rest == ids - (rest + {j}) + {j};
      }
      assert ids - rest == ids;
    }

    /** `UpdateRepoRunsNumbers`: both counters from fresh counts. */
    method UpdateRepoRunsNumbers(repoId: int)
      modifies this`repos
      ensures repos == old(repos)[repoId := Recount(runs, repoId)]
    {
      var numRuns := |RunsOf(runs, repoId)|;
      var numClosed := |ClosedRunsOf(runs, repoId)|;
      repos := repos[repoId := Repo(numRuns, numClosed)];
    }

    /** `UpdateRun` with the status column in its list. */
    method UpdateRun(id: int, run: Run)
      modifies this`runs, this`repos
      ensures runs == old(runs)[id := run]
      ensures repos == old(repos)[run.repoId := Recount(runs, run.repoId)]
    {
      runs := runs[id := run];
      UpdateRepoRunsNumbers(run.repoId);
    }

    /** The part of `UpdateRunJob` that aggregates the run again. */
    method RefreshRun(runId: int, now: int)
      requires runId in runs
      modifies this`runs, this`repos
      ensures State() == Refresh(old(State()), runId, now)
    {
      var run := runs[runId];
      var found := FindJobs(JobsOfRuns(State(), {runId}));
      var rows := seq(|found|, i requires 0 <= i < |found| => found[i].row);
      var status := AggregateJobStatus(rows);
      RowsAggregate(State(), found, runId, rows);
      run := run.(status := status);
      if run.started == 0 && run.status == RUNNING {
        run := run.(started := now);
      }
      if run.stopped == 0 && IsDone(run.status) {
        run := run.(stopped := now);
      }
      UpdateRun(runId, run);
    }

    /**
     `UpdateRunJob`: writes the row unless the guard `task_id = 0` fails, and then, when the
     status was written, brings the run and the repository up to date.
     */
    method UpdateRunJob(id: int, b: JobUpdate, guard: bool, cols: Columns, now: int) returns (affected: int)
      requires id in jobs && jobs[id].runId in runs
      requires b.runId == 0 || b.runId == jobs[id].runId
      requires b.repoId == 0 || b.repoId == jobs[id].repoId
      modifies this`jobs, this`runs, this`repos
      ensures guard && old(jobs[id].taskId) != 0 ==> affected == 0 && State() == old(State())
      ensures !(guard && old(jobs[id].taskId) != 0) ==>
        affected == 1
        && State() == (if cols == NonZeroColumns && b.status == 0
                       then old(State()).(jobs := old(jobs)[id := Apply(old(jobs)[id], b, cols)])
                       else PutJob(old(State()), id, Apply(old(jobs)[id], b, cols), now))
    {
      affected := 0;
      if !guard || jobs[id].taskId == 0 {
        jobs := jobs[id := Apply(jobs[id], b, cols)];
        affected := 1;
      }
      if affected == 0 || (cols != StatusAndStopped && b.status == 0) {
        return;
      }
      var runId := b.runId;
      if runId == 0 {
        runId := jobs[id].runId;
      }
      RefreshRun(runId, now);
    }

    /** `FindWaitingJobs` and labels: the first row the runner can take, or none. */
    static method PickJob(runner: Runner, found: seq<Found>) returns (k: nat)
      ensures k == Pick(runner, found)
    {
      k := 0;
      while k < |found| && !(found[k].row.runsOn <= runner.labels)
        invariant k <= |found| && Pick(runner, found) == k + Pick(runner, found[k..])
      {
        assert found[k..][1..] == found[k + 1..];
        k := k + 1;
      }
    }

    /** The INSERTs of a claim: the task, and a waiting row for each step of the job. */
    method InsertTask(job: Found, runner: Runner, now: int) returns (newId: int)
      requires job.row.payload.Steps?
      modifies this`tasks, this`steps, this`nextTaskId
      ensures newId == old(nextTaskId) && State() == WithTask(old(State()), job, runner, now)
    {
      newId := nextTaskId;
      nextTaskId := nextTaskId + 1;
      tasks := tasks[newId := Task(job.id, job.row.repoId, runner.id, job.row.attempt + 1, RUNNING, now, 0)];
      steps := steps[newId := NewSteps(job.row.payload.count)];
    }

    /**
     `CreateTaskForRunner`, on the rows its query returned. Unless the guarded update hits the
     job row, closing the transaction takes the inserted task and steps back.
     */
    method CreateTaskForRunner(runner: Runner, found: seq<Found>, now: int) returns (taskId: int, parseError: bool)
      requires Inv(State()) && now != 0 && forall f :: f in found ==> SeenBefore(State(), f)
      modifies this
      ensures State() == Claim(old(State()), runner, found, now) && Inv(State())
      ensures taskId != 0 ==> taskId == old(nextTaskId) && taskId in tasks && tasks[taskId].runnerId == runner.id
      ensures taskId == 0 ==> tasks == old(tasks) && jobs == old(jobs) && steps == old(steps)
    {
      taskId, parseError := 0, false;
      ClaimKeepsInv(State(), runner, found, now);
      var k := PickJob(runner, found);
      if k == |found| {
        return;
      }
      var job := found[k];
      assert job in found && JobLinked(State(), job.id);
      if job.row.payload.BadPayload? {
        return 0, true;
      }
      taskId := ClaimJob(job, runner, now);
    }

    /** The writes of a claim; when the job row was not hit, the rollback of the inserts. */
    method ClaimJob(job: Found, runner: Runner, now: int) returns (taskId: int)
      requires job.row.payload.Steps? && now != 0 && nextTaskId >= 1
      requires SeenBefore(State(), job) && job.row.runId in runs
      modifies this
      ensures old(jobs)[job.id].taskId == 0 ==>
        taskId == old(nextTaskId) && State() == TakeJob(old(State()), job, runner, now)
      ensures old(jobs)[job.id].taskId != 0 ==>
        taskId == 0 && nextTaskId == old(nextTaskId) + 1 && State() == old(State()).(nextTaskId := nextTaskId)
    {
      var savedTasks, savedSteps := tasks, steps;
      taskId := InsertTask(job, runner, now);
      var b := JobUpdate(job.row.runId, job.row.repoId, taskId, RUNNING, job.row.attempt + 1, now, job.row.stopped);
      var n := UpdateRunJob(job.id, b, true, NonZeroColumns, now);
      if n != 1 {
        tasks, steps, taskId := savedTasks, savedSteps, 0;
      }
    }

    /** `StopTask`: ends a task that is not done, its job and its unfinished steps. */
    method StopTask(taskId: int, status: int, now: int) returns (ok: bool)
      requires Consistent(State()) && now != 0
      modifies this`runs, this`jobs, this`tasks, this`steps, this`repos
      ensures Consistent(State()) && (old(Inv(State())) ==> Inv(State())) && Later(old(State()), State())
      ensures ok == (IsDone(status) && taskId in old(tasks))
      ensures State() == if ok then Stop(old(State()), taskId, status, now) else old(State())
    {
      if !IsDone(status) || taskId !in tasks {
        return false;
      }
      ok := true;
      StopKeepsInv(State(), taskId, status, now);
      StopLater(State(), taskId, status, now);
      if IsDone(tasks[taskId].status) {
        return;
      }
      assert TaskLinked(State(), taskId);
      StopTaskRow(taskId, status, now);
      StopStepRows(taskId, status, now);
    }

    /** The job first, then the task, with one final status. */
    method StopTaskRow(taskId: int, status: int, now: int)
      requires Consistent(State()) && now != 0 && IsDone(status) && taskId in tasks
      modifies this`runs, this`jobs, this`tasks, this`repos
      ensures State() == Finish(old(State()), taskId, status, now, now)
    {
      var task := tasks[taskId];
      assert TaskLinked(State(), taskId) && JobLinked(State(), task.jobId);
      var n := UpdateRunJob(task.jobId, JobUpdate(0, task.repoId, 0, status, 0, 0, now), false, NonZeroColumns, now);
      tasks := tasks[taskId := task.(status := status, stopped := now)];
    }

    method StopStepRows(taskId: int, status: int, now: int)
      requires taskId in steps
      modifies this`steps
      ensures steps == old(steps)[taskId := StopSteps(old(steps)[taskId], status, now)]
    {
      for i := 0 to |steps[taskId]|
        invariant taskId in steps && |steps[taskId]| == |old(steps)[taskId]|
        invariant forall k :: 0 <= k < i ==> steps[taskId][k] == StopStep(old(steps)[taskId][k], status, now)
        invariant forall k :: i <= k < |steps[taskId]| ==> steps[taskId][k] == old(steps)[taskId][k]
        invariant steps == old(steps)[taskId := steps[taskId]]
      {
        var step := steps[taskId][i];
        if !IsDone(step.status) {
          step := step.(status := status);
          if step.started == 0 {
            step := step.(started := now);
          }
          step := step.(stopped := now);
        }
        steps := steps[taskId := steps[taskId][i := step]];
      }
      assert steps[taskId] == StopSteps(old(steps)[taskId], status, now);
    }

    /** `UpdateTaskByState`: a runner reports on its task; a final task ignores it. */
    method UpdateTaskByState(runnerId: int, report: Report, now: int) returns (ok: bool)
      requires Inv(State())
      modifies this`runs, this`jobs, this`tasks, this`steps, this`repos
      ensures Inv(State()) && Later(old(State()), State())
      ensures ok == (report.taskId in old(tasks) && old(tasks)[report.taskId].runnerId == runnerId)
      ensures State() == Update(old(State()), runnerId, report, now)
      ensures if Accepted(old(State()), runnerId, report) then ReportedRows(old(steps), steps, report)
              else State() == old(State())
    {
      UpdateKeepsInv(State(), runnerId, report, now);
      UpdateLater(State(), runnerId, report, now);
      if Accepted(State(), runnerId, report) {
        StepsAfterReport(State(), runnerId, report, now);
      }
      var t := report.taskId;
      if t !in tasks || tasks[t].runnerId != runnerId {
        return false;
      }
      ok := true;
      if IsDone(tasks[t].status) {
        return;
      }
      assert TaskLinked(State(), t);
      if report.result != 0 {
        ReportResult(t, report.result, report.stoppedAt, now);
      }
      ReportStepRows(t, report.steps);
    }

    /** The task first, then its job. */
    method ReportResult(t: int, result: int, stoppedAt: int, now: int)
      requires Consistent(State()) && result != 0 && t in tasks
      modifies this`runs, this`jobs, this`tasks, this`repos
      ensures State() == Finish(old(State()), t, result, stoppedAt, now)
    {
      var task := tasks[t];
      assert TaskLinked(State(), t) && JobLinked(State(), task.jobId);
      tasks := tasks[t := task.(status := result, stopped := stoppedAt)];
      var b := JobUpdate(0, task.repoId, 0, result, 0, 0, stoppedAt);
      var n := UpdateRunJob(task.jobId, b, false, NonZeroColumns, now);
    }

    method ReportStepRows(taskId: int, reports: map<int, StepReport>)
      requires taskId in steps
      modifies this`steps
      ensures steps == old(steps)[taskId := ReportSteps(old(steps)[taskId], reports)]
    {
      for i := 0 to |steps[taskId]|
        invariant taskId in steps && |steps[taskId]| == |old(steps)[taskId]|
        invariant forall k :: 0 <= k < i ==> steps[taskId][k] == ReportStep(old(steps)[taskId][k], k, reports)
        invariant forall k :: i <= k < |steps[taskId]| ==> steps[taskId][k] == old(steps)[taskId][k]
        invariant steps == old(steps)[taskId := steps[taskId]]
      {
        var row := steps[taskId][i];
        var step, result := row, 0;
        if i in reports {
          var v := reports[i];
          result := v.result;
          step := TaskStep(step.status, v.logIndex, v.logLength, v.started, v.stopped);
        }
        if result != 0 {
          step := step.(status := result);
        } else if step.started != 0 {
          step := step.(status := RUNNING);
        }
        var written := TaskStep(NonZero(row.status, step.status), NonZero(row.logIndex, step.logIndex),
          NonZero(row.logLength, step.logLength), NonZero(row.started, step.started), NonZero(row.stopped, step.stopped));
        steps := steps[taskId := steps[taskId][i := written]];
      }
      assert steps[taskId] == ReportSteps(old(steps)[taskId], reports);
    }

    /** One turn of the loop in `CancelJobs`; `row` holds the cancelled job if the turn cancelled it. */
    method CancelJob(f: Found, now: int) returns (hit: bool, row: Job)
      requires Consistent(State()) && SeenBefore(State(), f) && now != 0
      modifies this`runs, this`jobs, this`tasks, this`steps, this`repos
      ensures Consistent(State()) && (old(Inv(State())) ==> Inv(State())) && Later(old(State()), State())
      ensures State() == CancelOne(old(State()), f, now)
      ensures hit <==> !IsDone(f.row.status) && (f.row.taskId == 0 ==> old(jobs)[f.id].taskId == 0)
      ensures hit ==> f.id in jobs && row.status == jobs[f.id].status && IsDone(row.status)
    {
      hit, row := false, f.row;
      CancelOneKeepsInv(State(), f, now);
      CancelOneLater(State(), f, now);
      assert JobLinked(State(), f.id);
      if IsDone(f.row.status) {
        return;
      }
      if f.row.taskId == 0 {
        row := row.(status := CANCELLED, stopped := now);
        var b := JobUpdate(row.runId, row.repoId, row.taskId, row.status, row.attempt, row.started, row.stopped);
        var n := UpdateRunJob(f.id, b, true, StatusAndStopped, now);
        hit := n != 0;
        return;
      }
      var ok := StopTask(f.row.taskId, CANCELLED, now);
      hit, row := true, jobs[f.id];
      assert TaskLinked(State(), f.row.taskId);
    }

    /** `CancelJobs`, on rows that may be out of date. */
    method CancelJobs(rows: seq<Found>, now: int) returns (cancelled: seq<Found>)
      requires Consistent(State()) && now != 0 && forall f :: f in rows ==> SeenBefore(State(), f)
      modifies this`runs, this`jobs, this`tasks, this`steps, this`repos
      ensures Consistent(State()) && (old(Inv(State())) ==> Inv(State())) && Later(old(State()), State())
      ensures State() == CancelAll(old(State()), rows, now)
      ensures Ids(cancelled) == Cancelled(old(State()), rows, now) && AreFrom(cancelled, rows)
    {
      cancelled := [];
      ghost var s0 := State();
      StartProgress(s0, rows, now);
      for k := 0 to |rows|
        invariant Progress(s0, State(), rows, k, Ids(cancelled), now)
        invariant AreFrom(cancelled, rows)
      {
        ghost var s := State();
        var hit, row := CancelJob(rows[k], now);
        ProgressStep(s0, s, rows, k, Ids(cancelled), now);
        if hit {
          AreFromNext(cancelled, rows, k, Found(rows[k].id, row));
          IdsNext(cancelled, Found(rows[k].id, row));
          cancelled := cancelled + [Found(rows[k].id, row)];
        }
      }
      EndProgress(s0, State(), rows, Ids(cancelled), now);
    }

    /** The rows of some jobs, and then those of the jobs of some runs. */
    method CollectJobs(ids: set<int>, runIds: set<int>) returns (rows: seq<Found>)
      requires ids <= jobs.Keys
      ensures RowsOf(State(), rows, ids + JobsOfRuns(State(), runIds))
    {
      rows := FindJobs(ids);
      var more := FindJobs(JobsOfRuns(State(), runIds));
      JoinRows(State(), rows, ids, more, JobsOfRuns(State(), runIds));
      rows := rows + more;
    }

    /** `CancelPreviousJobsByRunConcurrency`, given the run as a value, with or without a row. */
    method CancelPreviousJobsByRunConcurrency(id: int, actionRun: Run, now: int) returns (cancelled: seq<Found>)
      requires Consistent(State()) && Quiet(State()) && now != 0
      requires actionRun.group != "" ==> actionRun.repoId > 0
      modifies this`runs, this`jobs, this`tasks, this`steps, this`repos
      ensures Consistent(State()) && Quiet(State()) && (old(Inv(State())) ==> Inv(State()))
      ensures Later(old(State()), State())
      ensures forall j :: j in old(jobs) ==>
        if EndedByRun(old(State()), id, actionRun, j) then IsDone(jobs[j].status) else jobs[j] == old(jobs)[j]
      ensures forall j :: j in old(jobs) && jobs[j] != old(jobs)[j] ==> j in Ids(cancelled)
      ensures !actionRun.cancel ==>
        forall j :: j in old(jobs) && old(jobs)[j].status == RUNNING ==> jobs[j] == old(jobs)[j]
    {
      ghost var s := State();
      forall j | j in jobs ensures j in ObsoleteForRun(s, id, actionRun) <==> EndedByRun(s, id, actionRun, j) {
        CollectedAreEnded(s, id, actionRun, jobs[j], j);
      }
      cancelled := [];
      if actionRun.group == "" {
        LaterReflexive(s);
        return;
      }
      var sought := {WAITING, BLOCKED};
      if actionRun.cancel {
        sought := sought + {RUNNING};
      }
      assert sought == Sought(actionRun.cancel);
      var found := RunsInGroup(State(), actionRun.repoId, actionRun.group, sought);
      var groupJobs := JobsInGroup(State(), actionRun.repoId, actionRun.group, sought);
      var jobsToCancel := CollectJobs(groupJobs, found - {id});
      cancelled := CancelCollected(jobsToCancel, ObsoleteForRun(State(), id, actionRun), now);
      if !actionRun.cancel {
        ObsoleteForRunNotRunning(s, id, actionRun);
      }
    }

    /** `CancelPreviousJobsByJobConcurrency`, given the job as a value, with or without a row. */
    method CancelPreviousJobsByJobConcurrency(id: int, job: Job, now: int) returns (cancelled: seq<Found>)
      requires Consistent(State()) && Quiet(State()) && now != 0
      requires Concurrent(job) ==> job.repoId > 0
      modifies this`runs, this`jobs, this`tasks, this`steps, this`repos
      ensures Consistent(State()) && Quiet(State()) && (old(Inv(State())) ==> Inv(State()))
      ensures Later(old(State()), State())
      ensures forall j :: j in old(jobs) ==>
        if EndedByJob(old(State()), id, job, j) then IsDone(jobs[j].status) else jobs[j] == old(jobs)[j]
      ensures forall j :: j in old(jobs) && jobs[j] != old(jobs)[j] ==> j in Ids(cancelled)
      ensures !job.cancel ==>
        forall j :: j in old(jobs) && old(jobs)[j].status == RUNNING ==> jobs[j] == old(jobs)[j]
    {
      ghost var s := State();
      forall j | j in jobs ensures j in ObsoleteForJob(s, id, job) <==> EndedByJob(s, id, job, j) {
        CollectedAreEnded(s, id, Run(0, 0, 0, 0, "", false), job, j);
      }
      cancelled := [];
      if job.rawConcurrency == "" {
        LaterReflexive(s);
        return;
      }
      if !job.evaluated || job.group == "" {
        LaterReflexive(s);
        return;
      }
      var sought := {WAITING, BLOCKED};
      if job.cancel {
        sought := sought + {RUNNING};
      }
      assert sought == Sought(job.cancel);
      var found := RunsInGroup(State(), job.repoId, job.group, sought);
      var groupJobs := JobsInGroup(State(), job.repoId, job.group, sought) - {id};
      var jobsToCancel := CollectJobs(groupJobs, found);
      cancelled := CancelCollected(jobsToCancel, ObsoleteForJob(State(), id, job), now);
      if !job.cancel {
        ObsoleteForJobNotRunning(s, id, job);
      }
    }

    /** `CancelJobs` on current rows of the jobs `ids`. */
    method CancelCollected(rows: seq<Found>, ghost ids: set<int>, now: int) returns (cancelled: seq<Found>)
      requires Consistent(State()) && now != 0 && RowsOf(State(), rows, ids)
      modifies this`runs, this`jobs, this`tasks, this`steps, this`repos
      ensures Consistent(State()) && (old(Inv(State())) ==> Inv(State())) && Later(old(State()), State())
      ensures old(Quiet(State())) ==> Quiet(State())
      ensures forall j :: j in old(jobs) ==> if j in ids then IsDone(jobs[j].status) else jobs[j] == old(jobs)[j]
      ensures forall j :: j in old(jobs) && jobs[j] != old(jobs)[j] ==> j in Ids(cancelled)
    {
      ghost var s := State();
      cancelled := CancelJobs(rows, now);
      if Quiet(s) {
        CancelAllKeepsQuiet(s, rows, now);
      }
      forall j | j in s.jobs
        ensures if j in ids then IsDone(jobs[j].status) else jobs[j] == s.jobs[j]
      {
        CancelEffect(s, rows, ids, now, j);
      }
      forall j | j in s.jobs && jobs[j] != s.jobs[j]
        ensures j in Ids(cancelled)
      {
        ChangedAreReturned(s, rows, now, j);
      }
    }
  }
}
