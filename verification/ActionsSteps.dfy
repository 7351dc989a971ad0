/**
 What reports, stops and claims leave in the rows, column by column, and how long a finished step
 stays finished (models/actions/task.go:233-482, models/actions/run.go:196-221).
 */
module ActionsSteps {
  import opened ActionsStatus
  import opened ActionsModel
  import opened ActionsRuns
  import opened ActionsHistory

  // ----- reports

  /** The report counts: it comes from the runner of a task that is not finished. */
  predicate Accepted(s: State, runnerId: int, report: Report) {
    report.taskId in s.tasks && s.tasks[report.taskId].runnerId == runnerId
    && !IsDone(s.tasks[report.taskId].status)
  }

  /** The start time that decides whether a step without result is running. */
  function StartOf(row: TaskStep, k: int, reports: map<int, StepReport>): int {
    if k in reports then reports[k].started else row.started
  }

  /** A report gives a result for step `k`. */
  predicate HasResult(k: int, reports: map<int, StepReport>) {
    k in reports && reports[k].result != 0
  }

  /**
   A step's row after a report: its status is its result, or running if it has started, or what it
   was; every other column is the reported value if that is not zero, and otherwise what it was.
   */
  predicate StepReported(was: TaskStep, got: TaskStep, k: int, reports: map<int, StepReport>) {
    var named := k in reports;
    && got.status == (if HasResult(k, reports) then reports[k].result
                      else if StartOf(was, k, reports) != 0 then RUNNING else was.status)
    && got.logIndex == (if named && reports[k].logIndex != 0 then reports[k].logIndex else was.logIndex)
    && got.logLength == (if named && reports[k].logLength != 0 then reports[k].logLength else was.logLength)
    && got.started == (if named && reports[k].started != 0 then reports[k].started else was.started)
    && got.stopped == (if named && reports[k].stopped != 0 then reports[k].stopped else was.stopped)
  }

  /** The steps of the reported task are so reported, every one, and no other task's steps change. */
  ghost predicate ReportedRows(was: map<int, seq<TaskStep>>, got: map<int, seq<TaskStep>>, report: Report) {
    var t := report.taskId;
    && t in was && t in got && |got[t]| == |was[t]| && got.Keys == was.Keys
    && (forall k: nat :: k < |was[t]| ==> StepReported(was[t][k], got[t][k], k, report.steps))
    && (forall u :: u in was && u != t ==> got[u] == was[u])
  }

  lemma StepsAfterReport(s: State, runnerId: int, report: Report, now: int)
    requires Linked(s) && Accepted(s, runnerId, report)
    ensures ReportedRows(s.steps, Update(s, runnerId, report, now).steps, report)
  {
    var t := report.taskId;
    var s' := Update(s, runnerId, report, now);
    assert TaskLinked(s, t);
    assert s'.steps == s.steps[t := ReportSteps(s.steps[t], report.steps)];
    forall k: nat | k < |s.steps[t]|
      ensures StepReported(s.steps[t][k], s'.steps[t][k], k, report.steps)
    {
      OneStepReported(s.steps[t][k], k, report.steps);
    }
  }

  lemma OneStepReported(was: TaskStep, k: int, reports: map<int, StepReport>)
    ensures StepReported(was, ReportStep(was, k, reports), k, reports)
  {
  }

  /** The task and its job take the result and the stop time; without a result they keep theirs. */
  lemma ReportedTask(s: State, runnerId: int, report: Report, now: int)
    requires Inv(s) && Accepted(s, runnerId, report)
    ensures var t := report.taskId; var s' := Update(s, runnerId, report, now); var j := s.tasks[t].jobId;
      t in s'.tasks && j in s'.jobs && j in s.jobs
      && if report.result != 0 then
           s'.tasks == s.tasks[t := s.tasks[t].(status := report.result, stopped := report.stoppedAt)]
           && s'.jobs[j].status == report.result
           && (report.stoppedAt != 0 ==> s'.jobs[j].stopped == report.stoppedAt)
         else s'.tasks == s.tasks && s'.jobs == s.jobs
  {
    assert TaskLinked(s, report.taskId) && JobLinked(s, s.tasks[report.taskId].jobId);
  }

  /** A report that does not count changes nothing. */
  lemma RefusedReport(s: State, runnerId: int, report: Report, now: int)
    requires Linked(s) && !Accepted(s, runnerId, report)
    ensures Update(s, runnerId, report, now) == s
  {
  }

  // ----- stopping

  /** A stopped task leaves no step unfinished; the finished ones are not touched. */
  lemma StoppedSteps(s: State, t: int, status: int, now: int, k: nat)
    requires Linked(s) && t in s.tasks && t in s.steps && k < |s.steps[t]|
    requires !IsDone(s.tasks[t].status) && IsDone(status)
    ensures var was, s' := s.steps[t][k], Stop(s, t, status, now);
      t in s'.steps && |s'.steps[t]| == |s.steps[t]| && IsDone(s'.steps[t][k].status)
      && var got := s'.steps[t][k];
         if IsDone(was.status) then got == was
         else
           got.status == status && got.stopped == now && got.logIndex == was.logIndex && got.logLength == was.logLength
           && got.started == if was.started != 0 then was.started else now
  {
    assert TaskLinked(s, t);
  }

  lemma StoppedTask(s: State, t: int, status: int, now: int)
    requires Inv(s) && t in s.tasks && !IsDone(s.tasks[t].status) && IsDone(status) && now != 0
    ensures var s' := Stop(s, t, status, now); var j := s.tasks[t].jobId;
      s'.tasks == s.tasks[t := s.tasks[t].(status := status, stopped := now)]
      && j in s'.jobs && s'.jobs[j].status == status && s'.jobs[j].stopped == now
  {
    assert TaskLinked(s, t) && JobLinked(s, s.tasks[t].jobId);
  }

  // ----- claims

  lemma PickIs(runner: Runner, found: seq<Found>, k: nat)
    requires k < |found| && found[k].row.runsOn <= runner.labels
    requires forall i :: 0 <= i < k ==> !(found[i].row.runsOn <= runner.labels)
    ensures Pick(runner, found) == k
  {
    var p := Pick(runner, found);
    if p < k {
      assert found[p].row.runsOn <= runner.labels;
    }
  }

  /** A claim that goes through: the rows it makes and the job it takes. */
  lemma ClaimMeans(s: State, runner: Runner, found: seq<Found>, now: int, k: nat)
    requires Inv(s) && forall f :: f in found ==> SeenBefore(s, f)
    requires k < |found| && found[k].row.runsOn <= runner.labels
    requires forall i :: 0 <= i < k ==> !(found[i].row.runsOn <= runner.labels)
    requires found[k].id in s.jobs && s.jobs[found[k].id].taskId == 0 && found[k].row.payload.Steps?
    ensures var s', f, t := Claim(s, runner, found, now), found[k], s.nextTaskId;
      && t !in s.tasks && s'.nextTaskId == t + 1
      && s'.tasks == s.tasks[t := Task(f.id, f.row.repoId, runner.id, f.row.attempt + 1, RUNNING, now, 0)]
      && t in s'.steps && |s'.steps[t]| == f.row.payload.count
      && (forall i :: 0 <= i < |s'.steps[t]| ==> s'.steps[t][i] == TaskStep(WAITING, 0, 0, 0, 0))
      && s'.jobs.Keys == s.jobs.Keys && (forall j :: j in s.jobs && j != f.id ==> s'.jobs[j] == s.jobs[j])
      && s'.jobs[f.id].taskId == t && s'.jobs[f.id].status == RUNNING && s'.jobs[f.id].started == now
      && (f.row.attempt != -1 ==> s'.jobs[f.id].attempt == f.row.attempt + 1)
  {
    assert found[k] in found && JobLinked(s, found[k].id);
    PickIs(runner, found, k);
    forall t | t in s.tasks ensures t != s.nextTaskId { assert TaskLinked(s, t); }
  }

  // ----- runs and counters

  /** A cancelled job without a task: it, and no other job, is cancelled now. */
  lemma CancelledJob(s: State, f: Found, now: int)
    requires Inv(s) && SeenBefore(s, f) && !IsDone(f.row.status) && f.row.taskId == 0 && s.jobs[f.id].taskId == 0
    ensures var s' := CancelOne(s, f, now);
      s'.jobs == s.jobs[f.id := s.jobs[f.id].(status := CANCELLED, stopped := now)] && s'.tasks == s.tasks
  {
    assert JobLinked(s, f.id);
  }

  /** A run after one of its jobs changed: times are set once, at the first running and the first final status. */
  lemma RunAfterJob(s: State, id: int, job: Job, now: int)
    requires job.runId in s.runs
    ensures var was := s.runs[job.runId]; var s' := PutJob(s, id, job, now); var got := s'.runs[job.runId];
      && (was.started != 0 ==> got.started == was.started) && (was.stopped != 0 ==> got.stopped == was.stopped)
      && (was.started == 0 ==> got.started == if got.status == RUNNING then now else 0)
      && (was.stopped == 0 ==>
            got.stopped == if got.status in {SUCCESS, FAILURE, CANCELLED, SKIPPED} then now else 0)
      && (forall r :: r in s.runs && r != job.runId ==> r in s'.runs && s'.runs[r] == s.runs[r])
  {
  }

  lemma ClosedMeans(runs: map<int, Run>, p: int)
    ensures RunsOf(runs, p) == set r | r in runs && runs[r].repoId == p
    ensures ClosedRunsOf(runs, p) ==
      set r | r in runs && runs[r].repoId == p && runs[r].status in {SUCCESS, FAILURE, CANCELLED, SKIPPED}
  {
    var closed := set r | r in runs && runs[r].repoId == p && runs[r].status in {SUCCESS, FAILURE, CANCELLED, SKIPPED};
    forall r ensures r in closed <==> r in ClosedRunsOf(runs, p) {
      assert r in runs ==> (IsDone(runs[r].status) <==> runs[r].status in {SUCCESS, FAILURE, CANCELLED, SKIPPED});
    }
  }

  /** In every state the counters of a repository are its runs and those that ended in one of four ways. */
  lemma CountersMean(s: State, p: int)
    requires Inv(s) && p in s.repos
    ensures s.repos[p].numRuns == |set r | r in s.runs && s.runs[r].repoId == p|
    ensures s.repos[p].numClosed ==
      |set r | r in s.runs && s.runs[r].repoId == p && s.runs[r].status in {SUCCESS, FAILURE, CANCELLED, SKIPPED}|
  {
    ClosedMeans(s.runs, p);
    assert s.repos[p] == Recount(s.runs, p);
  }

  /** Over any history a run keeps its start and stop times once they are set. */
  lemma RunTimesAreFinal(states: seq<State>, events: seq<Event>, times: seq<int>, i: nat, k: nat, r: int)
    requires History(states, events, times) && i <= k < |states| && r in states[i].runs
    ensures r in states[k].runs
    ensures states[i].runs[r].started != 0 ==> states[k].runs[r].started == states[i].runs[r].started
    ensures states[i].runs[r].stopped != 0 ==> states[k].runs[r].stopped == states[i].runs[r].stopped
  {
    EveryStateIsGood(states, events, times, i, k);
    assert SameRun(states[i].runs[r], states[k].runs[r]);
  }

  // ----- finished steps

  /**
   The one thing that changes the status of a finished step: a report for its task that counts, and
   either gives the step another result or, giving none, finds it started.
   */
  predicate Disturbs(s: State, e: Event, t: int, k: nat)
    requires t in s.steps && k < |s.steps[t]|
  {
    e.EvReport? && e.report.taskId == t && Accepted(s, e.runnerId, e.report)
    && var was := s.steps[t][k].status;
       if k in e.report.steps && e.report.steps[k].result != 0 then e.report.steps[k].result != was
       else StartOf(s.steps[t][k], k, e.report.steps) != 0 && was != RUNNING
  }

  /** Stopping a task, its own or another, leaves a finished step alone. */
  lemma StopKeepsStep(s: State, u: int, status: int, now: int, t: int, k: nat)
    requires Linked(s) && u in s.tasks && t in s.steps && k < |s.steps[t]| && IsDone(s.steps[t][k].status)
    ensures var s' := Stop(s, u, status, now); t in s'.steps && k < |s'.steps[t]| && s'.steps[t][k] == s.steps[t][k]
  {
    assert TaskLinked(s, u);
  }

  lemma CancelOneKeepsStep(s: State, f: Found, now: int, t: int, k: nat)
    requires Linked(s) && SeenBefore(s, f) && t in s.steps && k < |s.steps[t]| && IsDone(s.steps[t][k].status)
    ensures var s' := CancelOne(s, f, now); t in s'.steps && k < |s'.steps[t]| && s'.steps[t][k] == s.steps[t][k]
  {
    assert JobLinked(s, f.id);
    if !IsDone(f.row.status) && f.row.taskId != 0 {
      StopKeepsStep(s, f.row.taskId, CANCELLED, now, t, k);
    }
  }

  lemma {:induction false} CancelAllKeepsStep(s: State, fs: seq<Found>, now: int, t: int, k: nat)
    requires Consistent(s) && forall f :: f in fs ==> SeenBefore(s, f)
    requires t in s.steps && k < |s.steps[t]| && IsDone(s.steps[t][k].status)
    ensures var s' := CancelAll(s, fs, now); t in s'.steps && k < |s'.steps[t]| && s'.steps[t][k] == s.steps[t][k]
    decreases |fs|
  {
    if fs != [] {
      CancelTail(s, fs, now);
      CancelOneKeepsStep(s, fs[0], now, t, k);
      CancelAllKeepsStep(CancelOne(s, fs[0], now), fs[1..], now, t, k);
    }
  }

  lemma ClaimKeepsStep(s: State, runner: Runner, found: seq<Found>, now: int, t: int, k: nat)
    requires Linked(s) && (forall f :: f in found ==> SeenBefore(s, f)) && t in s.tasks
    requires t in s.steps && k < |s.steps[t]|
    ensures var s' := Claim(s, runner, found, now); t in s'.steps && k < |s'.steps[t]| && s'.steps[t][k] == s.steps[t][k]
  {
    assert TaskLinked(s, t);
    var c := Pick(runner, found);
    if c < |found| {
      assert found[c] in found && JobLinked(s, found[c].id);
    }
  }

  /** A finished step changes its status in one event exactly if that event disturbs it. */
  lemma StepChangesIff(s: State, e: Event, now: int, s': State, t: int, k: nat)
    requires Inv(s) && Enabled(s, e) && s' == Next(s, e, now)
    requires t in s.tasks && t in s.steps && k < |s.steps[t]| && IsDone(s.steps[t][k].status)
    ensures t in s'.tasks && t in s'.steps && k < |s'.steps[t]|
    ensures s'.steps[t][k].status != s.steps[t][k].status <==> Disturbs(s, e, t, k)
  {
    match e
    case EvClaim(runner, found) => ClaimKeepsStep(s, runner, found, now, t, k);
    case EvReport(runnerId, report) =>
      if Accepted(s, runnerId, report) {
        StepsAfterReport(s, runnerId, report, now);
        if report.taskId == t {
          assert StepReported(s.steps[t][k], s'.steps[t][k], k, report.steps);
        }
      } else {
        RefusedReport(s, runnerId, report, now);
      }
    case EvStop(u, status) =>
      if u in s.tasks && IsDone(status) {
        StopKeepsStep(s, u, status, now, t, k);
      }
    case EvCancel(rows) => CancelAllKeepsStep(s, rows, now, t, k);
  }

  /** Step `j` of task `t` exists and has this status. */
  predicate StepHas(s: State, t: int, j: nat, status: int) {
    t in s.tasks && t in s.steps && j < |s.steps[t]| && s.steps[t][j].status == status
  }

  lemma StepStaysOnce(states: seq<State>, events: seq<Event>, times: seq<int>, m: nat, t: int, j: nat, status: int)
    requires History(states, events, times) && m < |events|
    requires StepHas(states[m], t, j, status) && IsDone(status) && !Disturbs(states[m], events[m], t, j)
    ensures StepHas(states[m + 1], t, j, status)
  {
    HistoryStep(states, events, times, m);
    StepChangesIff(states[m], events[m], times[m], states[m + 1], t, j);
  }

  /** A finished step keeps its status over a history in which no event disturbs it. */
  lemma {:induction false} FinishedStepStays(states: seq<State>, events: seq<Event>, times: seq<int>,
                                             i: nat, k: nat, t: int, j: nat, status: int)
    requires History(states, events, times) && i <= k < |states|
    requires StepHas(states[i], t, j, status) && IsDone(status)
    requires forall m :: i <= m < k && StepHas(states[m], t, j, status) ==> !Disturbs(states[m], events[m], t, j)
    ensures StepHas(states[k], t, j, status)
    decreases k - i
  {
    if i < k {
      FinishedStepStays(states, events, times, i, k - 1, t, j, status);
      StepStaysOnce(states, events, times, k - 1, t, j, status);
    }
  }

  /**
   A report need not name a step to disturb it: one that finished and was started is set back to
   running by the next report that leaves it out.
   */
  lemma FinishedStepRunsAgain(s: State, runnerId: int, report: Report, now: int, k: nat)
    requires Linked(s) && Accepted(s, runnerId, report)
    requires report.taskId in s.steps && k < |s.steps[report.taskId]| && k !in report.steps
    requires IsDone(s.steps[report.taskId][k].status) && s.steps[report.taskId][k].started != 0
    ensures var s' := Update(s, runnerId, report, now);
      report.taskId in s'.steps && k < |s'.steps[report.taskId]|
      && s'.steps[report.taskId][k].status == RUNNING
  {
    var t := report.taskId;
    StepsAfterReport(s, runnerId, report, now);
    assert StepReported(s.steps[t][k], Update(s, runnerId, report, now).steps[t][k], k, report.steps);
  }
}
