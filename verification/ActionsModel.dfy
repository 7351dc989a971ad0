/**
 The rows of models/actions and what each step does to them, one row change at a time. Tables
 are maps from row id to row; ids are never reused. Each step is one database transaction.
 */
module ActionsModel {
  import opened ActionsStatus

  datatype Run = Run(repoId: int, status: int, started: int, stopped: int, group: string, cancel: bool)

  /** What parsing a job's workflow payload yields: an error, or the number of its steps. */
  datatype Payload = BadPayload | Steps(count: nat)

  datatype Job = Job(
    runId: int, repoId: int, taskId: int, status: int, attempt: int, started: int, stopped: int,
    runsOn: set<string>, payload: Payload,
    rawConcurrency: string, evaluated: bool, group: string, cancel: bool)

  datatype Task = Task(jobId: int, repoId: int, runnerId: int, attempt: int, status: int, started: int, stopped: int)

  datatype TaskStep = TaskStep(status: int, logIndex: int, logLength: int, started: int, stopped: int)

  /** The two counters kept on the repository row. */
  datatype Repo = Repo(numRuns: int, numClosed: int)

  datatype State = State(
    runs: map<int, Run>, jobs: map<int, Job>, tasks: map<int, Task>, steps: map<int, seq<TaskStep>>,
    repos: map<int, Repo>, nextTaskId: int)

  datatype Runner = Runner(id: int, labels: set<string>)

  /** A job row as some query returned it, possibly out of date by the time it is used. */
  datatype Found = Found(id: int, row: Job)

  datatype StepReport = StepReport(result: int, logIndex: int, logLength: int, started: int, stopped: int)

  /** What a runner sends; `result` 0 means the task is not finished. */
  datatype Report = Report(taskId: int, result: int, stoppedAt: int, steps: map<int, StepReport>)

  // ----- aggregates and counters

  function StatusesOf(jobs: map<int, Job>, runId: int): set<int> {
    set j | j in jobs && jobs[j].runId == runId :: jobs[j].status
  }

  function RunsOf(runs: map<int, Run>, repoId: int): set<int> {
    set r | r in runs && runs[r].repoId == repoId
  }

  function ClosedRunsOf(runs: map<int, Run>, repoId: int): set<int> {
    set r | r in runs && runs[r].repoId == repoId && IsDone(runs[r].status)
  }

  function Recount(runs: map<int, Run>, repoId: int): Repo {
    Repo(|RunsOf(runs, repoId)|, |ClosedRunsOf(runs, repoId)|)
  }

  /** A run row with a new status; start and stop times are set once. */
  function WithStatus(run: Run, status: int, now: int): Run {
    run.(status := status,
         started := if run.started == 0 && status == RUNNING then now else run.started,
         stopped := if run.stopped == 0 && IsDone(status) then now else run.stopped)
  }

  /** The run takes the aggregate of its jobs, and its repository is recounted. */
  function Refresh(s: State, runId: int, now: int): State
    requires runId in s.runs
  {
    var run := s.runs[runId];
    var runs' := s.runs[runId := WithStatus(run, Aggregate(StatusesOf(s.jobs, runId)), now)];
    s.(runs := runs', repos := s.repos[run.repoId := Recount(runs', run.repoId)])
  }

  /** A changed job row, and what follows from it for the run and the repository. */
  function PutJob(s: State, id: int, job: Job, now: int): State
    requires job.runId in s.runs
  {
    Refresh(s.(jobs := s.jobs[id := job]), job.runId, now)
  }

  // ----- what the rows satisfy

  /** Rows refer to existing rows; a job and its task refer to each other and to the same repository. */
  ghost predicate Linked(s: State) {
    && s.nextTaskId >= 1
    && (forall r :: r in s.runs ==> r > 0 && s.runs[r].repoId > 0 && s.runs[r].repoId in s.repos)
    && (forall j :: j in s.jobs ==> JobLinked(s, j))
    && (forall t :: t in s.tasks ==> TaskLinked(s, t))
  }

  ghost predicate JobLinked(s: State, j: int)
    requires j in s.jobs
  {
    var job := s.jobs[j];
    && job.runId in s.runs && s.runs[job.runId].repoId == job.repoId
    && (job.taskId != 0 ==> job.taskId in s.tasks && s.tasks[job.taskId].jobId == j)
  }

  ghost predicate TaskLinked(s: State, t: int)
    requires t in s.tasks
  {
    var task := s.tasks[t];
    && 1 <= t < s.nextTaskId && t in s.steps
    && task.jobId in s.jobs && s.jobs[task.jobId].taskId == t && s.jobs[task.jobId].repoId == task.repoId
  }

  /** A job that was given to a runner has the status of its task. */
  ghost predicate TasksAgree(s: State)
    requires Linked(s)
  {
    forall t :: t in s.tasks ==> s.jobs[s.tasks[t].jobId].status == s.tasks[t].status
  }

  ghost predicate Aggregated(s: State) {
    forall r :: r in s.runs ==> s.runs[r].status == Aggregate(StatusesOf(s.jobs, r))
  }

  ghost predicate Counted(s: State) {
    forall p :: p in s.repos ==> s.repos[p] == Recount(s.runs, p)
  }

  /** What holds even while a run is being inserted, when its status is not yet an aggregate. */
  ghost predicate Consistent(s: State) {
    Linked(s) && TasksAgree(s)
  }

  ghost predicate Inv(s: State) {
    Consistent(s) && Aggregated(s) && Counted(s)
  }

  /** `row` is what job `id` was at some earlier time: links never change once they are set. */
  ghost predicate SeenBefore(s: State, f: Found) {
    && f.id in s.jobs
    && f.row.runId == s.jobs[f.id].runId && f.row.repoId == s.jobs[f.id].repoId
    && (f.row.taskId == 0 || f.row.taskId == s.jobs[f.id].taskId)
  }

  // ----- claim

  /** The first of the found jobs whose labels the runner has. */
  function Pick(runner: Runner, found: seq<Found>): (k: nat)
    ensures k <= |found|
    ensures k < |found| ==> found[k].row.runsOn <= runner.labels
    ensures forall i :: 0 <= i < k ==> !(found[i].row.runsOn <= runner.labels)
  {
    if found == [] || found[0].row.runsOn <= runner.labels then 0 else 1 + Pick(runner, found[1..])
  }

  /** xorm writes a column of an update without a column list only when it is not zero. */
  function NonZero(old': int, new': int): int {
    if new' != 0 then new' else old'
  }

  /** The job row after a claim that read `row` and now updates `cur`. */
  function ClaimedJob(cur: Job, row: Job, taskId: int, now: int): Job {
    cur.(taskId := taskId, status := RUNNING, attempt := NonZero(cur.attempt, row.attempt + 1), started := now,
         stopped := NonZero(cur.stopped, row.stopped))
  }

  function ClaimedTask(id: int, row: Job, runner: Runner, now: int): Task {
    Task(id, row.repoId, runner.id, row.attempt + 1, RUNNING, now, 0)
  }

  function NewSteps(n: nat): seq<TaskStep> {
    seq(n, _ => TaskStep(WAITING, 0, 0, 0, 0))
  }

  /** The rows a claim inserts, before the job row is updated. */
  function WithTask(s: State, f: Found, runner: Runner, now: int): State {
    s.(nextTaskId := s.nextTaskId + 1,
       tasks := s.tasks[s.nextTaskId := ClaimedTask(f.id, f.row, runner, now)],
       steps := s.steps[s.nextTaskId := NewSteps(if f.row.payload.Steps? then f.row.payload.count else 0)])
  }

  function TakeJob(s: State, f: Found, runner: Runner, now: int): State
    requires f.id in s.jobs && s.jobs[f.id].runId in s.runs
  {
    PutJob(WithTask(s, f, runner, now), f.id, ClaimedJob(s.jobs[f.id], f.row, s.nextTaskId, now), now)
  }

  /**
   A claim: nothing happens unless a found job matches, its payload parses and it still has
   no task; then the new task, its steps and the job row appear together.
   */
  function Claim(s: State, runner: Runner, found: seq<Found>, now: int): (s': State)
    requires Linked(s) && forall f :: f in found ==> SeenBefore(s, f)
  {
    var k := Pick(runner, found);
    if k == |found| then s
    else
      var f := found[k];
      assert f in found && SeenBefore(s, f) && JobLinked(s, f.id);
      if f.row.payload.BadPayload? then s
      else
        if s.jobs[f.id].taskId != 0 then s.(nextTaskId := s.nextTaskId + 1)
        else TakeJob(s, f, runner, now)
  }

  // ----- finishing a task

  /** A task and its job get a final status together. */
  function Finish(s: State, t: int, status: int, stopped: int, now: int): State
    requires Linked(s) && t in s.tasks
  {
    var j := s.tasks[t].jobId;
    assert JobLinked(s, j) && TaskLinked(s, t);
    var job := s.jobs[j].(status := status, stopped := NonZero(s.jobs[j].stopped, stopped));
    PutJob(s.(tasks := s.tasks[t := s.tasks[t].(status := status, stopped := stopped)]), j, job, now)
  }

  function StopStep(step: TaskStep, status: int, now: int): TaskStep {
    if IsDone(step.status) then step
    else step.(status := status, started := if step.started == 0 then now else step.started, stopped := now)
  }

  function StopSteps(steps: seq<TaskStep>, status: int, now: int): (r: seq<TaskStep>)
    ensures |r| == |steps|
  {
    seq(|steps|, i requires 0 <= i < |steps| => StopStep(steps[i], status, now))
  }

  /** `StopTask` on a task that exists, with a final status. */
  function Stop(s: State, t: int, status: int, now: int): State
    requires Linked(s) && t in s.tasks
  {
    assert TaskLinked(s, t);
    if IsDone(s.tasks[t].status) then s
    else Finish(s, t, status, now, now).(steps := s.steps[t := StopSteps(s.steps[t], status, now)])
  }

  /** A step row after a report: reported columns, each written only when it is not zero. */
  function ReportStep(step: TaskStep, k: int, reports: map<int, StepReport>): TaskStep {
    var known := k in reports;
    var started := if known then reports[k].started else step.started;
    var result := if known then reports[k].result else 0;
    var status := if result != 0 then result else if started != 0 then RUNNING else step.status;
    TaskStep(NonZero(step.status, status),
             if known then NonZero(step.logIndex, reports[k].logIndex) else step.logIndex,
             if known then NonZero(step.logLength, reports[k].logLength) else step.logLength,
             NonZero(step.started, started),
             if known then NonZero(step.stopped, reports[k].stopped) else step.stopped)
  }

  function ReportSteps(steps: seq<TaskStep>, reports: map<int, StepReport>): (r: seq<TaskStep>)
    ensures |r| == |steps|
  {
    seq(|steps|, i requires 0 <= i < |steps| => ReportStep(steps[i], i, reports))
  }

  /** A runner's report on its own task; a finished task ignores it. */
  function Update(s: State, runnerId: int, report: Report, now: int): State
    requires Linked(s)
  {
    var t := report.taskId;
    if t !in s.tasks || s.tasks[t].runnerId != runnerId || IsDone(s.tasks[t].status) then s
    else
      assert TaskLinked(s, t);
      var s1 := if report.result != 0 then Finish(s, t, report.result, report.stoppedAt, now) else s;
      s1.(steps := s.steps[t := ReportSteps(s.steps[t], report.steps)])
  }

  // ----- cancel

  /** One turn of `CancelJobs`, acting on the row it was given. */
  function CancelOne(s: State, f: Found, now: int): State
    requires Linked(s) && SeenBefore(s, f)
  {
    assert JobLinked(s, f.id);
    if IsDone(f.row.status) then s
    else if f.row.taskId == 0 then
      if s.jobs[f.id].taskId != 0 then s
      else PutJob(s, f.id, s.jobs[f.id].(status := CANCELLED, stopped := now), now)
    else Stop(s, f.row.taskId, CANCELLED, now)
  }
}
