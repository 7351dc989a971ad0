/**
 Cancelling what a concurrency group makes obsolete (models/actions/run.go:405-459,
 models/actions/run_job.go:247-281).
 */
module ActionsConcurrency {
  import opened ActionsStatus
  import opened ActionsModel
  import opened ActionsRuns
  import opened ActionsHistory

  /** The statuses both queries look for; running ones only with cancel-in-progress. */
  function Sought(cancelInProgress: bool): set<int> {
    if cancelInProgress then {WAITING, BLOCKED, RUNNING} else {WAITING, BLOCKED}
  }

  function RunsInGroup(s: State, repoId: int, group: string, statuses: set<int>): set<int> {
    set r | r in s.runs && s.runs[r].repoId == repoId && s.runs[r].group == group && s.runs[r].status in statuses
  }

  function JobsInGroup(s: State, repoId: int, group: string, statuses: set<int>): set<int> {
    set j | j in s.jobs && s.jobs[j].repoId == repoId && s.jobs[j].group == group && s.jobs[j].status in statuses
  }

  function JobsOfRuns(s: State, runIds: set<int>): set<int> {
    set j | j in s.jobs && s.jobs[j].runId in runIds
  }

  /**
   The jobs `CancelPreviousJobsByRunConcurrency` collects for a run with this id. The run is a value:
   it may have no row yet, or a row that still has another group.
   */
  function ObsoleteForRun(s: State, id: int, run: Run): set<int> {
    if run.group == "" then {}
    else
      var sought := Sought(run.cancel);
      JobsInGroup(s, run.repoId, run.group, sought)
      + JobsOfRuns(s, RunsInGroup(s, run.repoId, run.group, sought) - {id})
  }

  /** Does a job take part in concurrency at all? */
  predicate Concurrent(job: Job) {
    job.rawConcurrency != "" && job.evaluated && job.group != ""
  }

  /** The jobs `CancelPreviousJobsByJobConcurrency` collects for a job with this id; a value, too. */
  function ObsoleteForJob(s: State, id: int, job: Job): set<int> {
    if !Concurrent(job) then {}
    else
      var sought := Sought(job.cancel);
      (JobsInGroup(s, job.repoId, job.group, sought) - {id})
      + JobsOfRuns(s, RunsInGroup(s, job.repoId, job.group, sought))
  }

  /** `fs` holds the current rows of exactly the jobs `ids`, in any order, with repeats or not. */
  ghost predicate RowsOf(s: State, fs: seq<Found>, ids: set<int>) {
    && (forall f :: f in fs ==> f.id in ids && f.id in s.jobs && f.row == s.jobs[f.id])
    && (forall j :: j in ids ==> exists f :: f in fs && f.id == j)
  }

  // ----- what cancelling a list of jobs does

  /** One turn leaves every other job, and every task of another job, alone. */
  lemma CancelOneFrame(s: State, f: Found, now: int, j: int)
    requires Consistent(s) && SeenBefore(s, f) && j in s.jobs && j != f.id
    ensures j in CancelOne(s, f, now).jobs && CancelOne(s, f, now).jobs[j] == s.jobs[j]
  {
    assert JobLinked(s, f.id);
  }

  /** A row that is current, or a job that is done: then the job is done after the turn. */
  lemma CancelOneDone(s: State, f: Found, now: int)
    requires Consistent(s) && SeenBefore(s, f) && (f.row == s.jobs[f.id] || IsDone(s.jobs[f.id].status))
    ensures f.id in CancelOne(s, f, now).jobs && IsDone(CancelOne(s, f, now).jobs[f.id].status)
  {
    assert JobLinked(s, f.id);
    if f.row.taskId != 0 {
      assert TaskLinked(s, f.row.taskId);
    }
  }

  /** The cancelled jobs are done afterwards, done jobs stay done, the others keep their rows. */
  lemma {:induction false} CancelAllEffect(s: State, fs: seq<Found>, now: int, j: int)
    requires Consistent(s) && (forall f :: f in fs ==> SeenBefore(s, f)) && j in s.jobs
    requires forall f :: f in fs && f.id == j ==> f.row == s.jobs[j] || IsDone(s.jobs[j].status)
    ensures j in CancelAll(s, fs, now).jobs
    ensures IsDone(s.jobs[j].status) || (exists f :: f in fs && f.id == j) ==>
      IsDone(CancelAll(s, fs, now).jobs[j].status)
    ensures (forall f :: f in fs ==> f.id != j) ==> CancelAll(s, fs, now).jobs[j] == s.jobs[j]
    decreases |fs|
  {
    if fs != [] {
      var s1 := CancelOne(s, fs[0], now);
      CancelOneKeepsInv(s, fs[0], now);
      CancelOneLater(s, fs[0], now);
      forall f | f in fs[1..] ensures SeenBefore(s1, f) { SeenStaysSeen(s, s1, f); }
      if fs[0].id == j {
        CancelOneDone(s, fs[0], now);
      } else {
        CancelOneFrame(s, fs[0], now, j);
      }
      CancelAllEffect(s1, fs[1..], now, j);
      assert forall f :: f in fs ==> f == fs[0] || f in fs[1..];
    }
  }

  /** Cancelling a set of jobs: exactly those jobs change, and all of them are done. */
  lemma CancelEffect(s: State, fs: seq<Found>, ids: set<int>, now: int, j: int)
    requires Consistent(s) && RowsOf(s, fs, ids) && j in s.jobs
    ensures j in CancelAll(s, fs, now).jobs
    ensures if j in ids then IsDone(CancelAll(s, fs, now).jobs[j].status)
            else CancelAll(s, fs, now).jobs[j] == s.jobs[j]
  {
    CancelAllEffect(s, fs, now, j);
  }

  // ----- running jobs

  /**
   No run whose status is waiting or blocked has a running job. It holds of aggregates, and also of
   a run that is being inserted, whose status is not yet one.
   */
  ghost predicate Quiet(s: State) {
    forall j :: j in s.jobs && s.jobs[j].status == RUNNING && s.jobs[j].runId in s.runs ==>
      s.runs[s.jobs[j].runId].status != WAITING && s.runs[s.jobs[j].runId].status != BLOCKED
  }

  /** A run whose aggregate is waiting or blocked has no running job. */
  lemma NoneRunning(s: State, j: int)
    requires Inv(s) && j in s.jobs && s.jobs[j].status == RUNNING
    ensures s.jobs[j].runId in s.runs
    ensures s.runs[s.jobs[j].runId].status == RUNNING || s.runs[s.jobs[j].runId].status == CANCELLED
  {
    assert JobLinked(s, j);
    var occurring := StatusesOf(s.jobs, s.jobs[j].runId);
    assert RUNNING in occurring;
    AggregateIsMax(occurring);
  }

  lemma AggregatesAreQuiet(s: State)
    requires Inv(s)
    ensures Quiet(s)
  {
    forall j | j in s.jobs && s.jobs[j].status == RUNNING
      ensures s.jobs[j].runId in s.runs && s.runs[s.jobs[j].runId].status != WAITING
      ensures s.runs[s.jobs[j].runId].status != BLOCKED
    {
      NoneRunning(s, j);
    }
  }

  /** Inserting the row of a run, waiting or blocked and still without jobs. */
  function InsertRun(s: State, id: int, run: Run): State {
    s.(runs := s.runs[id := run])
  }

  /** Inserting the row of one of its jobs. */
  function InsertJob(s: State, id: int, job: Job): State {
    s.(jobs := s.jobs[id := job])
  }

  /** Halfway through an insertion the rows are not aggregated, but consistent and quiet. */
  lemma InsertionIsQuiet(s: State, r: int, run: Run, j: int, job: Job)
    requires Consistent(s) && Quiet(s)
    requires r > 0 && r !in s.runs && run.repoId > 0 && run.repoId in s.repos
    requires j !in s.jobs && job.taskId == 0 && job.status != RUNNING
    requires job.runId in InsertRun(s, r, run).runs
    requires InsertRun(s, r, run).runs[job.runId].repoId == job.repoId
    ensures Consistent(InsertRun(s, r, run)) && Quiet(InsertRun(s, r, run))
    ensures var s' := InsertJob(InsertRun(s, r, run), j, job); Consistent(s') && Quiet(s')
  {
    var s1 := InsertRun(s, r, run);
    var s2 := InsertJob(s1, j, job);
    forall k | k in s.jobs ensures JobLinked(s1, k) && JobLinked(s2, k) { assert JobLinked(s, k); }
    forall t | t in s.tasks ensures TaskLinked(s1, t) && TaskLinked(s2, t) { assert TaskLinked(s, t); }
  }

  /** A changed job row keeps it so: its run becomes an aggregate. */
  lemma PutJobKeepsQuiet(s: State, id: int, job: Job, now: int)
    requires Quiet(s) && id in s.jobs && s.jobs[id].runId == job.runId && job.runId in s.runs
    ensures Quiet(PutJob(s, id, job, now))
  {
    var s' := PutJob(s, id, job, now);
    var occurring := StatusesOf(s'.jobs, job.runId);
    assert id in s'.jobs && job.status in occurring;
    AggregateIsMax(occurring);
    forall j | j in s'.jobs && s'.jobs[j].status == RUNNING && s'.jobs[j].runId == job.runId
      ensures RUNNING in occurring
    {
    }
  }

  lemma CancelOneKeepsQuiet(s: State, f: Found, now: int)
    requires Consistent(s) && Quiet(s) && SeenBefore(s, f)
    ensures Quiet(CancelOne(s, f, now))
  {
    assert JobLinked(s, f.id);
    if !IsDone(f.row.status) {
      if f.row.taskId == 0 {
        if s.jobs[f.id].taskId == 0 {
          PutJobKeepsQuiet(s, f.id, s.jobs[f.id].(status := CANCELLED, stopped := now), now);
        }
      } else if !IsDone(s.tasks[f.row.taskId].status) {
        var t := f.row.taskId;
        assert TaskLinked(s, t);
        var s1 := s.(tasks := s.tasks[t := s.tasks[t].(status := CANCELLED, stopped := now)]);
        var job := s.jobs[f.id].(status := CANCELLED, stopped := NonZero(s.jobs[f.id].stopped, now));
        PutJobKeepsQuiet(s1, f.id, job, now);
      }
    }
  }

  /** So a run may cancel as often as it inserts jobs. */
  lemma {:induction false} CancelAllKeepsQuiet(s: State, fs: seq<Found>, now: int)
    requires Consistent(s) && Quiet(s) && forall f :: f in fs ==> SeenBefore(s, f)
    ensures Quiet(CancelAll(s, fs, now))
    decreases |fs|
  {
    if fs != [] {
      CancelTail(s, fs, now);
      CancelOneKeepsQuiet(s, fs[0], now);
      CancelAllKeepsQuiet(CancelOne(s, fs[0], now), fs[1..], now);
    }
  }

  /** Without cancel-in-progress no collected job is running. */
  lemma ObsoleteForRunNotRunning(s: State, id: int, run: Run)
    requires Consistent(s) && Quiet(s) && !run.cancel
    ensures forall j :: j in ObsoleteForRun(s, id, run) ==> j in s.jobs && s.jobs[j].status != RUNNING
  {
  }

  lemma ObsoleteForJobNotRunning(s: State, id: int, job: Job)
    requires Consistent(s) && Quiet(s) && !job.cancel
    ensures forall j :: j in ObsoleteForJob(s, id, job) ==> j in s.jobs && s.jobs[j].status != RUNNING
  {
  }

  /** The running job kept its row, and its task, if it has one, is running too. */
  predicate StillRunning(s: State, s': State, j: int)
    requires j in s.jobs
  {
    && j in s'.jobs && s'.jobs[j] == s.jobs[j]
    && (s.jobs[j].taskId != 0 ==> s.jobs[j].taskId in s'.tasks && s'.tasks[s.jobs[j].taskId].status == RUNNING)
  }

  /** Without cancel-in-progress, starting a run never stops a running job or its task. */
  lemma RunCancelSparesRunning(s: State, id: int, run: Run, fs: seq<Found>, now: int, j: int)
    requires Consistent(s) && Quiet(s) && !run.cancel
    requires RowsOf(s, fs, ObsoleteForRun(s, id, run))
    requires j in s.jobs && s.jobs[j].status == RUNNING
    ensures StillRunning(s, CancelAll(s, fs, now), j)
  {
    ObsoleteForRunNotRunning(s, id, run);
    CancelEffect(s, fs, ObsoleteForRun(s, id, run), now, j);
    assert JobLinked(CancelAll(s, fs, now), j);
  }

  /** The same when a job starts. */
  lemma JobCancelSparesRunning(s: State, id: int, job: Job, fs: seq<Found>, now: int, j: int)
    requires Consistent(s) && Quiet(s) && !job.cancel
    requires RowsOf(s, fs, ObsoleteForJob(s, id, job))
    requires j in s.jobs && s.jobs[j].status == RUNNING
    ensures StillRunning(s, CancelAll(s, fs, now), j)
  {
    ObsoleteForJobNotRunning(s, id, job);
    CancelEffect(s, fs, ObsoleteForJob(s, id, job), now, j);
    assert JobLinked(CancelAll(s, fs, now), j);
  }

  /** After the run-level call every job of every other run it found is done, and so is every found job. */
  lemma RunCancelFinishesOthers(s: State, id: int, run: Run, fs: seq<Found>, now: int, j: int)
    requires Consistent(s) && run.group != ""
    requires RowsOf(s, fs, ObsoleteForRun(s, id, run))
    requires j in s.jobs
    requires s.jobs[j].runId in RunsInGroup(s, run.repoId, run.group, Sought(run.cancel)) - {id}
             || j in JobsInGroup(s, run.repoId, run.group, Sought(run.cancel))
    ensures j in CancelAll(s, fs, now).jobs && IsDone(CancelAll(s, fs, now).jobs[j].status)
  {
    CancelEffect(s, fs, ObsoleteForRun(s, id, run), now, j);
  }

  /**
   The job-level call leaves its own job out of the jobs it found but not out of the runs: a job
   that has a row is cancelled by its own call exactly when its own run is among the runs found.
   */
  lemma JobCancelHitsItselfIff(s: State, k: int, job: Job, fs: seq<Found>, now: int)
    requires Consistent(s) && k in s.jobs && !IsDone(s.jobs[k].status)
    requires RowsOf(s, fs, ObsoleteForJob(s, k, job))
    ensures k in CancelAll(s, fs, now).jobs
    ensures IsDone(CancelAll(s, fs, now).jobs[k].status) <==>
            Concurrent(job) && s.jobs[k].runId in RunsInGroup(s, job.repoId, job.group, Sought(job.cancel))
  {
    CancelEffect(s, fs, ObsoleteForJob(s, k, job), now, k);
  }

  /**
   A job without a row cannot be hit, but its siblings can, the jobs of its run that have rows
   already: exactly those that are in the group, or all if the run is among the runs found.
   */
  lemma NewJobHitsSiblingsIff(s: State, id: int, job: Job, fs: seq<Found>, now: int, j: int)
    requires Consistent(s) && id !in s.jobs
    requires RowsOf(s, fs, ObsoleteForJob(s, id, job))
    requires j in s.jobs && s.jobs[j].runId == job.runId && !IsDone(s.jobs[j].status)
    ensures id !in CancelAll(s, fs, now).jobs && j in CancelAll(s, fs, now).jobs
    ensures IsDone(CancelAll(s, fs, now).jobs[j].status) <==>
            Concurrent(job)
            && (job.runId in RunsInGroup(s, job.repoId, job.group, Sought(job.cancel))
                || j in JobsInGroup(s, job.repoId, job.group, Sought(job.cancel)))
  {
    CancelEffect(s, fs, ObsoleteForJob(s, id, job), now, j);
  }

  // ----- a job that cancels itself

  const OWN_JOB := Job(1, 1, 0, BLOCKED, 0, 0, 0, {}, Steps(0), "group: g", true, "g", false)
  const OWN_RUN := State(
    map[1 := Run(1, BLOCKED, 0, 0, "g", false)], map[1 := OWN_JOB], map[], map[], map[1 := Repo(1, 0)], 1)

  lemma OwnRunIsGood()
    ensures Inv(OWN_RUN)
  {
    var s := OWN_RUN;
    assert 1 in s.jobs && s.jobs[1].status == BLOCKED;
    assert StatusesOf(s.jobs, 1) == {BLOCKED};
    assert RunsOf(s.runs, 1) == {1};
    assert ClosedRunsOf(s.runs, 1) == {};
    assert JobLinked(s, 1);
  }

  /** A blocked run and its only job share a group; preparing the job to start cancels it. */
  lemma JobCancelsItself(now: int)
    ensures Inv(OWN_RUN) && RowsOf(OWN_RUN, [Found(1, OWN_JOB)], ObsoleteForJob(OWN_RUN, 1, OWN_JOB))
    ensures CancelAll(OWN_RUN, [Found(1, OWN_JOB)], now).jobs[1].status == CANCELLED
  {
    OwnRunIsGood();
    var fs := [Found(1, OWN_JOB)];
    assert 1 in OWN_RUN.runs && 1 in OWN_RUN.jobs && fs[0] in fs;
    assert ObsoleteForJob(OWN_RUN, 1, OWN_JOB) == {1};
    assert fs[1..] == [];
    assert CancelAll(OWN_RUN, fs, now) == CancelOne(OWN_RUN, fs[0], now);
  }
}
