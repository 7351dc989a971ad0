/**
 Which jobs the two concurrency cancels end, written out over the rows (models/actions/run.go:405-459,
 models/actions/run_job.go:247-281).
 */
module ActionsCancel {
  import opened ActionsStatus
  import opened ActionsModel
  import opened ActionsRuns
  import opened ActionsHistory
  import opened ActionsConcurrency

  /** Statuses a cancel looks for. */
  predicate LookedFor(status: int, cancelInProgress: bool) {
    status == WAITING || status == BLOCKED || (cancelInProgress && status == RUNNING)
  }

  /**
   The run-level cancel for a run value ends job `j`: the run has a group, and the job, or its run
   if that is another one, is in the repository and the group of the run and is waiting, blocked
   or, with cancel-in-progress, running.
   */
  predicate EndedByRun(s: State, id: int, run: Run, j: int)
    requires j in s.jobs
  {
    var job := s.jobs[j];
    run.group != ""
    && ((job.repoId == run.repoId && job.group == run.group && LookedFor(job.status, run.cancel))
        || (job.runId in s.runs && job.runId != id
            && var r := s.runs[job.runId];
               r.repoId == run.repoId && r.group == run.group && LookedFor(r.status, run.cancel)))
  }

  /** The job-level cancel for a job value: the same, but the job of that id only through its run. */
  predicate EndedByJob(s: State, id: int, own: Job, j: int)
    requires j in s.jobs
  {
    var job := s.jobs[j];
    own.rawConcurrency != "" && own.evaluated && own.group != ""
    && ((j != id && job.repoId == own.repoId && job.group == own.group && LookedFor(job.status, own.cancel))
        || (job.runId in s.runs
            && var r := s.runs[job.runId];
               r.repoId == own.repoId && r.group == own.group && LookedFor(r.status, own.cancel)))
  }

  /** These are the jobs the two calls collect. */
  lemma CollectedAreEnded(s: State, id: int, run: Run, own: Job, j: int)
    requires j in s.jobs
    ensures j in ObsoleteForRun(s, id, run) <==> EndedByRun(s, id, run, j)
    ensures j in ObsoleteForJob(s, id, own) <==> EndedByJob(s, id, own, j)
  {
    SoughtMeans(run.cancel, s.jobs[j].status);
    SoughtMeans(own.cancel, s.jobs[j].status);
    if s.jobs[j].runId in s.runs {
      SoughtMeans(run.cancel, s.runs[s.jobs[j].runId].status);
      SoughtMeans(own.cancel, s.runs[s.jobs[j].runId].status);
    }
  }

  lemma SoughtMeans(cancel: bool, status: int)
    ensures status in Sought(cancel) <==> LookedFor(status, cancel)
  {
  }

  /** An unfinished job changes exactly if the call ends it, and then it is done. */
  lemma RunCancelIff(s: State, id: int, run: Run, fs: seq<Found>, now: int, j: int)
    requires Consistent(s) && RowsOf(s, fs, ObsoleteForRun(s, id, run))
    requires j in s.jobs && !IsDone(s.jobs[j].status)
    ensures var job, s' := s.jobs[j], CancelAll(s, fs, now);
      j in s'.jobs && job.runId in s.runs
      && (s'.jobs[j] != job <==> EndedByRun(s, id, run, j)) && (IsDone(s'.jobs[j].status) <==> EndedByRun(s, id, run, j))
  {
    assert JobLinked(s, j);
    CancelEffect(s, fs, ObsoleteForRun(s, id, run), now, j);
    CollectedAreEnded(s, id, run, s.jobs[j], j);
  }

  lemma JobCancelIff(s: State, id: int, own: Job, fs: seq<Found>, now: int, j: int)
    requires Consistent(s) && RowsOf(s, fs, ObsoleteForJob(s, id, own))
    requires j in s.jobs && !IsDone(s.jobs[j].status)
    ensures var job, s' := s.jobs[j], CancelAll(s, fs, now);
      j in s'.jobs && job.runId in s.runs
      && (s'.jobs[j] != job <==> EndedByJob(s, id, own, j)) && (IsDone(s'.jobs[j].status) <==> EndedByJob(s, id, own, j))
  {
    assert JobLinked(s, j);
    CancelEffect(s, fs, ObsoleteForJob(s, id, own), now, j);
    CollectedAreEnded(s, id, s.runs[s.jobs[j].runId], own, j);
  }

  /** With cancel-in-progress a run ends the running jobs of its group, and those of the runs in it. */
  lemma RunCancelStopsRunning(s: State, id: int, run: Run, fs: seq<Found>, now: int, j: int)
    requires Consistent(s) && RowsOf(s, fs, ObsoleteForRun(s, id, run)) && run.cancel && run.group != ""
    requires j in s.jobs && s.jobs[j].status == RUNNING && s.jobs[j].runId in s.runs
    requires var r := s.runs[s.jobs[j].runId];
      (s.jobs[j].repoId == run.repoId && s.jobs[j].group == run.group)
      || (s.jobs[j].runId != id && r.status == RUNNING && r.repoId == run.repoId && r.group == run.group)
    ensures var s' := CancelAll(s, fs, now); j in s'.jobs && IsDone(s'.jobs[j].status)
    ensures var t, s' := s.jobs[j].taskId, CancelAll(s, fs, now); t != 0 ==> t in s'.tasks && IsDone(s'.tasks[t].status)
  {
    var s' := CancelAll(s, fs, now);
    RunCancelIff(s, id, run, fs, now, j);
    assert JobLinked(s, j) && SameJob(s.jobs[j], s'.jobs[j]) && JobLinked(s', j);
  }

  // ----- a running job that is stopped

  const RUNNING_JOB := Job(1, 1, 1, RUNNING, 1, 5, 0, {}, Steps(0), "", false, "", false)
  const NEW_RUN := Run(1, WAITING, 0, 0, "g", true)
  const ONE_RUNNING := State(
    map[1 := Run(1, RUNNING, 5, 0, "g", false)], map[1 := RUNNING_JOB],
    map[1 := Task(1, 1, 1, 1, RUNNING, 5, 0)], map[1 := []], map[1 := Repo(1, 0)], 2)

  lemma OneRunningIsGood()
    ensures Inv(ONE_RUNNING)
  {
    var s := ONE_RUNNING;
    assert 1 in s.jobs && s.jobs[1].status == RUNNING;
    assert StatusesOf(s.jobs, 1) == {RUNNING};
    assert RunsOf(s.runs, 1) == {1};
    assert ClosedRunsOf(s.runs, 1) == {};
    assert JobLinked(s, 1) && TaskLinked(s, 1);
  }

  /** A new run 2 with cancel-in-progress stops the running job of run 1 in its group, and its task. */
  lemma RunningJobIsStopped(now: int)
    ensures Inv(ONE_RUNNING) && RowsOf(ONE_RUNNING, [Found(1, RUNNING_JOB)], ObsoleteForRun(ONE_RUNNING, 2, NEW_RUN))
    ensures var s' := CancelAll(ONE_RUNNING, [Found(1, RUNNING_JOB)], now);
      1 in s'.jobs && s'.jobs[1].status == CANCELLED && 1 in s'.tasks && s'.tasks[1].status == CANCELLED
  {
    OneRunningIsGood();
    var fs := [Found(1, RUNNING_JOB)];
    assert fs[0] in fs && 1 in ONE_RUNNING.runs && 1 in ONE_RUNNING.jobs;
    assert ObsoleteForRun(ONE_RUNNING, 2, NEW_RUN) == {1};
    assert fs[1..] == [];
    assert CancelAll(ONE_RUNNING, fs, now) == CancelOne(ONE_RUNNING, fs[0], now);
  }
}
