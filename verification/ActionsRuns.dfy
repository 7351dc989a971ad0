/**
 What holds in every state that claims, reports, stops and cancels can reach, in any order.
 */
module ActionsRuns {
  import opened ActionsStatus
  import opened ActionsModel

  // ----- one job row changes

  lemma StatusesElsewhere(jobs: map<int, Job>, id: int, job: Job, runId: int)
    requires id in jobs && jobs[id].runId == job.runId && runId != job.runId
    ensures StatusesOf(jobs[id := job], runId) == StatusesOf(jobs, runId)
  {
    var jobs' := jobs[id := job];
    assert forall j :: j in jobs' && jobs'[j].runId == runId ==> j in jobs && jobs'[j] == jobs[j];
    assert forall j :: j in jobs && jobs[j].runId == runId ==> j in jobs' && jobs'[j] == jobs[j];
  }

  lemma CountsElsewhere(runs: map<int, Run>, r: int, run: Run, p: int)
    requires r in runs && runs[r].repoId == run.repoId && p != run.repoId
    ensures Recount(runs[r := run], p) == Recount(runs, p)
  {
    assert RunsOf(runs[r := run], p) == RunsOf(runs, p);
    assert ClosedRunsOf(runs[r := run], p) == ClosedRunsOf(runs, p);
  }

  /** After a job row changes, every run is the aggregate of its jobs and every counter is right. */
  lemma PutJobAggregates(s: State, id: int, job: Job, now: int)
    requires Aggregated(s) && Counted(s)
    requires id in s.jobs && s.jobs[id].runId == job.runId && job.runId in s.runs
    ensures Aggregated(PutJob(s, id, job, now)) && Counted(PutJob(s, id, job, now))
  {
    var s' := PutJob(s, id, job, now);
    forall r | r in s'.runs
      ensures s'.runs[r].status == Aggregate(StatusesOf(s'.jobs, r))
    {
      if r != job.runId {
        StatusesElsewhere(s.jobs, id, job, r);
      }
    }
    var run := s.runs[job.runId];
    forall p | p in s'.repos
      ensures s'.repos[p] == Recount(s'.runs, p)
    {
      if p != run.repoId {
        CountsElsewhere(s.runs, job.runId, s'.runs[job.runId], p);
      }
    }
  }

  /** A job row that keeps its links keeps all links. */
  lemma PutJobLinked(s: State, id: int, job: Job, now: int)
    requires Linked(s) && id in s.jobs
    requires job.runId == s.jobs[id].runId && job.repoId == s.jobs[id].repoId && job.taskId == s.jobs[id].taskId
    requires job.runId in s.runs
    ensures Linked(PutJob(s, id, job, now))
  {
    var s' := PutJob(s, id, job, now);
    assert JobLinked(s, id);
    forall j | j in s'.jobs ensures JobLinked(s', j) { assert JobLinked(s, j); }
    forall t | t in s'.tasks ensures TaskLinked(s', t) { assert TaskLinked(s, t); }
  }

  lemma FinishKeepsConsistent(s: State, t: int, status: int, stopped: int, now: int)
    requires Consistent(s) && t in s.tasks
    ensures Consistent(Finish(s, t, status, stopped, now))
  {
    var j := s.tasks[t].jobId;
    assert TaskLinked(s, t) && JobLinked(s, j);
    var s1 := s.(tasks := s.tasks[t := s.tasks[t].(status := status, stopped := stopped)]);
    var job := s.jobs[j].(status := status, stopped := NonZero(s.jobs[j].stopped, stopped));
    assert Linked(s1) by {
      forall k | k in s1.jobs ensures JobLinked(s1, k) { assert JobLinked(s, k); }
      forall u | u in s1.tasks ensures TaskLinked(s1, u) { assert TaskLinked(s, u); }
    }
    PutJobLinked(s1, j, job, now);
    var s' := Finish(s, t, status, stopped, now);
    forall u | u in s'.tasks
      ensures s'.jobs[s'.tasks[u].jobId].status == s'.tasks[u].status
    {
      assert TaskLinked(s, u);
    }
  }

  lemma FinishKeepsInv(s: State, t: int, status: int, stopped: int, now: int)
    requires Inv(s) && t in s.tasks
    ensures Inv(Finish(s, t, status, stopped, now))
  {
    var j := s.tasks[t].jobId;
    assert TaskLinked(s, t) && JobLinked(s, j);
    var s1 := s.(tasks := s.tasks[t := s.tasks[t].(status := status, stopped := stopped)]);
    var job := s.jobs[j].(status := status, stopped := NonZero(s.jobs[j].stopped, stopped));
    FinishKeepsConsistent(s, t, status, stopped, now);
    PutJobAggregates(s1, j, job, now);
  }

  lemma StepsDoNotMatter(s: State, t: int, steps: seq<TaskStep>)
    requires Consistent(s) && t in s.steps
    ensures Consistent(s.(steps := s.steps[t := steps]))
    ensures Inv(s) ==> Inv(s.(steps := s.steps[t := steps]))
  {
    var s' := s.(steps := s.steps[t := steps]);
    forall j | j in s'.jobs ensures JobLinked(s', j) { assert JobLinked(s, j); }
    forall u | u in s'.tasks ensures TaskLinked(s', u) { assert TaskLinked(s, u); }
  }

  lemma StopKeepsInv(s: State, t: int, status: int, now: int)
    requires Consistent(s) && t in s.tasks
    ensures Consistent(Stop(s, t, status, now))
    ensures Inv(s) ==> Inv(Stop(s, t, status, now))
  {
    if !IsDone(s.tasks[t].status) {
      assert TaskLinked(s, t);
      FinishKeepsConsistent(s, t, status, now, now);
      if Inv(s) {
        FinishKeepsInv(s, t, status, now, now);
      }
      StepsDoNotMatter(Finish(s, t, status, now, now), t, StopSteps(s.steps[t], status, now));
    }
  }

  lemma UpdateKeepsInv(s: State, runnerId: int, report: Report, now: int)
    requires Inv(s)
    ensures Inv(Update(s, runnerId, report, now))
  {
    var t := report.taskId;
    if t in s.tasks && s.tasks[t].runnerId == runnerId && !IsDone(s.tasks[t].status) {
      assert TaskLinked(s, t);
      FinishKeepsInv(s, t, report.result, report.stoppedAt, now);
      var s1 := if report.result != 0 then Finish(s, t, report.result, report.stoppedAt, now) else s;
      StepsDoNotMatter(s1, t, ReportSteps(s.steps[t], report.steps));
    }
  }

  /** Cancelling a job that has no task. */
  lemma CancelJobKeepsConsistent(s: State, id: int, now: int)
    requires Consistent(s) && id in s.jobs && s.jobs[id].taskId == 0
    ensures s.jobs[id].runId in s.runs
    ensures Consistent(PutJob(s, id, s.jobs[id].(status := CANCELLED, stopped := now), now))
  {
    var job := s.jobs[id].(status := CANCELLED, stopped := now);
    assert JobLinked(s, id);
    PutJobLinked(s, id, job, now);
    var s' := PutJob(s, id, job, now);
    forall u | u in s'.tasks
      ensures s'.jobs[s'.tasks[u].jobId].status == s'.tasks[u].status
    {
      assert TaskLinked(s, u);
    }
  }

  lemma CancelOneKeepsInv(s: State, f: Found, now: int)
    requires Consistent(s) && SeenBefore(s, f)
    ensures Consistent(CancelOne(s, f, now))
    ensures Inv(s) ==> Inv(CancelOne(s, f, now))
  {
    assert JobLinked(s, f.id);
    if !IsDone(f.row.status) {
      if f.row.taskId != 0 {
        StopKeepsInv(s, f.row.taskId, CANCELLED, now);
      } else if s.jobs[f.id].taskId == 0 {
        CancelJobKeepsConsistent(s, f.id, now);
        if Inv(s) {
          PutJobAggregates(s, f.id, s.jobs[f.id].(status := CANCELLED, stopped := now), now);
        }
      }
    }
  }

  lemma IdsDoNotMatter(s: State)
    requires Inv(s)
    ensures Inv(s.(nextTaskId := s.nextTaskId + 1))
  {
    var s' := s.(nextTaskId := s.nextTaskId + 1);
    forall j | j in s'.jobs ensures JobLinked(s', j) { assert JobLinked(s, j); }
    forall u | u in s'.tasks ensures TaskLinked(s', u) { assert TaskLinked(s, u); }
  }

  lemma ClaimKeepsLinks(s: State, f: Found, runner: Runner, now: int)
    requires Linked(s) && SeenBefore(s, f) && s.jobs[f.id].taskId == 0
    requires s.jobs[f.id].runId in s.runs
    ensures Linked(TakeJob(s, f, runner, now))
  {
    var s' := TakeJob(s, f, runner, now);
    forall j | j in s'.jobs
      ensures JobLinked(s', j)
    {
      assert JobLinked(s, j);
    }
    forall u | u in s'.tasks
      ensures TaskLinked(s', u)
    {
      if u in s.tasks {
        assert TaskLinked(s, u);
      }
    }
  }

  lemma ClaimKeepsInv(s: State, runner: Runner, found: seq<Found>, now: int)
    requires Inv(s) && forall f :: f in found ==> SeenBefore(s, f)
    ensures Inv(Claim(s, runner, found, now))
  {
    var k := Pick(runner, found);
    if k < |found| && found[k].row.payload.Steps? {
      var f := found[k];
      assert f in found && JobLinked(s, f.id);
      IdsDoNotMatter(s);
      if s.jobs[f.id].taskId == 0 {
        ClaimKeepsLinks(s, f, runner, now);
        PutJobAggregates(WithTask(s, f, runner, now), f.id, ClaimedJob(s.jobs[f.id], f.row, s.nextTaskId, now), now);
        ClaimAgrees(s, f, runner, now);
      }
    }
  }

  lemma ClaimAgrees(s: State, f: Found, runner: Runner, now: int)
    requires Linked(s) && TasksAgree(s) && SeenBefore(s, f) && s.jobs[f.id].taskId == 0
    requires s.jobs[f.id].runId in s.runs
    requires Linked(TakeJob(s, f, runner, now))
    ensures TasksAgree(TakeJob(s, f, runner, now))
  {
    forall u | u in s.tasks
      ensures s.tasks[u].jobId != f.id && s.tasks[u].jobId in s.jobs && u != s.nextTaskId
    {
      assert TaskLinked(s, u);
    }
  }
}
