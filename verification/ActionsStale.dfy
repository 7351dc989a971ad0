/**
 Concurrency cancels in which other steps come between collecting the jobs and cancelling them: with
 cancel-in-progress off they still stop no running job.
 */
module ActionsStale {
  import opened ActionsStatus
  import opened ActionsModel
  import opened ActionsRuns
  import opened ActionsHistory
  import opened ActionsConcurrency

  /** Running needs a task, and a task is running or done. */
  ghost predicate Started(s: State) {
    && (forall j :: j in s.jobs && s.jobs[j].status == RUNNING ==> s.jobs[j].taskId != 0)
    && (forall t :: t in s.tasks ==> s.tasks[t].status == RUNNING || IsDone(s.tasks[t].status))
  }

  /** A report names one of the results the protocol has: none, or one of the four final ones. */
  predicate Named(e: Event) {
    e.EvReport? ==> e.report.result == 0 || IsDone(e.report.result)
  }

  // ----- every step keeps it

  lemma FinishKeepsStarted(s: State, t: int, status: int, stopped: int, now: int)
    requires Consistent(s) && Started(s) && t in s.tasks && IsDone(status)
    ensures Started(Finish(s, t, status, stopped, now))
  {
    assert TaskLinked(s, t) && JobLinked(s, s.tasks[t].jobId);
  }

  lemma StopKeepsStarted(s: State, t: int, status: int, now: int)
    requires Consistent(s) && Started(s) && t in s.tasks && IsDone(status)
    ensures Started(Stop(s, t, status, now))
  {
    if !IsDone(s.tasks[t].status) {
      FinishKeepsStarted(s, t, status, now, now);
    }
  }

  lemma CancelOneKeepsStarted(s: State, f: Found, now: int)
    requires Consistent(s) && Started(s) && SeenBefore(s, f)
    ensures Started(CancelOne(s, f, now))
  {
    assert JobLinked(s, f.id);
    if !IsDone(f.row.status) && f.row.taskId != 0 {
      StopKeepsStarted(s, f.row.taskId, CANCELLED, now);
    }
  }

  lemma {:induction false} CancelAllKeepsStarted(s: State, fs: seq<Found>, now: int)
    requires Consistent(s) && Started(s) && forall f :: f in fs ==> SeenBefore(s, f)
    ensures Started(CancelAll(s, fs, now))
    decreases |fs|
  {
    if fs != [] {
      CancelTail(s, fs, now);
      CancelOneKeepsStarted(s, fs[0], now);
      CancelAllKeepsStarted(CancelOne(s, fs[0], now), fs[1..], now);
    }
  }

  lemma UpdateKeepsStarted(s: State, runnerId: int, report: Report, now: int)
    requires Consistent(s) && Started(s) && (report.result == 0 || IsDone(report.result))
    ensures Started(Update(s, runnerId, report, now))
  {
    var t := report.taskId;
    if t in s.tasks && report.result != 0 {
      FinishKeepsStarted(s, t, report.result, report.stoppedAt, now);
    }
  }

  lemma ClaimKeepsStarted(s: State, runner: Runner, found: seq<Found>, now: int)
    requires Consistent(s) && Started(s) && forall f :: f in found ==> SeenBefore(s, f)
    ensures Started(Claim(s, runner, found, now))
  {
    var k := Pick(runner, found);
    if k < |found| {
      assert found[k] in found && JobLinked(s, found[k].id);
    }
  }

  lemma NextKeepsStarted(s: State, e: Event, now: int, s': State)
    requires Inv(s) && Enabled(s, e) && Named(e) && Started(s) && s' == Next(s, e, now)
    ensures Started(s')
  {
    match e
    case EvClaim(runner, found) => ClaimKeepsStarted(s, runner, found, now);
    case EvReport(runnerId, report) => UpdateKeepsStarted(s, runnerId, report, now);
    case EvStop(t, status) =>
      if t in s.tasks && IsDone(status) {
        StopKeepsStarted(s, t, status, now);
      }
    case EvCancel(rows) => CancelAllKeepsStarted(s, rows, now);
  }

  lemma StepKeepsStarted(states: seq<State>, events: seq<Event>, times: seq<int>, k: nat)
    requires History(states, events, times) && k < |events|
    requires Started(states[k]) && Named(events[k])
    ensures Started(states[k + 1])
  {
    HistoryStep(states, events, times, k);
    NextKeepsStarted(states[k], events[k], times[k], states[k + 1]);
  }

  lemma {:induction false} EveryStateIsStarted(states: seq<State>, events: seq<Event>, times: seq<int>, k: nat)
    requires History(states, events, times) && k < |states|
    requires Started(states[0]) && forall e :: e in events ==> Named(e)
    ensures Started(states[k])
  {
    if k > 0 {
      EveryStateIsStarted(states, events, times, k - 1);
      StepKeepsStarted(states, events, times, k - 1);
    }
  }

  // ----- cancelling rows that are out of date

  /** A row that was waiting, blocked or done when it was read, and was taken only if it was done. */
  predicate Harmless(f: Found) {
    f.row.taskId != 0 ==> IsDone(f.row.status)
  }

  /** Cancelling harmless rows, however old, stops no running job. */
  lemma {:induction false} HarmlessSpareRunning(s: State, fs: seq<Found>, now: int, j: int)
    requires Consistent(s) && Started(s) && forall f :: f in fs ==> SeenBefore(s, f) && Harmless(f)
    requires j in s.jobs && s.jobs[j].status == RUNNING
    ensures j in CancelAll(s, fs, now).jobs && CancelAll(s, fs, now).jobs[j] == s.jobs[j]
    decreases |fs|
  {
    if fs != [] {
      var s1 := CancelOne(s, fs[0], now);
      CancelTail(s, fs, now);
      CancelOneKeepsStarted(s, fs[0], now);
      assert fs[0] in fs;
      HarmlessSpareRunning(s1, fs[1..], now, j);
    }
  }

  /** What either query collects without cancel-in-progress is harmless. */
  lemma CollectedAreHarmless(s: State, fs: seq<Found>, ids: set<int>)
    requires Consistent(s) && Started(s) && RowsOf(s, fs, ids)
    requires forall j :: j in ids ==> j in s.jobs && s.jobs[j].status != RUNNING
    ensures forall f :: f in fs ==> Harmless(f)
  {
    forall f | f in fs ensures Harmless(f) {
      assert JobLinked(s, f.id);
      if f.row.taskId != 0 {
        assert TaskLinked(s, f.row.taskId);
      }
    }
  }

  /** The states of a history between a query and the cancel of what it returned. */
  lemma LateCancel(states: seq<State>, events: seq<Event>, times: seq<int>, i: nat, k: nat,
                   fs: seq<Found>, ids: set<int>, now: int, j: int)
    requires History(states, events, times) && i <= k < |states|
    requires Started(states[0]) && forall e :: e in events ==> Named(e)
    requires RowsOf(states[i], fs, ids)
    requires forall j :: j in ids ==> j in states[i].jobs && states[i].jobs[j].status != RUNNING
    requires j in states[k].jobs && states[k].jobs[j].status == RUNNING
    ensures Consistent(states[k]) && forall f :: f in fs ==> SeenBefore(states[k], f)
    ensures StillRunning(states[k], CancelAll(states[k], fs, now), j)
  {
    EveryStateIsGood(states, events, times, i, k);
    EveryStateIsGood(states, events, times, i, i);
    EveryStateIsStarted(states, events, times, i);
    EveryStateIsStarted(states, events, times, k);
    CollectedAreHarmless(states[i], fs, ids);
    forall f | f in fs ensures SeenBefore(states[k], f) {
      SeenStaysSeen(states[i], states[k], f);
    }
    HarmlessSpareRunning(states[k], fs, now, j);
    assert JobLinked(CancelAll(states[k], fs, now), j);
  }

  /** Jobs collected for a run at one time and cancelled at any later time: no running job stops. */
  lemma LateRunCancelSparesRunning(states: seq<State>, events: seq<Event>, times: seq<int>, i: nat, k: nat,
                                   id: int, run: Run, fs: seq<Found>, now: int, j: int)
    requires History(states, events, times) && i <= k < |states|
    requires Started(states[0]) && forall e :: e in events ==> Named(e)
    requires !run.cancel && RowsOf(states[i], fs, ObsoleteForRun(states[i], id, run))
    requires j in states[k].jobs && states[k].jobs[j].status == RUNNING
    ensures Consistent(states[k]) && forall f :: f in fs ==> SeenBefore(states[k], f)
    ensures StillRunning(states[k], CancelAll(states[k], fs, now), j)
  {
    EveryStateIsGood(states, events, times, i, i);
    AggregatesAreQuiet(states[i]);
    ObsoleteForRunNotRunning(states[i], id, run);
    LateCancel(states, events, times, i, k, fs, ObsoleteForRun(states[i], id, run), now, j);
  }

  /** The same for jobs collected for a job. */
  lemma LateJobCancelSparesRunning(states: seq<State>, events: seq<Event>, times: seq<int>, i: nat, k: nat,
                                   id: int, job: Job, fs: seq<Found>, now: int, j: int)
    requires History(states, events, times) && i <= k < |states|
    requires Started(states[0]) && forall e :: e in events ==> Named(e)
    requires !job.cancel && RowsOf(states[i], fs, ObsoleteForJob(states[i], id, job))
    requires j in states[k].jobs && states[k].jobs[j].status == RUNNING
    ensures Consistent(states[k]) && forall f :: f in fs ==> SeenBefore(states[k], f)
    ensures StillRunning(states[k], CancelAll(states[k], fs, now), j)
  {
    EveryStateIsGood(states, events, times, i, i);
    AggregatesAreQuiet(states[i]);
    ObsoleteForJobNotRunning(states[i], id, job);
    LateCancel(states, events, times, i, k, fs, ObsoleteForJob(states[i], id, job), now, j);
  }
}
