/**
 Histories: claims, reports, stops and cancels in any order, each acting on rows it may have
 read at any earlier time.
 */
module ActionsHistory {
  import opened ActionsStatus
  import opened ActionsModel
  import opened ActionsRuns

  /** What no step ever undoes between an earlier and a later state. */
  ghost predicate Later(s: State, s': State) {
    && s.nextTaskId <= s'.nextTaskId
    && s'.jobs.Keys == s.jobs.Keys && s'.runs.Keys == s.runs.Keys
    && (forall j :: j in s.jobs ==> SameJob(s.jobs[j], s'.jobs[j]))
    && (forall t :: t in s.tasks ==> t in s'.tasks && SameTask(s.tasks[t], s'.tasks[t]))
    && (forall r :: r in s.runs ==> SameRun(s.runs[r], s'.runs[r]))
  }

  /** A run stays in its repository and group, and keeps its start and stop times once they are set. */
  predicate SameRun(a: Run, b: Run) {
    b.repoId == a.repoId && b.group == a.group
    && (a.started != 0 ==> b.started == a.started) && (a.stopped != 0 ==> b.stopped == a.stopped)
  }

  /** A job stays in its run and repository, and keeps its task once it has one. */
  predicate SameJob(a: Job, b: Job) {
    b.runId == a.runId && b.repoId == a.repoId && (a.taskId != 0 ==> b.taskId == a.taskId)
  }

  /** A task stays with its job and runner; once it is done nothing about it changes. */
  predicate SameTask(a: Task, b: Task) {
    && b.jobId == a.jobId && b.repoId == a.repoId && b.runnerId == a.runnerId
    && b.attempt == a.attempt && b.started == a.started
    && (IsDone(a.status) ==> b == a)
  }

  lemma LaterReflexive(s: State)
    ensures Later(s, s)
  {
  }

  lemma LaterTransitive(a: State, b: State, c: State)
    requires Later(a, b) && Later(b, c)
    ensures Later(a, c)
  {
    forall j | j in a.jobs ensures SameJob(a.jobs[j], c.jobs[j]) {
      assert SameJob(a.jobs[j], b.jobs[j]) && SameJob(b.jobs[j], c.jobs[j]);
    }
    forall t | t in a.tasks ensures t in c.tasks && SameTask(a.tasks[t], c.tasks[t]) {
      assert SameTask(a.tasks[t], b.tasks[t]) && SameTask(b.tasks[t], c.tasks[t]);
    }
  }

  /** A row read at one time may still be used at any later time. */
  lemma SeenStaysSeen(s: State, s': State, f: Found)
    requires Later(s, s') && SeenBefore(s, f)
    ensures SeenBefore(s', f)
  {
    assert SameJob(s.jobs[f.id], s'.jobs[f.id]);
  }

  // ----- each step

  lemma FinishLater(s: State, t: int, status: int, stopped: int, now: int)
    requires Consistent(s) && t in s.tasks && !IsDone(s.tasks[t].status)
    ensures Later(s, Finish(s, t, status, stopped, now))
  {
    assert TaskLinked(s, t) && JobLinked(s, s.tasks[t].jobId);
  }

  lemma StopLater(s: State, t: int, status: int, now: int)
    requires Consistent(s) && t in s.tasks
    ensures Later(s, Stop(s, t, status, now))
  {
    if !IsDone(s.tasks[t].status) {
      FinishLater(s, t, status, now, now);
    }
  }

  lemma UpdateLater(s: State, runnerId: int, report: Report, now: int)
    requires Inv(s)
    ensures Later(s, Update(s, runnerId, report, now))
  {
    var t := report.taskId;
    if t in s.tasks && !IsDone(s.tasks[t].status) && report.result != 0 {
      FinishLater(s, t, report.result, report.stoppedAt, now);
    }
    LaterReflexive(s);
  }

  lemma TakeJobLater(s: State, f: Found, runner: Runner, now: int)
    requires Inv(s) && SeenBefore(s, f) && s.jobs[f.id].taskId == 0 && s.jobs[f.id].runId in s.runs
    ensures Later(s, TakeJob(s, f, runner, now))
  {
    forall t | t in s.tasks ensures t != s.nextTaskId { assert TaskLinked(s, t); }
  }

  lemma ClaimLater(s: State, runner: Runner, found: seq<Found>, now: int)
    requires Inv(s) && forall f :: f in found ==> SeenBefore(s, f)
    ensures Later(s, Claim(s, runner, found, now))
  {
    var k := Pick(runner, found);
    if k < |found| {
      var f := found[k];
      assert f in found && JobLinked(s, f.id);
      if s.jobs[f.id].taskId == 0 {
        TakeJobLater(s, f, runner, now);
      }
    }
  }

  lemma CancelOneLater(s: State, f: Found, now: int)
    requires Consistent(s) && SeenBefore(s, f)
    ensures Later(s, CancelOne(s, f, now))
  {
    assert JobLinked(s, f.id);
    if !IsDone(f.row.status) && f.row.taskId != 0 {
      StopLater(s, f.row.taskId, CANCELLED, now);
    }
  }

  lemma CancelTail(s: State, fs: seq<Found>, now: int)
    requires Consistent(s) && fs != [] && forall f :: f in fs ==> SeenBefore(s, f)
    ensures SeenBefore(s, fs[0]) && JobLinked(s, fs[0].id)
    ensures var s1 := CancelOne(s, fs[0], now);
      Consistent(s1) && (Inv(s) ==> Inv(s1)) && Later(s, s1) && forall f :: f in fs[1..] ==> SeenBefore(s1, f)
  {
    assert fs[0] in fs && JobLinked(s, fs[0].id);
    var s1 := CancelOne(s, fs[0], now);
    CancelOneKeepsInv(s, fs[0], now);
    CancelOneLater(s, fs[0], now);
    forall f | f in fs[1..] ensures SeenBefore(s1, f) { SeenStaysSeen(s, s1, f); }
  }

  /** `CancelJobs`: one row after the other, all read beforehand. */
  ghost function CancelAll(s: State, fs: seq<Found>, now: int): (s': State)
    requires Consistent(s) && forall f :: f in fs ==> SeenBefore(s, f)
    ensures Consistent(s') && (Inv(s) ==> Inv(s')) && Later(s, s')
    decreases |fs|
  {
    if fs == [] then s
    else
      CancelTail(s, fs, now);
      var s1 := CancelOne(s, fs[0], now);
      var s' := CancelAll(s1, fs[1..], now);
      LaterTransitive(s, s1, s');
      s'
  }

  /** A turn that did not lose the race for a row that was not done reports its job. */
  predicate Hits(s: State, f: Found)
    requires f.id in s.jobs
  {
    !IsDone(f.row.status) && (f.row.taskId == 0 ==> s.jobs[f.id].taskId == 0)
  }

  /** The ids of the jobs that `CancelJobs` returns, in order. */
  ghost function Cancelled(s: State, fs: seq<Found>, now: int): seq<int>
    requires Consistent(s) && forall f :: f in fs ==> SeenBefore(s, f)
    decreases |fs|
  {
    if fs == [] then []
    else
      CancelTail(s, fs, now);
      (if Hits(s, fs[0]) then [fs[0].id] else []) + Cancelled(CancelOne(s, fs[0], now), fs[1..], now)
  }

  /** One turn of `CancelJobs`. */
  lemma CancelTurn(s: State, fs: seq<Found>, now: int)
    requires Consistent(s) && fs != [] && forall f :: f in fs ==> SeenBefore(s, f)
    ensures var s1 := CancelOne(s, fs[0], now);
      Consistent(s1) && (Inv(s) ==> Inv(s1)) && Later(s, s1) && (forall f :: f in fs[1..] ==> SeenBefore(s1, f))
      && CancelAll(s, fs, now) == CancelAll(s1, fs[1..], now)
      && Cancelled(s, fs, now) == (if Hits(s, fs[0]) then [fs[0].id] else []) + Cancelled(s1, fs[1..], now)
  {
    CancelTail(s, fs, now);
  }

  /** Every job that a cancel changes is among those it returns. */
  lemma {:induction false} ChangedAreReturned(s: State, fs: seq<Found>, now: int, j: int)
    requires Consistent(s) && (forall f :: f in fs ==> SeenBefore(s, f)) && j in s.jobs
    ensures CancelAll(s, fs, now).jobs[j] != s.jobs[j] ==> j in Cancelled(s, fs, now)
    decreases |fs|
  {
    if fs != [] {
      CancelTail(s, fs, now);
      ChangedAreReturned(CancelOne(s, fs[0], now), fs[1..], now, j);
    }
  }

  // ----- histories

  datatype Event =
    | EvClaim(runner: Runner, found: seq<Found>)
    | EvReport(runnerId: int, report: Report)
    | EvStop(task: int, status: int)
    | EvCancel(rows: seq<Found>)

  /** Rows an event acts on were read in this or an earlier state. */
  ghost predicate Enabled(s: State, e: Event) {
    match e
    case EvClaim(_, found) => forall f :: f in found ==> SeenBefore(s, f)
    case EvCancel(rows) => forall f :: f in rows ==> SeenBefore(s, f)
    case EvReport(_, _) => true
    case EvStop(_, _) => true
  }

  ghost function Next(s: State, e: Event, now: int): (s': State)
    requires Inv(s) && Enabled(s, e)
    ensures Inv(s') && Later(s, s')
  {
    match e
    case EvClaim(runner, found) =>
      ClaimKeepsInv(s, runner, found, now);
      ClaimLater(s, runner, found, now);
      Claim(s, runner, found, now)
    case EvReport(runnerId, report) =>
      UpdateKeepsInv(s, runnerId, report, now);
      UpdateLater(s, runnerId, report, now);
      Update(s, runnerId, report, now)
    case EvStop(t, status) =>
      if t in s.tasks && IsDone(status) then
        StopKeepsInv(s, t, status, now);
        StopLater(s, t, status, now);
        Stop(s, t, status, now)
      else s
    case EvCancel(rows) => CancelAll(s, rows, now)
  }

  /** The states a history passes through, the first one included. */
  ghost predicate History(states: seq<State>, events: seq<Event>, times: seq<int>) {
    && |states| == |events| + 1 && |times| == |events|
    && Inv(states[0])
    && forall i :: 0 <= i < |events| ==>
        Inv(states[i]) && Enabled(states[i], events[i]) && states[i + 1] == Next(states[i], events[i], times[i])
  }

  lemma HistoryStep(states: seq<State>, events: seq<Event>, times: seq<int>, k: nat)
    requires History(states, events, times) && k < |events|
    ensures Inv(states[k]) && Enabled(states[k], events[k])
    ensures states[k + 1] == Next(states[k], events[k], times[k])
  {
  }

  /** In every reachable state the rows agree, and nothing settled earlier has been undone. */
  lemma {:induction false} EveryStateIsGood(states: seq<State>, events: seq<Event>, times: seq<int>, i: nat, k: nat)
    requires History(states, events, times) && i <= k < |states|
    ensures Inv(states[k]) && Later(states[i], states[k])
    decreases k - i
  {
    if i < k {
      EveryStateIsGood(states, events, times, i, k - 1);
      HistoryStep(states, events, times, k - 1);
      LaterTransitive(states[i], states[k - 1], states[k]);
    } else if k > 0 {
      HistoryStep(states, events, times, k - 1);
    }
  }

  /** A job never gets two tasks, at no two times of a history. */
  lemma OneTaskPerJob(states: seq<State>, events: seq<Event>, times: seq<int>, i: nat, k: nat, t: int, u: int)
    requires History(states, events, times) && i <= k < |states|
    requires t in states[i].tasks && u in states[k].tasks
    requires states[i].tasks[t].jobId == states[k].tasks[u].jobId
    ensures t == u
  {
    EveryStateIsGood(states, events, times, i, k);
    assert SameTask(states[i].tasks[t], states[k].tasks[t]);
    assert TaskLinked(states[k], t) && TaskLinked(states[k], u);
  }

  /** A finished task keeps its row, and its job keeps the status, for ever. */
  lemma DoneIsFinal(states: seq<State>, events: seq<Event>, times: seq<int>, i: nat, k: nat, t: int)
    requires History(states, events, times) && i <= k < |states|
    requires t in states[i].tasks && IsDone(states[i].tasks[t].status)
    ensures t in states[k].tasks && states[k].tasks[t] == states[i].tasks[t]
    ensures states[i].tasks[t].jobId in states[k].jobs
    ensures states[k].jobs[states[i].tasks[t].jobId].status == states[i].tasks[t].status
  {
    EveryStateIsGood(states, events, times, i, k);
    assert SameTask(states[i].tasks[t], states[k].tasks[t]);
    assert TaskLinked(states[k], t);
  }

  /** Any row read at one time of a history may be claimed or cancelled at any later time. */
  lemma StaleRowsAreUsable(states: seq<State>, events: seq<Event>, times: seq<int>, i: nat, k: nat, j: int)
    requires History(states, events, times) && i <= k < |states| && j in states[i].jobs
    ensures SeenBefore(states[k], Found(j, states[i].jobs[j]))
  {
    EveryStateIsGood(states, events, times, i, k);
    SeenStaysSeen(states[i], states[k], Found(j, states[i].jobs[j]));
  }

  // ----- lost races

  /**
   A claim changes a row exactly when the job it picks can be parsed and still has no task; a lost
   race uses up a task id and nothing else.
   */
  lemma LostRace(s: State, runner: Runner, found: seq<Found>, now: int)
    requires Inv(s) && forall f :: f in found ==> SeenBefore(s, f)
    ensures forall k :: 0 <= k < |found| ==> found[k].id in s.jobs
    ensures Claim(s, runner, found, now).(nextTaskId := s.nextTaskId) != s <==>
      var k := Pick(runner, found);
      k < |found| && found[k].row.payload.Steps? && s.jobs[found[k].id].taskId == 0
  {
    forall k | 0 <= k < |found| ensures found[k].id in s.jobs { assert found[k] in found; }
    var k := Pick(runner, found);
    if k < |found| {
      assert JobLinked(s, found[k].id);
      forall t | t in s.tasks ensures t != s.nextTaskId { assert TaskLinked(s, t); }
      assert s.nextTaskId in WithTask(s, found[k], runner, now).tasks;
    }
  }

  /** So does a cancel: a turn that does not hit its row changes nothing. */
  lemma LostCancel(s: State, f: Found, now: int)
    requires Consistent(s) && SeenBefore(s, f) && !Hits(s, f)
    ensures CancelOne(s, f, now) == s
  {
    assert JobLinked(s, f.id);
  }

  /**
   The guard `task_id = 0` does not look at the status: a claim changes the status of a job
   that is already done exactly when it picks that job and the job never got a task.
   */
  lemma ClaimRevivesIff(s: State, runner: Runner, found: seq<Found>, now: int, j: int)
    requires Inv(s) && (forall f :: f in found ==> SeenBefore(s, f))
    requires j in s.jobs && IsDone(s.jobs[j].status)
    ensures j in Claim(s, runner, found, now).jobs
    ensures Claim(s, runner, found, now).jobs[j].status != s.jobs[j].status <==>
      var k := Pick(runner, found);
      k < |found| && found[k].id == j && found[k].row.payload.Steps? && s.jobs[j].taskId == 0
  {
    var k := Pick(runner, found);
    if k < |found| {
      assert found[k] in found && JobLinked(s, found[k].id);
    }
  }

  const WAITING_JOB := Job(1, 1, 0, WAITING, 0, 0, 0, {}, Steps(0), "", false, "", false)
  const ONE_JOB := State(
    map[1 := Run(1, WAITING, 0, 0, "", false)], map[1 := WAITING_JOB], map[], map[], map[1 := Repo(1, 0)], 1)

  lemma OneJobIsGood()
    ensures Inv(ONE_JOB)
  {
    var s := ONE_JOB;
    assert 1 in s.jobs && s.jobs[1].status == WAITING;
    assert StatusesOf(s.jobs, 1) == {WAITING};
    assert RunsOf(s.runs, 1) == {1};
    assert ClosedRunsOf(s.runs, 1) == {};
    assert JobLinked(s, 1);
  }

  /** A history in which that happens: a waiting job is cancelled, then claimed from a stale row. */
  lemma CancelledJobCanRun(runner: Runner)
    ensures Inv(ONE_JOB) && Enabled(ONE_JOB, EvCancel([Found(1, WAITING_JOB)]))
    ensures var s1 := Next(ONE_JOB, EvCancel([Found(1, WAITING_JOB)]), 1);
      s1.jobs[1].status == CANCELLED && Enabled(s1, EvClaim(runner, [Found(1, WAITING_JOB)]))
      && Next(s1, EvClaim(runner, [Found(1, WAITING_JOB)]), 2).jobs[1].status == RUNNING
  {
    OneJobIsGood();
    var f := Found(1, WAITING_JOB);
    var s1 := Next(ONE_JOB, EvCancel([f]), 1);
    assert [f][1..] == [];
    assert s1 == CancelAll(ONE_JOB, [f], 1) == CancelOne(ONE_JOB, f, 1);
    assert SeenBefore(s1, f);
    assert Pick(runner, [f]) == 0;
  }
}
