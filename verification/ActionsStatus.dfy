/**
 Statuses of runs, jobs, tasks and steps (models/actions/status.go), and the status of a run as
 an aggregate of its jobs (models/actions/run_job.go:214-245). A status is an int, as in the
 source: a runner may report a number that has no name.
 */
module ActionsStatus {

  const UNKNOWN := 0
  const SUCCESS := 1
  const FAILURE := 2
  const CANCELLED := 3
  const SKIPPED := 4
  const WAITING := 5
  const RUNNING := 6
  const BLOCKED := 7

  predicate IsDone(s: int) {
    s == SUCCESS || s == FAILURE || s == CANCELLED || s == SKIPPED
  }

  /** The aggregate of the statuses that occur among a run's jobs. */
  function Aggregate(occurring: set<int>): int {
    if occurring == {} then UNKNOWN
    else if occurring <= {SKIPPED} then SKIPPED
    else if occurring <= {SUCCESS, SKIPPED} then SUCCESS
    else if CANCELLED in occurring then CANCELLED
    else if RUNNING in occurring then RUNNING
    else if WAITING in occurring then WAITING
    else if FAILURE in occurring then FAILURE
    else if BLOCKED in occurring then BLOCKED
    else UNKNOWN
  }

  /** The order behind the aggregate; a number without a name counts as unknown. */
  function Rank(s: int): int {
    if s == SKIPPED then 0
    else if s == SUCCESS then 1
    else if s == BLOCKED then 3
    else if s == FAILURE then 4
    else if s == WAITING then 5
    else if s == RUNNING then 6
    else if s == CANCELLED then 7
    else 2
  }

  lemma Outside(a: set<int>, b: set<int>)
    ensures a <= b || exists s :: s in a && s !in b
  {
    if forall s :: s in a ==> s in b {
      assert a <= b;
    }
  }

  /** The aggregate is the maximum under that order, whatever order the jobs come in. */
  lemma AggregateIsMax(occurring: set<int>)
    requires occurring != {}
    ensures exists s :: s in occurring && Rank(s) == Rank(Aggregate(occurring))
    ensures forall s :: s in occurring ==> Rank(s) <= Rank(Aggregate(occurring))
    ensures UNKNOWN <= Aggregate(occurring) <= BLOCKED
  {
    var a := Aggregate(occurring);
    if a != UNKNOWN {
      assert a in occurring;
    } else {
      Outside(occurring, {SUCCESS, SKIPPED});
      var s :| s in occurring && s !in {SUCCESS, SKIPPED};
      assert Rank(s) == 2;
    }
  }

  lemma RankInjective(a: int, b: int)
    requires UNKNOWN <= a <= BLOCKED && UNKNOWN <= b <= BLOCKED && Rank(a) == Rank(b)
    ensures a == b
  {
  }

  /** The statuses by their numbers, from the weakest to the strongest in an aggregate. */
  const ORDER: seq<int> := [4, 1, 0, 7, 2, 5, 6, 3]

  /** Of numbers that name statuses, the aggregate is the one that comes last in the table. */
  lemma AggregateIsLast(occurring: set<int>, i: nat)
    requires i < 8 && ORDER[i] in occurring && forall s :: s in occurring ==> 0 <= s <= 7
    requires forall k :: i < k < 8 ==> ORDER[k] !in occurring
    ensures Aggregate(occurring) == ORDER[i]
  {
    assert forall s :: 0 <= s <= 7 ==> ORDER[Rank(s)] == s;
    AggregateIsMax(occurring);
    var a := Aggregate(occurring);
    assert Rank(ORDER[i]) == i;
    forall s | s in occurring ensures Rank(s) <= i {
      assert ORDER[Rank(s)] == s;
    }
    RankInjective(a, ORDER[i]);
  }

  /** Four of the eight numbers are final: success, failure, cancelled and skipped. */
  lemma DoneNumbers(s: int)
    ensures IsDone(s) <==> 1 <= s <= 4
  {
  }

  /** Aggregating the aggregates of two groups of jobs aggregates all of them. */
  lemma AggregateComposes(a: set<int>, b: set<int>)
    requires a != {} && b != {}
    ensures Aggregate(a + b) == Aggregate({Aggregate(a), Aggregate(b)})
  {
    AggregateIsMax(a);
    AggregateIsMax(b);
    AggregateIsMax(a + b);
    AggregateIsMax({Aggregate(a), Aggregate(b)});
    var s :| s in a && Rank(s) == Rank(Aggregate(a));
    var t :| t in b && Rank(t) == Rank(Aggregate(b));
    assert s in a + b && t in a + b;
    assert Rank(Aggregate(a)) <= Rank(Aggregate({Aggregate(a), Aggregate(b)}));
    assert Rank(Aggregate(b)) <= Rank(Aggregate({Aggregate(a), Aggregate(b)}));
    RankInjective(Aggregate(a + b), Aggregate({Aggregate(a), Aggregate(b)}));
  }
}
