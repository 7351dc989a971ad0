/**
 Nested transactions (models/db/context.go:90-173, 311-317) as a function from call trees to what
 the database holds. A tree is one run: what was written, which calls were made inside which, and
 how each call ended, so that every way a caller may treat an error is some tree.
 */
module TxModel {

  /** `WithTx(ctx, f)`, or `TxContext(ctx)` with its committer closed at the end. */
  datatype Via = WithTx | TxContext

  /**
   How a call ended. Returns: `f` gave no error, or `Commit` was called before `Close`. Fails: `f`
   gave an error, or `Close` came without `Commit`. Running: it has not ended; a tree whose last
   calls are running is a moment in the middle of a run.
   */
  datatype End = Returns | Fails | Running

  /** What the database answers when a session has to begin or commit. */
  datatype Answer = Works | BeginFails | CommitFails

  datatype Prog =
    | Done
    | Write(tag: int, next: Prog)
    | Call(via: Via, body: Prog, end: End, answer: Answer, next: Prog)

  /** What a context carries: no session, a session in a transaction, a session that was closed. */
  datatype Ctx = Outside | Open(pending: seq<int>) | Closed

  /**
   How the ORM treats a session that was closed under its users, which context.go leaves to it:
   whether it still counts as being in a transaction, and whether a write through it is kept.
   */
  datatype Orm = Orm(closedInTx: bool, closedWrites: bool)

  datatype State = State(ctx: Ctx, durable: seq<int>)

  /** `getTransactionSession`: is there a transaction to reuse? */
  predicate Reuses(orm: Orm, ctx: Ctx) {
    ctx.Open? || (ctx.Closed? && orm.closedInTx)
  }

  function WriteStep(orm: Orm, st: State, tag: int): State {
    match st.ctx
    case Open(pending) => st.(ctx := Open(pending + [tag]))
    case Closed => if orm.closedWrites then st.(durable := st.durable + [tag]) else st
    case Outside => st.(durable := st.durable + [tag])
  }

  /** Closing a session drops what it holds; closing it again does nothing. */
  function CloseStep(st: State): State {
    if st.ctx.Open? then st.(ctx := Closed) else st
  }

  function Exec(orm: Orm, p: Prog, st: State): State
    decreases p, 0
  {
    match p
    case Done => st
    case Write(tag, next) => Exec(orm, next, WriteStep(orm, st, tag))
    case Call(_, body, end, answer, next) =>
      if Reuses(orm, st.ctx) then
        var s := Exec(orm, body, st);
        Exec(orm, next, if end.Fails? then CloseStep(s) else s)
      else
        Exec(orm, next, st.(durable := OwnTx(orm, body, end, answer, st.durable)))
  }

  /** What is durable after a call that begins a transaction of its own. */
  function OwnTx(orm: Orm, body: Prog, end: End, answer: Answer, durable: seq<int>): seq<int>
    decreases body, 1
  {
    if answer.BeginFails? then durable
    else
      var s := Exec(orm, body, State(Open([]), durable));
      if end.Returns? && answer.Works? && s.ctx.Open? then s.durable + s.ctx.pending else s.durable
  }

  // ----- reading a tree without running it

  /** Every write of a run, in order. */
  function Writes(p: Prog): seq<int> {
    match p
    case Done => []
    case Write(tag, next) => [tag] + Writes(next)
    case Call(_, body, _, _, next) => Writes(body) + Writes(next)
  }

  /** No call of the run failed. */
  predicate Clean(p: Prog) {
    match p
    case Done => true
    case Write(_, next) => Clean(next)
    case Call(_, body, end, _, next) => Clean(body) && !end.Fails? && Clean(next)
  }

  /** The writes made before the first call that failed came back. */
  function Before(p: Prog): seq<int> {
    match p
    case Done => []
    case Write(tag, next) => [tag] + Before(next)
    case Call(_, body, end, _, next) =>
      if !Clean(body) then Before(body)
      else if end.Fails? then Writes(body)
      else Writes(body) + Before(next)
  }

  /** The writes made after that. */
  function After(p: Prog): seq<int> {
    match p
    case Done => []
    case Write(_, next) => After(next)
    case Call(_, body, end, _, next) =>
      if !Clean(body) then After(body) + Writes(next)
      else if end.Fails? then Writes(next)
      else After(next)
  }

  lemma {:induction false} BeforeAndAfter(p: Prog)
    ensures Before(p) + After(p) == Writes(p)
    ensures Clean(p) ==> After(p) == []
  {
    match p
    case Done =>
    case Write(tag, next) =>
      BeforeAndAfter(next);
      assert [tag] + Before(next) + After(next) == [tag] + (Before(next) + After(next));
    case Call(_, body, end, _, next) =>
      if !Clean(body) {
        BeforeAndAfter(body);
        assert Before(body) + (After(body) + Writes(next)) == (Before(body) + After(body)) + Writes(next);
      } else if !end.Fails? {
        BeforeAndAfter(next);
        assert Writes(body) + Before(next) + After(next) == Writes(body) + (Before(next) + After(next));
      }
  }

  // ----- what becomes durable

  /** While no call failed, everything is pending in the one session and nothing is durable. */
  lemma {:induction false} NothingDurableEarly(orm: Orm, p: Prog, pending: seq<int>, durable: seq<int>)
    requires Clean(p)
    ensures Exec(orm, p, State(Open(pending), durable)) == State(Open(pending + Writes(p)), durable)
  {
    match p
    case Done =>
      assert pending + [] == pending;
    case Write(tag, next) =>
      NothingDurableEarly(orm, next, pending + [tag], durable);
      assert (pending + [tag]) + Writes(next) == pending + ([tag] + Writes(next));
    case Call(_, body, end, _, next) =>
      NothingDurableEarly(orm, body, pending, durable);
      NothingDurableEarly(orm, next, pending + Writes(body), durable);
      assert (pending + Writes(body)) + Writes(next) == pending + (Writes(body) + Writes(next));
  }

  /** `now` is `was` followed by some of `writes`, none more often than it was made. */
  ghost predicate Adds(was: seq<int>, now: seq<int>, writes: seq<int>) {
    was <= now && multiset(now[|was|..]) <= multiset(writes)
  }

  lemma AddsNothing(was: seq<int>, writes: seq<int>)
    ensures Adds(was, was, writes)
  {
  }

  lemma AddsAll(was: seq<int>, writes: seq<int>)
    ensures Adds(was, was + writes, writes)
  {
    assert (was + writes)[|was|..] == writes;
  }

  lemma AddsBoth(a: seq<int>, b: seq<int>, c: seq<int>, first: seq<int>, second: seq<int>)
    requires Adds(a, b, first) && Adds(b, c, second)
    ensures Adds(a, c, first + second)
  {
    assert c[|a|..] == b[|a|..] + c[|b|..];
    assert multiset(c[|a|..]) == multiset(b[|a|..]) + multiset(c[|b|..]);
    assert multiset(first + second) == multiset(first) + multiset(second);
  }

  /** Through a context without a live transaction, only what is written from then on can be kept. */
  lemma {:induction false} OnlyLaterWrites(orm: Orm, p: Prog, st: State)
    requires !st.ctx.Open?
    ensures var s := Exec(orm, p, st); s.ctx == st.ctx && Adds(st.durable, s.durable, Writes(p))
    decreases p, 2
  {
    match p
    case Done =>
    case Write(tag, next) =>
      var s := WriteStep(orm, st, tag);
      AddsNothing(st.durable, [tag]);
      AddsAll(st.durable, [tag]);
      OnlyLaterWrites(orm, next, s);
      AddsBoth(st.durable, s.durable, Exec(orm, next, s).durable, [tag], Writes(next));
    case Call(_, body, end, answer, next) =>
      var s: State;
      if Reuses(orm, st.ctx) {
        s := Exec(orm, body, st);
        OnlyLaterWrites(orm, body, st);
      } else {
        s := st.(durable := OwnTx(orm, body, end, answer, st.durable));
        OwnTxAdds(orm, body, end, answer, st.durable);
      }
      OnlyLaterWrites(orm, next, s);
      AddsBoth(st.durable, s.durable, Exec(orm, next, s).durable, Writes(body), Writes(next));
  }

  /**
   A failed call takes down the whole transaction: the session is closed from then on, and
   whatever the callers do next, no write made before the failure becomes durable.
   */
  lemma {:induction false} FailureLosesEarlier(orm: Orm, p: Prog, pending: seq<int>, durable: seq<int>)
    requires !Clean(p)
    ensures var s := Exec(orm, p, State(Open(pending), durable));
      s.ctx == Closed && Adds(durable, s.durable, After(p))
    decreases p, 2
  {
    match p
    case Done =>
    case Write(tag, next) =>
      FailureLosesEarlier(orm, next, pending + [tag], durable);
    case Call(_, body, end, answer, next) =>
      var s := Exec(orm, body, State(Open(pending), durable));
      if !Clean(body) {
        FailureLosesEarlier(orm, body, pending, durable);
        OnlyLaterWrites(orm, next, s);
        AddsBoth(durable, s.durable, Exec(orm, next, s).durable, After(body), Writes(next));
      } else {
        NothingDurableEarly(orm, body, pending, durable);
        if end.Fails? {
          OnlyLaterWrites(orm, next, CloseStep(s));
        } else {
          FailureLosesEarlier(orm, next, pending + Writes(body), durable);
        }
      }
  }

  /** Some of the later writes of a run are some of its writes. */
  lemma AddsFewer(was: seq<int>, now: seq<int>, p: Prog)
    requires Adds(was, now, After(p))
    ensures Adds(was, now, Writes(p))
  {
    BeforeAndAfter(p);
    assert multiset(Before(p) + After(p)) == multiset(Before(p)) + multiset(After(p));
  }

  /** Without a failed call, a call with its own transaction keeps all its writes or none. */
  lemma OwnTxClean(orm: Orm, body: Prog, end: End, answer: Answer, durable: seq<int>)
    requires Clean(body)
    ensures OwnTx(orm, body, end, answer, durable)
            == if end.Returns? && answer.Works? then durable + Writes(body) else durable
  {
    NothingDurableEarly(orm, body, [], durable);
    assert [] + Writes(body) == Writes(body);
  }

  /** With one, it keeps at most writes made after the failure. */
  lemma OwnTxAdds(orm: Orm, body: Prog, end: End, answer: Answer, durable: seq<int>)
    ensures var now := OwnTx(orm, body, end, answer, durable);
      Adds(durable, now, Writes(body)) && (!Clean(body) ==> Adds(durable, now, After(body)))
    decreases body, 3
  {
    var now := OwnTx(orm, body, end, answer, durable);
    if Clean(body) {
      OwnTxClean(orm, body, end, answer, durable);
      AddsAll(durable, Writes(body));
    } else {
      AddsNothing(durable, After(body));
      FailureLosesEarlier(orm, body, [], durable);
      AddsFewer(durable, now, body);
    }
  }

  lemma AddedFrom(was: seq<int>, now: seq<int>, writes: seq<int>, tag: int)
    requires Adds(was, now, writes) && tag in now
    ensures tag in was || tag in writes
  {
    assert now == was + now[|was|..];
    if tag in now[|was|..] {
      assert tag in multiset(now[|was|..]);
      assert tag in multiset(writes);
    }
  }

  /**
   When each write has its own tag: none made before the failure is ever found in the database,
   even if the outermost call returns success.
   */
  lemma NoEarlierWriteSurvives(orm: Orm, body: Prog, end: End, answer: Answer, durable: seq<int>, tag: int)
    requires !Clean(body) && tag in Before(body) && tag !in After(body) && tag !in durable
    ensures tag !in OwnTx(orm, body, end, answer, durable)
  {
    var now := OwnTx(orm, body, end, answer, durable);
    OwnTxAdds(orm, body, end, answer, durable);
    if tag in now {
      AddedFrom(durable, now, After(body), tag);
    }
  }

  // ----- what a closed session may do

  /** With a closed session that is still "in a transaction" and loses writes, all or nothing. */
  lemma AllOrNothingIff(body: Prog, end: End, answer: Answer, durable: seq<int>)
    ensures var now := OwnTx(Orm(true, false), body, end, answer, durable);
      now == if Clean(body) && end.Returns? && answer.Works? then durable + Writes(body) else durable
  {
    if Clean(body) {
      OwnTxClean(Orm(true, false), body, end, answer, durable);
    } else {
      DeadSession(body, [], durable);
    }
  }

  lemma {:induction false} DeadClosed(p: Prog, durable: seq<int>)
    ensures Exec(Orm(true, false), p, State(Closed, durable)) == State(Closed, durable)
  {
    match p
    case Done =>
    case Write(tag, next) => DeadClosed(next, durable);
    case Call(_, body, end, _, next) =>
      DeadClosed(body, durable);
      DeadClosed(next, durable);
  }

  lemma {:induction false} DeadSession(p: Prog, pending: seq<int>, durable: seq<int>)
    requires !Clean(p)
    ensures Exec(Orm(true, false), p, State(Open(pending), durable)) == State(Closed, durable)
  {
    match p
    case Done =>
    case Write(tag, next) => DeadSession(next, pending + [tag], durable);
    case Call(_, body, end, _, next) =>
      if !Clean(body) {
        DeadSession(body, pending, durable);
        DeadClosed(next, durable);
      } else {
        NothingDurableEarly(Orm(true, false), body, pending, durable);
        if end.Fails? {
          DeadClosed(next, durable);
        } else {
          DeadSession(next, pending + Writes(body), durable);
        }
      }
  }

  /** One that keeps writes lets through exactly the writes made after the failure. */
  lemma {:induction false} LateWritesSurvive(p: Prog, pending: seq<int>, durable: seq<int>)
    requires !Clean(p)
    ensures Exec(Orm(true, true), p, State(Open(pending), durable)) == State(Closed, durable + After(p))
  {
    match p
    case Done =>
    case Write(tag, next) => LateWritesSurvive(next, pending + [tag], durable);
    case Call(_, body, end, _, next) =>
      if !Clean(body) {
        LateWritesSurvive(body, pending, durable);
        LateWritesClosed(next, durable + After(body));
        assert (durable + After(body)) + Writes(next) == durable + (After(body) + Writes(next));
      } else {
        NothingDurableEarly(Orm(true, true), body, pending, durable);
        if end.Fails? {
          LateWritesClosed(next, durable);
        } else {
          LateWritesSurvive(next, pending + Writes(body), durable);
        }
      }
  }

  lemma {:induction false} LateWritesClosed(p: Prog, durable: seq<int>)
    ensures Exec(Orm(true, true), p, State(Closed, durable)) == State(Closed, durable + Writes(p))
  {
    match p
    case Done =>
      assert durable + [] == durable;
    case Write(tag, next) =>
      LateWritesClosed(next, durable + [tag]);
      assert (durable + [tag]) + Writes(next) == durable + ([tag] + Writes(next));
    case Call(_, body, end, _, next) =>
      LateWritesClosed(body, durable);
      LateWritesClosed(next, durable + Writes(body));
      assert (durable + Writes(body)) + Writes(next) == durable + (Writes(body) + Writes(next));
  }

  /** If a closed session is no transaction, a later call begins its own, and that one is kept. */
  lemma LaterCallIsSeparate(via: Via, failed: Prog, later: Prog, answer: Answer,
                            pending: seq<int>, durable: seq<int>, closedWrites: bool)
    requires Clean(failed) && Clean(later)
    ensures Exec(Orm(false, closedWrites),
                 Call(via, failed, Fails, answer, Call(via, later, Returns, Works, Done)),
                 State(Open(pending), durable)) == State(Closed, durable + Writes(later))
  {
    var orm := Orm(false, closedWrites);
    var next := Call(via, later, Returns, Works, Done);
    NothingDurableEarly(orm, failed, pending, durable);
    OwnTxClean(orm, later, Returns, Works, durable);
    assert Exec(orm, next, State(Closed, durable)) == State(Closed, durable + Writes(later));
  }

  /**
   Whatever the ORM does, once something was written the outermost call keeps everything exactly
   when no call inside failed, it returned success, and the database did not refuse.
   */
  lemma KeepsEverythingIff(orm: Orm, body: Prog, end: End, answer: Answer, durable: seq<int>)
    requires Before(body) != []
    ensures OwnTx(orm, body, end, answer, durable) == durable + Writes(body)
            <==> Clean(body) && end.Returns? && answer.Works?
  {
    BeforeAndAfter(body);
    if Clean(body) {
      OwnTxClean(orm, body, end, answer, durable);
      assert |durable + Writes(body)| > |durable|;
    } else {
      var now := OwnTx(orm, body, end, answer, durable);
      OwnTxAdds(orm, body, end, answer, durable);
      SubsetSize(multiset(now[|durable|..]), multiset(After(body)));
      assert |now| < |durable + Writes(body)|;
    }
  }

  lemma SubsetSize(a: multiset<int>, b: multiset<int>)
    requires a <= b
    ensures |a| <= |b|
  {
    assert b == a + (b - a);
  }

  // ----- runs that begin outside a transaction

  /** Every outermost call of the run is free of failed calls inside. */
  predicate CleanCalls(p: Prog) {
    match p
    case Done => true
    case Write(_, next) => CleanCalls(next)
    case Call(_, body, _, _, next) => Clean(body) && CleanCalls(next)
  }

  /** What an outermost call should leave: all its writes if it and every call inside succeeded. */
  function KeptByCall(body: Prog, end: End, answer: Answer): seq<int> {
    if Clean(body) && end.Returns? && answer.Works? then Writes(body) else []
  }

  /** What a run outside a transaction should leave: each plain write, and what its calls leave. */
  function Kept(p: Prog): seq<int> {
    match p
    case Done => []
    case Write(tag, next) => [tag] + Kept(next)
    case Call(_, body, end, answer, next) => KeptByCall(body, end, answer) + Kept(next)
  }

  lemma OwnTxKeeps(orm: Orm, body: Prog, end: End, answer: Answer, durable: seq<int>)
    requires Clean(body) || orm == Orm(true, false)
    ensures OwnTx(orm, body, end, answer, durable) == durable + KeptByCall(body, end, answer)
  {
    assert durable + [] == durable;
    if Clean(body) {
      OwnTxClean(orm, body, end, answer, durable);
    } else {
      AllOrNothingIff(body, end, answer, durable);
    }
  }

  lemma Join(a: seq<int>, b: seq<int>, c: seq<int>)
    ensures (a + b) + c == a + (b + c)
  {
  }

  /**
   It leaves exactly that: under any ORM when no call fails inside an outermost one, and for
   every run when a closed session stays in its transaction and loses writes.
   */
  lemma {:induction false} OutsideKeeps(orm: Orm, p: Prog, durable: seq<int>)
    requires CleanCalls(p) || orm == Orm(true, false)
    ensures Exec(orm, p, State(Outside, durable)) == State(Outside, durable + Kept(p))
  {
    match p
    case Done =>
      assert durable + [] == durable;
    case Write(tag, next) =>
      OutsideKeeps(orm, next, durable + [tag]);
      Join(durable, [tag], Kept(next));
    case Call(_, body, end, answer, next) =>
      OwnTxKeeps(orm, body, end, answer, durable);
      OutsideKeeps(orm, next, durable + KeptByCall(body, end, answer));
      Join(durable, KeptByCall(body, end, answer), Kept(next));
  }
}
