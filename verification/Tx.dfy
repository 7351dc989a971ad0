/**
 The transaction helpers of models/db/context.go:90-173 and 311-317 over sessions and committers
 that change in place, proved to do what the call-tree model says.
 */
module Tx {
  import opened TxModel

  class Database {
    var durable: seq<int>
    const orm: Orm

    constructor (orm: Orm)
      ensures this.orm == orm && durable == []
    {
      this.orm := orm;
      durable := [];
    }
  }

  /** An xorm session that has begun: it is open until it is closed. */
  class Session {
    var isOpen: bool
    var pending: seq<int>
    const db: Database

    constructor (db: Database)
      ensures this.db == db && isOpen && pending == []
    {
      this.db := db;
      isOpen := true;
      pending := [];
    }

    function Ctx(): Ctx
      reads this
    {
      if isOpen then Open(pending) else TxModel.Closed
    }

    /** Commit makes what is pending durable; a closed session has nothing to commit. */
    method Commit(answer: Answer)
      modifies this, db
      ensures isOpen == old(isOpen)
      ensures pending == if old(isOpen) && answer.Works? then [] else old(pending)
      ensures db.durable
              == if old(isOpen) && answer.Works? then old(db.durable) + old(pending) else old(db.durable)
    {
      if isOpen && answer.Works? {
        db.durable := db.durable + pending;
        pending := [];
      }
    }

    method Close()
      modifies this
      ensures !isOpen
    {
      isOpen := false;
      pending := [];
    }

    method Write(tag: int)
      modifies this, db
      ensures State(Ctx(), db.durable) == WriteStep(db.orm, old(State(Ctx(), db.durable)), tag)
    {
      if isOpen {
        pending := pending + [tag];
      } else if db.orm.closedWrites {
        db.durable := db.durable + [tag];
      }
    }
  }

  class HalfCommitter {
    const committer: Session
    var committed: bool

    constructor (committer: Session)
      ensures this.committer == committer && !committed
    {
      this.committer := committer;
      committed := false;
    }

    /** Nothing happens yet: the parent committer commits later. */
    method Commit()
      modifies this
      ensures committed
    {
      committed := true;
    }

    /** Closing without a commit rolls the parent back right now. */
    method Close()
      modifies committer
      ensures committed ==> committer.isOpen == old(committer.isOpen) && committer.pending == old(committer.pending)
      ensures !committed ==> !committer.isOpen
    {
      if committed {
        return;
      }
      committer.Close();
    }
  }

  datatype Committer = Own(session: Session) | Half(half: HalfCommitter) | NoCommitter

  function CtxOf(sess: Session?): Ctx
    reads if sess == null then {} else {sess}
  {
    if sess == null then Outside else sess.Ctx()
  }

  function Frame(sess: Session?, db: Database): set<object> {
    {db} + (if sess == null then {} else {sess})
  }

  /** The session a context carries belongs to the database. */
  predicate Fits(sess: Session?, db: Database) {
    sess != null ==> sess.db == db
  }

  method GetTransactionSession(ctx: Session?, db: Database) returns (sess: Session?)
    requires Fits(ctx, db)
    ensures sess == if Reuses(db.orm, CtxOf(ctx)) then ctx else null
  {
    if ctx != null && (ctx.isOpen || db.orm.closedInTx) {
      return ctx;
    }
    return null;
  }

  /** `TxContext`: the parent's session and a half committer, or a new session that is its own. */
  method BeginTxContext(ctx: Session?, db: Database, answer: Answer)
    returns (ok: bool, sess: Session?, committer: Committer)
    requires Fits(ctx, db)
    ensures Reuses(db.orm, CtxOf(ctx)) ==>
              ok && sess == ctx && committer.Half? && fresh(committer.half)
              && committer.half.committer == ctx && !committer.half.committed
    ensures !Reuses(db.orm, CtxOf(ctx)) ==> ok == !answer.BeginFails?
    ensures !Reuses(db.orm, CtxOf(ctx)) && ok ==>
              sess != null && fresh(sess) && sess.db == db && sess.Ctx() == Open([])
              && committer == Own(sess)
  {
    var parent := GetTransactionSession(ctx, db);
    if parent != null {
      var half := new HalfCommitter(parent);
      return true, parent, Half(half);
    }
    if answer.BeginFails? {
      return false, null, NoCommitter;
    }
    var own := new Session(db);
    return true, own, Own(own);
  }

  /** The code between `TxContext` and the deferred `Close`, with `Commit` at its end if `end` says so. */
  method RunTxContext(ctx: Session?, db: Database, body: Prog, end: End, answer: Answer)
    requires Fits(ctx, db)
    modifies Frame(ctx, db)
    ensures State(CtxOf(ctx), db.durable)
            == Exec(db.orm, Call(TxContext, body, end, answer, Done), old(State(CtxOf(ctx), db.durable)))
    decreases body, 1
  {
    var ok, sess, committer := BeginTxContext(ctx, db, answer);
    if !ok {
      return;
    }
    Run(body, sess, db);
    match committer {
      case Half(half) =>
        if end.Returns? {
          half.Commit();
        }
        if !end.Running? {
          half.Close();
        }
      case Own(own) =>
        if end.Returns? {
          own.Commit(answer);
        }
        if !end.Running? {
          own.Close();
        }
    }
  }

  /** `WithTx`: reuse the parent's session, closing it at once on an error, or run in a new one. */
  method RunWithTx(ctx: Session?, db: Database, body: Prog, end: End, answer: Answer)
    requires Fits(ctx, db)
    modifies Frame(ctx, db)
    ensures State(CtxOf(ctx), db.durable)
            == Exec(db.orm, Call(WithTx, body, end, answer, Done), old(State(CtxOf(ctx), db.durable)))
    decreases body, 2
  {
    var parent := GetTransactionSession(ctx, db);
    if parent != null {
      Run(body, parent, db);
      if end.Fails? {
        parent.Close();
      }
    } else {
      TxWithNoCheck(db, body, end, answer);
    }
  }

  /** `txWithNoCheck`: begin, run, commit unless the function failed, and close in any case. */
  method TxWithNoCheck(db: Database, body: Prog, end: End, answer: Answer)
    modifies db
    ensures db.durable == OwnTx(db.orm, body, end, answer, old(db.durable))
    decreases body, 1
  {
    if answer.BeginFails? {
      return;
    }
    var sess := new Session(db);
    Run(body, sess, db);
    if end.Returns? {
      sess.Commit(answer);
    }
    if !end.Running? {
      sess.Close();
    }
  }

  /** A run: its writes and calls in order, all through the context of the enclosing call. */
  method Run(p: Prog, ctx: Session?, db: Database)
    requires Fits(ctx, db)
    modifies Frame(ctx, db)
    ensures State(CtxOf(ctx), db.durable) == Exec(db.orm, p, old(State(CtxOf(ctx), db.durable)))
    decreases p, 0
  {
    match p {
      case Done =>
      case Write(tag, next) =>
        if ctx == null {
          db.durable := db.durable + [tag];
        } else {
          ctx.Write(tag);
        }
        Run(next, ctx, db);
      case Call(via, body, end, answer, next) =>
        if via.WithTx? {
          RunWithTx(ctx, db, body, end, answer);
        } else {
          RunTxContext(ctx, db, body, end, answer);
        }
        Run(next, ctx, db);
    }
  }
}
