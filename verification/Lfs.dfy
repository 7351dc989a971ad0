/**
 The two batch-wise iterations of models/git/lfs.go:281-359 over a table that the callback may
 change as it goes, against a walk over the list taken at the start.
 */
module Lfs {
  import opened LfsModel

  /** What a callback leaves behind: the table, and whether it gave no error. */
  datatype After = After(table: Table, ok: bool)

  /** A walk: the table at its end, what was visited, and whether it went through. */
  datatype Walk<I> = Walk(table: Table, visited: seq<I>, ok: bool)

  /** Visit each item of a list once, up to the first error. */
  function Visit<I>(act: (Table, I) -> After, t: Table, items: seq<I>): Walk<I>
    decreases |items|
  {
    if items == [] then Walk(t, [], true)
    else
      var now := act(t, items[0]);
      if !now.ok then Walk(now.table, [items[0]], false)
      else Before([items[0]], Visit(act, now.table, items[1..]))
  }

  function Before<I>(visited: seq<I>, w: Walk<I>): Walk<I> {
    w.(visited := visited + w.visited)
  }

  lemma BeforeBoth<I>(a: seq<I>, b: seq<I>, w: Walk<I>)
    ensures Before(a, Before(b, w)) == Before(a + b, w)
  {
    assert a + (b + w.visited) == (a + b) + w.visited;
  }

  /** One callback of the inner loops. */
  lemma OneMore<I>(act: (Table, I) -> After, t: Table, ahead: seq<I>, i: nat, visited: seq<I>)
    requires i < |ahead|
    ensures ahead[i..] != [] && ahead[i..][0] == ahead[i] && ahead[i..][1..] == ahead[i + 1..]
    ensures var now := act(t, ahead[i]); var more := visited + [ahead[i]];
      Before(visited, Visit(act, t, ahead[i..]))
      == if now.ok then Before(more, Visit(act, now.table, ahead[i + 1..])) else Walk(now.table, more, false)
  {
    var now := act(t, ahead[i]);
    assert ahead[i..][1..] == ahead[i + 1..];
    BeforeBoth(visited, [ahead[i]], Visit(act, now.table, ahead[i + 1..]));
  }

  /** A walk without error has visited the whole list in its order; otherwise a prefix of it. */
  lemma {:induction false} VisitsPrefix<I>(act: (Table, I) -> After, t: Table, items: seq<I>)
    ensures var w := Visit(act, t, items); w.visited <= items && (w.ok ==> w.visited == items)
    ensures !Visit(act, t, items).ok ==> Visit(act, t, items).visited != []
    decreases |items|
  {
    if items != [] {
      assert items == [items[0]] + items[1..];
      VisitsPrefix(act, act(t, items[0]).table, items[1..]);
    }
  }

  /** The callback leaves rows of other repositories, and rows after the one it got, alone. */
  ghost predicate ConfinedToSeen(act: (Table, Object) -> After) {
    forall t, o: Object :: Good(t) ==>
      (var u := act(t, o).table;
       Good(u) && Beyond(u, o.row.repo, o.row.id) == Beyond(t, o.row.repo, o.row.id))
  }

  /** The callback leaves rows of later repositories alone. */
  ghost predicate ConfinedToSeenRepos(act: (Table, RepoCount) -> After) {
    forall t, g: RepoCount :: Above(act(t, g).table, g.repo) == Above(t, g.repo)
  }

  /** After visiting the first object, what the query answers is the rest of what it answered. */
  lemma ObjectsAfterVisit(act: (Table, Object) -> After, t: Table, q: Query)
    requires ConfinedToSeen(act) && Good(t) && Objects(t, q) != []
    ensures var o := Objects(t, q)[0]; var u := act(t, o).table;
      Good(u) && o.row.repo == q.repo && o.row.id > q.after
      && Objects(u, q.(after := o.row.id)) == Objects(t, q)[1..]
  {
    var o := Objects(t, q)[0];
    assert Select(t, q)[0] in Select(t, q);
    ObjectsNext(t, q);
    ObjectsBeyond(t, act(t, o).table, q.(after := o.row.id));
  }

  lemma GroupsAfterVisit(act: (Table, RepoCount) -> After, t: Table, after: int)
    requires ConfinedToSeenRepos(act) && Groups(t, after) != []
    ensures var g := Groups(t, after)[0];
      g.repo > after && Groups(act(t, g).table, g.repo) == Groups(t, after)[1..]
  {
    var g := Groups(t, after)[0];
    RepoIdsAre(t, after);
    assert RepoIds(t, after)[0] in RepoIds(t, after);
    GroupsNext(t, after);
    GroupsAbove(t, act(t, g).table, g.repo);
  }

  /**
   The first `i` objects have been visited, the walk is where the walk over the whole list would be,
   and the query behind the last visited object answers the rest.
   */
  ghost predicate ObjectsSeen(act: (Table, Object) -> After, t0: Table, t: Table, q: Query,
                              ahead: seq<Object>, i: nat) {
    && i <= |ahead| && Good(t)
    && Visit(act, t0, ahead) == Before(ahead[..i], Visit(act, t, ahead[i..]))
    && Objects(t, q.(after := if i == 0 then q.after else ahead[i - 1].row.id)) == ahead[i..]
  }

  lemma StartObjects(act: (Table, Object) -> After, t: Table, q: Query)
    requires Good(t)
    ensures ObjectsSeen(act, t, t, q, Objects(t, q), 0)
  {
    var ahead := Objects(t, q);
    assert ahead[0..] == ahead && ahead[..0] == [] && q.(after := q.after) == q;
    assert [] + Visit(act, t, ahead).visited == Visit(act, t, ahead).visited;
  }

  lemma NextVisit<I>(act: (Table, I) -> After, t0: Table, t: Table, ahead: seq<I>, i: nat)
    requires i < |ahead| && Visit(act, t0, ahead) == Before(ahead[..i], Visit(act, t, ahead[i..]))
    ensures var now := act(t, ahead[i]);
      Visit(act, t0, ahead) ==
      if now.ok then Before(ahead[..i + 1], Visit(act, now.table, ahead[i + 1..]))
      else Walk(now.table, ahead[..i + 1], false)
  {
    OneMore(act, t, ahead, i, ahead[..i]);
    assert ahead[..i] + [ahead[i]] == ahead[..i + 1];
  }

  lemma NextAhead(act: (Table, Object) -> After, t: Table, from: Query, q: Query, ahead: seq<Object>, i: nat)
    requires ConfinedToSeen(act) && Good(t) && i < |ahead| && Objects(t, from) == ahead[i..]
    requires q.(after := from.after) == from
    ensures var u := act(t, ahead[i]).table; Good(u) && Objects(u, q.(after := ahead[i].row.id)) == ahead[i + 1..]
  {
    assert ahead[i..][0] == ahead[i] && ahead[i..][1..] == ahead[i + 1..];
    ObjectsAfterVisit(act, t, from);
    assert from.(after := ahead[i].row.id) == q.(after := ahead[i].row.id);
  }

  lemma NextObject(act: (Table, Object) -> After, t0: Table, t: Table, q: Query, ahead: seq<Object>,
                   i: nat, o: Object)
    requires ConfinedToSeen(act) && i < |ahead| && o == ahead[i] && ObjectsSeen(act, t0, t, q, ahead, i)
    ensures var now := act(t, o);
      if now.ok then ObjectsSeen(act, t0, now.table, q, ahead, i + 1)
      else Visit(act, t0, ahead) == Walk(now.table, ahead[..i + 1], false)
  {
    var from := q.(after := if i == 0 then q.after else ahead[i - 1].row.id);
    NextVisit(act, t0, t, ahead, i);
    NextAhead(act, t, from, q, ahead, i);
  }

  lemma NoneVisited<I>(w: Walk<I>)
    ensures Before([], w) == w
  {
    assert [] + w.visited == w.visited;
  }

  /** Between batches: what was visited, and the walk over what the query behind `lastID` answers. */
  ghost predicate ObjectsLeft(act: (Table, Object) -> After, t: Table, q: Query, lastID: int,
                              visited: seq<Object>, walk: Walk<Object>) {
    Good(t) && walk == Before(visited, Visit(act, t, Objects(t, q.(after := lastID))))
  }

  lemma AllObjectsLeft(act: (Table, Object) -> After, t: Table, q: Query)
    requires Good(t)
    ensures ObjectsLeft(act, t, q, q.after, [], Visit(act, t, Objects(t, q)))
  {
    assert q.(after := q.after) == q;
    NoneVisited(Visit(act, t, Objects(t, q)));
  }

  /** A whole batch brings the walk forward; a failing one ends it. */
  lemma BatchOfObjects(act: (Table, Object) -> After, t0: Table, t: Table, q: Query, lastID: int, n: nat,
                       visited: seq<Object>, walk: Walk<Object>)
    requires ObjectsLeft(act, t0, q, lastID, visited, walk)
    requires 0 < n <= |Objects(t0, q.(after := lastID))|
    ensures var from := q.(after := lastID); var ahead := Objects(t0, from);
      (ObjectsSeen(act, t0, t, from, ahead, n) ==>
         var last := ahead[n - 1].row.id;
         ObjectsLeft(act, t, q, last, visited + ahead[..n], walk)
         && |Objects(t, q.(after := last))| < |ahead|)
      && forall batch :: Visit(act, t0, ahead) == Walk(t, batch, false) ==> walk == Walk(t, visited + batch, false)
  {
    var from := q.(after := lastID);
    var ahead := Objects(t0, from);
    if ObjectsSeen(act, t0, t, from, ahead, n) {
      BeforeBoth(visited, ahead[..n], Visit(act, t, ahead[n..]));
      assert from.(after := ahead[n - 1].row.id) == q.(after := ahead[n - 1].row.id);
    }
  }

  lemma NoObjectsLeft(act: (Table, Object) -> After, t: Table, q: Query, lastID: int,
                      visited: seq<Object>, walk: Walk<Object>)
    requires ObjectsLeft(act, t, q, lastID, visited, walk) && Objects(t, q.(after := lastID)) == []
    ensures walk == Walk(t, visited, true)
  {
    assert visited + [] == visited;
  }

  /** The same for repositories. */
  ghost predicate ReposSeen(act: (Table, RepoCount) -> After, t0: Table, t: Table, after: int,
                            ahead: seq<RepoCount>, i: nat) {
    && i <= |ahead|
    && Visit(act, t0, ahead) == Before(ahead[..i], Visit(act, t, ahead[i..]))
    && Groups(t, if i == 0 then after else ahead[i - 1].repo) == ahead[i..]
  }

  lemma StartRepos(act: (Table, RepoCount) -> After, t: Table, after: int)
    ensures ReposSeen(act, t, t, after, Groups(t, after), 0)
  {
    var ahead := Groups(t, after);
    assert ahead[0..] == ahead && ahead[..0] == [];
    assert [] + Visit(act, t, ahead).visited == Visit(act, t, ahead).visited;
  }

  lemma NextRepo(act: (Table, RepoCount) -> After, t0: Table, t: Table, after: int, ahead: seq<RepoCount>,
                 i: nat, g: RepoCount)
    requires ConfinedToSeenRepos(act) && i < |ahead| && g == ahead[i] && ReposSeen(act, t0, t, after, ahead, i)
    ensures var now := act(t, g);
      if now.ok then ReposSeen(act, t0, now.table, after, ahead, i + 1)
      else Visit(act, t0, ahead) == Walk(now.table, ahead[..i + 1], false)
  {
    NextVisit(act, t0, t, ahead, i);
    GroupsAfterVisit(act, t, if i == 0 then after else ahead[i - 1].repo);
  }

  lemma BatchOfRepos(act: (Table, RepoCount) -> After, t0: Table, t: Table, after: int, ahead: seq<RepoCount>,
                     n: nat, visited: seq<RepoCount>)
    ensures ReposSeen(act, t0, t, after, ahead, n) ==>
      n <= |ahead|
      && Before(visited, Visit(act, t0, ahead)) == Before(visited + ahead[..n], Visit(act, t, ahead[n..]))
      && (n > 0 ==> Groups(t, ahead[n - 1].repo) == ahead[n..])
  {
    if n <= |ahead| {
      BeforeBoth(visited, ahead[..n], Visit(act, t, ahead[n..]));
    }
  }

  class LfsStore {
    var table: Table

    /** `Limit(n)`: at most the first `n` answers. */
    static function Limit<I>(items: seq<I>, n: nat): (r: seq<I>)
      ensures |r| <= |items| && r == items[..|r|]
      ensures n > 0 && r == [] ==> items == []
    {
      if |items| <= n then items else items[..n]
    }

    /** The inner loop over one batch: it stops at an error, or leaves the query answering the rest. */
    method VisitObjects(q: Query, act: (Table, Object) -> After, beans: seq<Object>, ghost ahead: seq<Object>)
      returns (ok: bool, ghost visited: seq<Object>)
      requires Good(table) && ConfinedToSeen(act) && ahead == Objects(table, q) && beans <= ahead
      modifies this
      ensures if ok then visited == beans && ObjectsSeen(act, old(table), table, q, ahead, |beans|)
              else Visit(act, old(table), ahead) == Walk(table, visited, false)
    {
      ghost var t0 := table;
      StartObjects(act, table, q);
      for i := 0 to |beans|
        invariant ObjectsSeen(act, t0, table, q, ahead, i)
      {
        var bean := beans[i];
        assert bean == ahead[i];
        NextObject(act, t0, table, q, ahead, i, bean);
        var now := act(table, bean);
        table := now.table;
        if !now.ok {
          return false, ahead[..i + 1];
        }
      }
      return true, beans;
    }

    /** `IterateLFSMetaObjectsForRepo`. */
    method IterateObjects(q: Query, act: (Table, Object) -> After, batchSize: nat)
      returns (ok: bool, ghost visited: seq<Object>)
      requires q.after == 0 && batchSize > 0 && Good(table) && ConfinedToSeen(act)
      modifies this
      ensures Walk(table, visited, ok) == Visit(act, old(table), Objects(old(table), q))
    {
      visited := [];
      var lastID := 0;
      ghost var walk := Visit(act, table, Objects(table, q));
      AllObjectsLeft(act, table, q);
      while true
        invariant ObjectsLeft(act, table, q, lastID, visited, walk)
        decreases |Objects(table, q.(after := lastID))|
      {
        var from := q.(after := lastID);
        var beans := Limit(Objects(table, from), batchSize);
        if |beans| == 0 {
          NoObjectsLeft(act, table, q, lastID, visited, walk);
          return true, visited;
        }
        ghost var t0 := table;
        ghost var batch;
        ok, batch := VisitObjects(from, act, beans, Objects(table, from));
        BatchOfObjects(act, t0, table, q, lastID, |beans|, visited, walk);
        visited := visited + batch;
        if !ok {
          return;
        }
        lastID := beans[|beans| - 1].row.id;
      }
    }

    /** The inner loop over one batch of repositories. */
    method VisitRepositories(after: int, act: (Table, RepoCount) -> After, counts: seq<RepoCount>,
                             ghost ahead: seq<RepoCount>)
      returns (ok: bool, ghost visited: seq<RepoCount>)
      requires ConfinedToSeenRepos(act) && ahead == Groups(table, after) && counts <= ahead
      modifies this
      ensures if ok then visited == counts && ReposSeen(act, old(table), table, after, ahead, |counts|)
              else Visit(act, old(table), ahead) == Walk(table, visited, false)
    {
      ghost var t0 := table;
      StartRepos(act, table, after);
      for i := 0 to |counts|
        invariant ReposSeen(act, t0, table, after, ahead, i)
      {
        var count := counts[i];
        assert count == ahead[i];
        NextRepo(act, t0, table, after, ahead, i, count);
        var now := act(table, count);
        table := now.table;
        if !now.ok {
          return false, ahead[..i + 1];
        }
      }
      return true, counts;
    }

    /** `IterateRepositoryIDsWithLFSMetaObjects`. */
    method IterateRepositories(act: (Table, RepoCount) -> After, batchSize: nat)
      returns (ok: bool, ghost visited: seq<RepoCount>)
      requires batchSize > 0 && ConfinedToSeenRepos(act)
      modifies this
      ensures Walk(table, visited, ok) == Visit(act, old(table), Groups(old(table), 0))
    {
      visited := [];
      var id := 0;
      ghost var walk := Visit(act, table, Groups(table, 0));
      NoneVisited(walk);
      while true
        invariant walk == Before(visited, Visit(act, table, Groups(table, id)))
        decreases |Groups(table, id)|
      {
        var counts := Limit(Groups(table, id), batchSize);
        if |counts| == 0 {
          return true, visited;
        }
        ghost var t0, ahead := table, Groups(table, id);
        ghost var batch;
        ok, batch := VisitRepositories(id, act, counts, ahead);
        BatchOfRepos(act, t0, table, id, ahead, |counts|, visited);
        visited := visited + batch;
        if !ok {
          return;
        }
        id := counts[|counts| - 1].repo;
      }
    }
  }
}
