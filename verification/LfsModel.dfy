/**
 The LFS table and what its two iterations should visit (models/git/lfs.go:281-359): lists taken
 from the table as it is at the start, in ascending order of their key.
 */
module LfsModel {

  datatype Row = Row(id: int, repo: int, oid: string, created: int, updated: int)

  /** Rows in the order of their primary key. */
  type Table = seq<Row>

  ghost predicate Sorted(t: Table) {
    forall i, j :: 0 <= i < j < |t| ==> t[i].id < t[j].id
  }

  /** One row per object and repository (the table's unique key). */
  ghost predicate Good(t: Table) {
    Sorted(t) && forall a, b :: a in t && b in t && a.repo == b.repo && a.oid == b.oid ==> a == b
  }

  lemma {:induction false} SortedFirst(t: Table)
    requires Sorted(t) && t != []
    ensures Sorted(t[1..]) && forall r :: r in t[1..] ==> t[0].id < r.id
  {
  }

  // ----- objects of a repository

  /** The conditions of `IterateLFSMetaObjectsForRepo`; a time of 0 is no condition. */
  datatype Query = Query(repo: int, olderThan: int, updatedBefore: int, after: int)

  predicate Selects(q: Query, r: Row) {
    && r.repo == q.repo
    && (q.olderThan != 0 ==> r.created < q.olderThan)
    && (q.updatedBefore != 0 ==> r.updated < q.updatedBefore)
    && r.id > q.after
  }

  function Select(t: Table, q: Query): (s: seq<Row>)
    ensures forall r :: r in s <==> r in t && Selects(q, r)
  {
    if t == [] then []
    else if Selects(q, t[0]) then [t[0]] + Select(t[1..], q)
    else Select(t[1..], q)
  }

  /** How many rows of any repository hold this object. */
  function Holders(t: Table, oid: string): nat {
    if t == [] then 0 else (if t[0].oid == oid then 1 else 0) + Holders(t[1..], oid)
  }

  datatype Object = Object(row: Row, count: nat)

  function WithCounts(t: Table, rows: seq<Row>): (s: seq<Object>)
    ensures |s| == |rows|
    ensures forall i :: 0 <= i < |s| ==> s[i] == Object(rows[i], Holders(t, rows[i].oid))
  {
    if rows == [] then [] else [Object(rows[0], Holders(t, rows[0].oid))] + WithCounts(t, rows[1..])
  }

  /** What the query answers without its limit. */
  function Objects(t: Table, q: Query): seq<Object> {
    WithCounts(t, Select(t, q))
  }

  /** The rows a callback for a row `id` of `repo` must leave alone: later ones and other repositories'. */
  function Beyond(t: Table, repo: int, id: int): seq<Row> {
    if t == [] then []
    else if t[0].repo != repo || t[0].id > id then [t[0]] + Beyond(t[1..], repo, id)
    else Beyond(t[1..], repo, id)
  }

  lemma {:induction false} SelectBeyond(t: Table, q: Query)
    ensures Select(Beyond(t, q.repo, q.after), q) == Select(t, q)
  {
    if t != [] {
      var rest := Beyond(t[1..], q.repo, q.after);
      SelectBeyond(t[1..], q);
      if t[0].repo != q.repo || t[0].id > q.after {
        assert ([t[0]] + rest)[1..] == rest;
      }
    }
  }

  lemma {:induction false} HoldersBeyond(t: Table, repo: int, id: int, oid: string)
    requires forall r :: r in t && r.repo == repo && r.id <= id ==> r.oid != oid
    ensures Holders(Beyond(t, repo, id), oid) == Holders(t, oid)
  {
    if t != [] {
      var rest := Beyond(t[1..], repo, id);
      HoldersBeyond(t[1..], repo, id, oid);
      if t[0].repo != repo || t[0].id > id {
        assert ([t[0]] + rest)[1..] == rest;
      }
    }
  }

  /** A row of the repository further on shares its object with no row of it up to `id`. */
  lemma HoldersOfLater(t: Table, repo: int, id: int, r: Row)
    requires Good(t) && r in t && r.repo == repo && r.id > id
    ensures Holders(Beyond(t, repo, id), r.oid) == Holders(t, r.oid)
  {
    HoldersBeyond(t, repo, id, r.oid);
  }

  /** What lies ahead, counts included, depends only on the rows beyond. */
  lemma ObjectsBeyond(t: Table, u: Table, q: Query)
    requires Good(t) && Good(u) && Beyond(t, q.repo, q.after) == Beyond(u, q.repo, q.after)
    ensures Objects(t, q) == Objects(u, q)
  {
    SelectBeyond(t, q);
    SelectBeyond(u, q);
    var rows := Select(t, q);
    forall i | 0 <= i < |rows| ensures Holders(t, rows[i].oid) == Holders(u, rows[i].oid) {
      assert rows[i] in rows && rows[i] in Select(u, q);
      HoldersOfLater(t, q.repo, q.after, rows[i]);
      HoldersOfLater(u, q.repo, q.after, rows[i]);
    }
  }

  lemma {:induction false} SelectNext(t: Table, q: Query)
    requires Sorted(t) && Select(t, q) != []
    ensures Select(t, q.(after := Select(t, q)[0].id)) == Select(t, q)[1..]
  {
    SortedFirst(t);
    if Selects(q, t[0]) {
      SelectLater(t[1..], q, t[0].id);
      assert Select(t, q) == [t[0]] + Select(t[1..], q);
    } else {
      SelectNext(t[1..], q);
      var first := Select(t[1..], q)[0];
      assert first in Select(t[1..], q);
    }
  }

  lemma {:induction false} SelectLater(t: Table, q: Query, id: int)
    requires id >= q.after && forall r :: r in t ==> r.id > id
    ensures Select(t, q.(after := id)) == Select(t, q)
  {
    if t != [] {
      SelectLater(t[1..], q, id);
    }
  }

  /** Behind its first object the query answers the rest. */
  lemma ObjectsNext(t: Table, q: Query)
    requires Sorted(t) && Objects(t, q) != []
    ensures Objects(t, q.(after := Objects(t, q)[0].row.id)) == Objects(t, q)[1..]
  {
    SelectNext(t, q);
  }

  /** The list itself: every selected row once, by ascending id, with its number of holders. */
  lemma ObjectsAreAll(t: Table, q: Query)
    requires Sorted(t)
    ensures forall i, j :: 0 <= i < j < |Objects(t, q)| ==> Objects(t, q)[i].row.id < Objects(t, q)[j].row.id
    ensures forall o :: o in Objects(t, q) <==> o.row in t && Selects(q, o.row) && o.count == Holders(t, o.row.oid)
  {
    SelectSorted(t, q);
    var rows, objects := Select(t, q), Objects(t, q);
    forall o: Object | o.row in t && Selects(q, o.row) && o.count == Holders(t, o.row.oid) ensures o in objects {
      var i :| 0 <= i < |rows| && rows[i] == o.row;
      assert objects[i] == o;
    }
    forall o | o in objects ensures o.row in rows && o.count == Holders(t, o.row.oid) {
      var i :| 0 <= i < |objects| && objects[i] == o;
    }
  }

  lemma {:induction false} SelectSorted(t: Table, q: Query)
    requires Sorted(t)
    ensures Sorted(Select(t, q))
  {
    if t != [] {
      SortedFirst(t);
      SelectSorted(t[1..], q);
    }
  }

  // ----- repositories with objects

  datatype RepoCount = RepoCount(repo: int, count: nat)

  ghost predicate Ascending(ids: seq<int>) {
    forall i, j :: 0 <= i < j < |ids| ==> ids[i] < ids[j]
  }

  function Insert(ids: seq<int>, x: int): (r: seq<int>)
    ensures forall y :: y in r <==> y == x || y in ids
  {
    if ids == [] || x < ids[0] then [x] + ids
    else if x == ids[0] then ids
    else [ids[0]] + Insert(ids[1..], x)
  }

  function RowsOf(t: Table, repo: int): nat {
    if t == [] then 0 else (if t[0].repo == repo then 1 else 0) + RowsOf(t[1..], repo)
  }

  /** The repositories above `after` that have rows, ordered, each once. */
  function RepoIds(t: Table, after: int): seq<int> {
    if t == [] then []
    else if t[0].repo > after then Insert(RepoIds(t[1..], after), t[0].repo)
    else RepoIds(t[1..], after)
  }

  function WithRows(t: Table, ids: seq<int>): (s: seq<RepoCount>)
    ensures |s| == |ids|
    ensures forall i :: 0 <= i < |s| ==> s[i] == RepoCount(ids[i], RowsOf(t, ids[i]))
  {
    if ids == [] then [] else [RepoCount(ids[0], RowsOf(t, ids[0]))] + WithRows(t, ids[1..])
  }

  /** What the grouping query answers without its limit. */
  function Groups(t: Table, after: int): seq<RepoCount> {
    WithRows(t, RepoIds(t, after))
  }

  lemma TailWithout(a: seq<int>)
    requires Ascending(a) && a != []
    ensures Ascending(a[1..]) && forall x :: x in a[1..] <==> x in a && x != a[0]
    ensures forall x :: x in a[1..] ==> a[0] < x
  {
    assert a == [a[0]] + a[1..];
  }

  lemma FirstAscending(x: int, a: seq<int>)
    requires Ascending(a) && forall y :: y in a ==> x < y
    ensures Ascending([x] + a)
  {
    var all := [x] + a;
    forall i, j | 0 <= i < j < |all| ensures all[i] < all[j] {
      assert all[j] in a;
      assert i > 0 ==> all[i] == a[i - 1] && all[j] == a[j - 1];
    }
  }

  lemma {:induction false} InsertAscending(ids: seq<int>, x: int)
    requires Ascending(ids)
    ensures Ascending(Insert(ids, x))
  {
    if ids != [] && ids[0] < x {
      TailWithout(ids);
      InsertAscending(ids[1..], x);
      FirstAscending(ids[0], Insert(ids[1..], x));
    } else if ids != [] && x < ids[0] {
      TailWithout(ids);
      FirstAscending(x, ids);
    }
  }

  /** A repository is listed exactly when it is above the key and has rows. */
  lemma {:induction false} RepoIdsAre(t: Table, after: int)
    ensures Ascending(RepoIds(t, after))
    ensures forall x :: x in RepoIds(t, after) <==> x > after && RowsOf(t, x) > 0
  {
    if t != [] {
      RepoIdsAre(t[1..], after);
      if t[0].repo > after {
        InsertAscending(RepoIds(t[1..], after), t[0].repo);
      }
    }
  }

  lemma HasElement(a: seq<int>)
    ensures a == [] || exists i :: 0 <= i < |a| && a[i] in a
  {
    if a != [] {
      var i := 0;
      assert a[i] in a;
    }
  }

  /** An ascending list is determined by its elements. */
  lemma {:induction false} SameElements(a: seq<int>, b: seq<int>)
    requires Ascending(a) && Ascending(b) && forall x :: x in a <==> x in b
    ensures a == b
  {
    if a == [] || b == [] {
      HasElement(a);
      HasElement(b);
      assert a == [] && b == [];
    } else {
      assert a[0] in a && b[0] in b;
      HeadIsLeast(a, b);
      HeadIsLeast(b, a);
      TailWithout(a);
      TailWithout(b);
      SameElements(a[1..], b[1..]);
      assert a == [a[0]] + a[1..] && b == [b[0]] + b[1..];
    }
  }

  lemma HeadIsLeast(a: seq<int>, b: seq<int>)
    requires Ascending(a) && a != [] && b != [] && b[0] in a
    ensures a[0] <= b[0]
  {
  }

  /** The rows a callback for a repository must leave alone: those of later repositories. */
  function Above(t: Table, repo: int): seq<Row> {
    if t == [] then []
    else if t[0].repo > repo then [t[0]] + Above(t[1..], repo)
    else Above(t[1..], repo)
  }

  lemma {:induction false} RowsAbove(t: Table, repo: int, x: int)
    requires x > repo
    ensures RowsOf(Above(t, repo), x) == RowsOf(t, x)
  {
    if t != [] {
      var rest := Above(t[1..], repo);
      RowsAbove(t[1..], repo, x);
      if t[0].repo > repo {
        assert ([t[0]] + rest)[1..] == rest;
      }
    }
  }

  /** What lies ahead depends only on the rows above. */
  lemma GroupsAbove(t: Table, u: Table, after: int)
    requires Above(t, after) == Above(u, after)
    ensures Groups(t, after) == Groups(u, after)
  {
    RepoIdsAre(t, after);
    RepoIdsAre(u, after);
    forall x | x > after ensures RowsOf(t, x) == RowsOf(u, x) {
      RowsAbove(t, after, x);
      RowsAbove(u, after, x);
    }
    SameElements(RepoIds(t, after), RepoIds(u, after));
  }

  lemma GroupsNext(t: Table, after: int)
    requires Groups(t, after) != []
    ensures Groups(t, Groups(t, after)[0].repo) == Groups(t, after)[1..]
  {
    var ids := RepoIds(t, after);
    RepoIdsAre(t, after);
    RepoIdsAre(t, ids[0]);
    TailWithout(ids);
    forall x | x in ids && x != ids[0] ensures x > ids[0] {
      var i :| 0 <= i < |ids| && ids[i] == x;
    }
    SameElements(RepoIds(t, ids[0]), ids[1..]);
  }

  /** The list itself: every repository above the key that has rows once, with their number. */
  lemma GroupsAreAll(t: Table, after: int)
    ensures forall i, j :: 0 <= i < j < |Groups(t, after)| ==> Groups(t, after)[i].repo < Groups(t, after)[j].repo
    ensures forall g :: g in Groups(t, after) <==> g.repo > after && g.count == RowsOf(t, g.repo) > 0
  {
    RepoIdsAre(t, after);
    var ids, groups := RepoIds(t, after), Groups(t, after);
    forall g: RepoCount | g.repo > after && g.count == RowsOf(t, g.repo) > 0 ensures g in groups {
      assert g.repo in ids;
      var i :| 0 <= i < |ids| && ids[i] == g.repo;
      assert groups[i] == g;
    }
    forall g | g in groups ensures g.repo in ids && g.count == RowsOf(t, g.repo) {
      var i :| 0 <= i < |groups| && groups[i] == g;
    }
  }

  // ----- both lists, condition by condition

  ghost function Positions(t: Table, p: Row -> bool): set<nat> {
    set i: nat | i < |t| && p(t[i])
  }

  function Shift(s: set<nat>): set<nat> {
    set i | i in s :: i + 1
  }

  lemma {:induction false} ShiftSize(s: set<nat>)
    ensures |Shift(s)| == |s|
  {
    if s != {} {
      var i :| i in s;
      var rest := s - {i};
      ShiftSize(rest);
      ShiftOne(rest, i);
      assert s == rest + {i};
    }
  }

  lemma ShiftOne(rest: set<nat>, i: nat)
    ensures Shift(rest + {i}) == Shift(rest) + {i + 1}
  {
    forall j: nat ensures j in Shift(rest + {i}) <==> j in Shift(rest) || j == i + 1 {
      if j == i + 1 {
        assert i in rest + {i};
      }
    }
  }

  lemma PositionsNext(t: Table, p: Row -> bool)
    requires t != []
    ensures |Positions(t, p)| == (if p(t[0]) then 1 else 0) + |Positions(t[1..], p)|
  {
    var later := Shift(Positions(t[1..], p));
    ShiftSize(Positions(t[1..], p));
    forall i: nat ensures i in later <==> i in Positions(t, p) && i > 0 {
      if i in Positions(t, p) && i > 0 {
        assert i - 1 in Positions(t[1..], p);
      }
    }
    assert Positions(t, p) == later + if p(t[0]) then {0} else {};
  }

  lemma {:induction false} HoldersIs(t: Table, oid: string, p: Row -> bool)
    requires forall r :: p(r) <==> r.oid == oid
    ensures Holders(t, oid) == |Positions(t, p)|
  {
    if t != [] {
      HoldersIs(t[1..], oid, p);
      PositionsNext(t, p);
    }
  }

  lemma {:induction false} RowsOfIs(t: Table, repo: int, p: Row -> bool)
    requires forall r :: p(r) <==> r.repo == repo
    ensures RowsOf(t, repo) == |Positions(t, p)|
  {
    if t != [] {
      RowsOfIs(t[1..], repo, p);
      PositionsNext(t, p);
    }
  }

  /**
   An object is listed exactly for a row of the repository with an id beyond the key that is
   older than each time limit that is set, and its count is the number of rows with its object id.
   */
  lemma ObjectsMean(t: Table, q: Query, o: Object)
    requires Sorted(t)
    ensures o in Objects(t, q) <==>
      && o.row in t && o.row.repo == q.repo && o.row.id > q.after
      && (q.olderThan == 0 || o.row.created < q.olderThan)
      && (q.updatedBefore == 0 || o.row.updated < q.updatedBefore)
      && o.count == |set i: nat | i < |t| && t[i].oid == o.row.oid|
  {
    ObjectsAreAll(t, q);
    var p := (r: Row) => r.oid == o.row.oid;
    HoldersIs(t, o.row.oid, p);
    assert Positions(t, p) == set i: nat | i < |t| && t[i].oid == o.row.oid;
  }

  /** A repository is listed exactly if its id is beyond the key and it has rows, with their number. */
  lemma GroupsMean(t: Table, after: int, g: RepoCount)
    ensures g in Groups(t, after) <==>
      g.repo > after && (exists r :: r in t && r.repo == g.repo)
      && g.count == |set i: nat | i < |t| && t[i].repo == g.repo|
  {
    GroupsAreAll(t, after);
    var p := (r: Row) => r.repo == g.repo;
    RowsOfIs(t, g.repo, p);
    assert Positions(t, p) == set i: nat | i < |t| && t[i].repo == g.repo;
    if r :| r in t && r.repo == g.repo {
      var i: nat :| i < |t| && t[i] == r;
      assert i in Positions(t, p);
    }
    if Positions(t, p) != {} {
      var i :| i in Positions(t, p);
      assert t[i] in t;
    }
  }
}
