/**
 Access tokens and the cache of successful lookups (models/auth/access_token.go:62-240) as
 functions: the plain search, the cached lookup, and histories of both.
 */
module TokenModel {

  datatype Row = Row(id: int, uid: int, name: string, hash: string, salt: string, lastEight: string)

  datatype Result = Found(row: Row) | Empty | NotExist | Ok

  /** Hashing a token with a salt, whatever the function is. */
  type Hash = (string, string) -> string

  predicate Hex(c: char) {
    '0' <= c <= '9' || 'a' <= c <= 'f'
  }

  /** 40 characters, each a lower-case hexadecimal digit. */
  predicate WellFormed(token: string) {
    |token| == 40 && forall i :: 0 <= i < |token| ==> Hex(token[i])
  }

  /** What `NewAccessToken` makes: the hexadecimal form of 20 random bytes. */
  type Secret = s: string | WellFormed(s) witness seq(40, _ => '0')

  function LastEight(token: string): string
    requires |token| >= 8
  {
    token[|token| - 8..]
  }

  predicate Matches(hash: Hash, row: Row, token: string) {
    |token| >= 8 && row.lastEight == LastEight(token) && row.hash == hash(token, row.salt)
  }

  /** The loop over the rows with the token's last eight characters. */
  function Search(hash: Hash, table: seq<Row>, token: string): Result {
    if table == [] then NotExist
    else if Matches(hash, table[0], token) then Found(table[0])
    else Search(hash, table[1..], token)
  }

  /** The lookup without a cache. */
  function Plain(hash: Hash, table: seq<Row>, token: string): Result {
    if token == "" then Empty else if !WellFormed(token) then NotExist else Search(hash, table, token)
  }

  /** The row with an id, if it also has these last eight characters. */
  function Get(table: seq<Row>, id: int, lastEight: string): Result {
    if table == [] then NotExist
    else if table[0].id == id && table[0].lastEight == lastEight then Found(table[0])
    else Get(table[1..], id, lastEight)
  }

  datatype Lookup = Lookup(result: Result, cache: map<string, int>)

  /** `GetAccessTokenBySHA`; `caching` is off when the configured cache size is 0. */
  function Cached(hash: Hash, table: seq<Row>, caching: bool, cache: map<string, int>, token: string): Lookup {
    if token == "" then Lookup(Empty, cache)
    else if !WellFormed(token) then Lookup(NotExist, cache)
    else
      var hit := if caching && token in cache && cache[token] > 0
                 then Get(table, cache[token], LastEight(token)) else Empty;
      if hit.Found? then Lookup(hit, cache)
      else
        var left := if hit.NotExist? then cache - {token} else cache;
        var r := Search(hash, table, token);
        Lookup(r, if r.Found? && caching then left[token := r.row.id] else left)
  }

  lemma {:induction false} SearchFinds(hash: Hash, table: seq<Row>, token: string)
    ensures var r := Search(hash, table, token);
      if r.Found? then r.row in table && Matches(hash, r.row, token)
      else r == NotExist && forall row :: row in table ==> !Matches(hash, row, token)
  {
    if table != [] && !Matches(hash, table[0], token) {
      SearchFinds(hash, table[1..], token);
    }
  }

  lemma {:induction false} GetFinds(table: seq<Row>, id: int, lastEight: string)
    ensures var r := Get(table, id, lastEight);
      if r.Found? then r.row in table && r.row.id == id && r.row.lastEight == lastEight
      else r == NotExist && forall row :: row in table && row.id == id ==> row.lastEight != lastEight
  {
    if table != [] && !(table[0].id == id && table[0].lastEight == lastEight) {
      GetFinds(table[1..], id, lastEight);
    }
  }

  // ----- when the two lookups agree

  /** No token matches two rows. */
  ghost predicate UniqueMatches(hash: Hash, table: seq<Row>) {
    forall token: string, a, b ::
      (a in table && b in table && Matches(hash, a, token) && Matches(hash, b, token)) ==> a == b
  }

  /** What the cache would answer for a token without looking at hashes. */
  function Hit(table: seq<Row>, caching: bool, cache: map<string, int>, token: string): Result {
    if WellFormed(token) && caching && token in cache && cache[token] > 0
    then Get(table, cache[token], LastEight(token)) else NotExist
  }

  /**
   The cached lookup gives the answer of the plain one exactly when the row it takes from the
   cache, if it takes one, still has the hash of the token: the cache itself compares only ids and
   the last eight characters.
   */
  lemma AgreeIff(hash: Hash, table: seq<Row>, caching: bool, cache: map<string, int>, token: string)
    requires UniqueMatches(hash, table)
    ensures Cached(hash, table, caching, cache, token).result == Plain(hash, table, token)
            <==> (var hit := Hit(table, caching, cache, token); hit.Found? ==> Matches(hash, hit.row, token))
  {
    SearchFinds(hash, table, token);
    if WellFormed(token) && caching && token in cache {
      GetFinds(table, cache[token], LastEight(token));
    }
  }

  // ----- histories

  datatype State = State(table: seq<Row>, caching: bool, cache: map<string, int>, used: set<int>)

  datatype Event =
    | New(id: int, uid: int, name: string, secret: Secret, salt: string)
    | Delete(id: int, uid: int)
    | Update(row: Row)
    | Evict(keep: set<string>)
    | Ask(token: string)

  function NewRow(hash: Hash, e: Event): Row
    requires e.New?
  {
    Row(e.id, e.uid, e.name, hash(e.secret, e.salt), e.salt, LastEight(e.secret))
  }

  /** Is this the row a delete by id and user means? A user id of 0 is no condition. */
  predicate Named(row: Row, id: int, uid: int) {
    row.id == id && (uid == 0 || row.uid == uid)
  }

  function Without(table: seq<Row>, id: int, uid: int): (r: seq<Row>)
    ensures forall row :: row in r <==> row in table && !Named(row, id, uid)
  {
    if table == [] then []
    else if Named(table[0], id, uid) then Without(table[1..], id, uid)
    else [table[0]] + Without(table[1..], id, uid)
  }

  /** Every column of the row with this id. */
  function Replaced(table: seq<Row>, row: Row): (r: seq<Row>)
    ensures |r| == |table|
    ensures forall i :: 0 <= i < |r| ==> r[i] == if table[i].id == row.id then row else table[i]
  {
    if table == [] then [] else [if table[0].id == row.id then row else table[0]] + Replaced(table[1..], row)
  }

  /** One event on the table alone, as if there were no cache. */
  function PlainStep(hash: Hash, table: seq<Row>, e: Event): (seq<Row>, Result)
  {
    match e
    case New(_, _, _, _, _) => (table + [NewRow(hash, e)], Ok)
    case Delete(id, uid) =>
      (Without(table, id, uid), if exists row :: row in table && Named(row, id, uid) then Ok else NotExist)
    case Update(row) => (Replaced(table, row), Ok)
    case Evict(_) => (table, Ok)
    case Ask(token) => (table, Plain(hash, table, token))
  }

  function Step(hash: Hash, st: State, e: Event): (State, Result)
  {
    var (table, plain) := PlainStep(hash, st.table, e);
    match e
    case New(id, _, _, _, _) => (st.(table := table, used := st.used + {id}), plain)
    case Delete(_, _) => (st.(table := table), plain)
    case Update(_) => (st.(table := table), plain)
    case Evict(keep) => (st.(cache := map k | k in st.cache && k in keep :: st.cache[k]), plain)
    case Ask(token) =>
      var l := Cached(hash, st.table, st.caching, st.cache, token);
      (st.(cache := l.cache), l.result)
  }

  /**
   What the rest of the system grants: a new row has an id that was never used and a token that
   no row matches (nor may another token match both), and an update leaves the hash columns alone.
   */
  ghost predicate Allowed(hash: Hash, st: State, e: Event) {
    match e
    case New(id, _, _, _, _) =>
      && id !in st.used
      && forall row, k: string :: row in st.table && Matches(hash, row, k) ==> !Matches(hash, NewRow(hash, e), k)
    case Update(row) =>
      forall r :: r in st.table && r.id == row.id ==>
        r.hash == row.hash && r.salt == row.salt && r.lastEight == row.lastEight
    case _ => true
  }

  ghost predicate UniqueIds(table: seq<Row>, used: set<int>) {
    && (forall row :: row in table ==> row.id in used)
    && (forall i, j :: 0 <= i < j < |table| ==> table[i].id != table[j].id)
  }

  lemma SameId(table: seq<Row>, used: set<int>, a: Row, b: Row)
    requires UniqueIds(table, used) && a in table && b in table && a.id == b.id
    ensures a == b
  {
    var i :| 0 <= i < |table| && table[i] == a;
    var j :| 0 <= j < |table| && table[j] == b;
    assert !(i < j) && !(j < i);
  }

  lemma {:induction false} WithoutNone(table: seq<Row>, id: int, uid: int)
    requires forall row :: row in table ==> !Named(row, id, uid)
    ensures Without(table, id, uid) == table
  {
    if table != [] {
      assert table == [table[0]] + table[1..];
      WithoutNone(table[1..], id, uid);
    }
  }

  lemma FirstIsUnique(first: Row, rest: seq<Row>, used: set<int>)
    ensures UniqueIds([first] + rest, used)
            <==> UniqueIds(rest, used) && first.id in used && forall row :: row in rest ==> row.id != first.id
  {
    var table := [first] + rest;
    assert forall i :: 0 <= i < |rest| ==> rest[i] == table[i + 1];
    if UniqueIds(table, used) {
      assert table[0] == first;
      forall row | row in rest ensures row in table && row.id != first.id {
        var i :| 0 <= i < |rest| && rest[i] == row;
        assert table[0].id != table[i + 1].id;
      }
    }
  }

  /** A delete by id leaves the ids unique and removes one row or none. */
  lemma {:induction false} WithoutOne(table: seq<Row>, id: int, uid: int, used: set<int>)
    requires UniqueIds(table, used)
    ensures UniqueIds(Without(table, id, uid), used)
    ensures |table| - |Without(table, id, uid)| == if exists row :: row in table && Named(row, id, uid) then 1 else 0
  {
    if table != [] {
      var first, rest := table[0], table[1..];
      assert table == [first] + rest;
      FirstIsUnique(first, rest, used);
      if Named(first, id, uid) {
        WithoutNone(rest, id, uid);
      } else {
        WithoutOne(rest, id, uid, used);
        FirstIsUnique(first, Without(rest, id, uid), used);
      }
    }
  }

  /** A row the cache names for a token matches that token. */
  ghost predicate CacheFits(hash: Hash, table: seq<Row>, cache: map<string, int>) {
    forall k, row :: k in cache && row in table && row.id == cache[k] ==> Matches(hash, row, k)
  }

  ghost predicate Inv(hash: Hash, st: State) {
    && UniqueIds(st.table, st.used)
    && UniqueMatches(hash, st.table)
    && (forall k :: k in st.cache ==> st.cache[k] in st.used)
    && CacheFits(hash, st.table, st.cache)
  }

  lemma NewKeepsInv(hash: Hash, st: State, e: Event)
    requires e.New? && Inv(hash, st) && Allowed(hash, st, e)
    ensures Inv(hash, Step(hash, st, e).0)
  {
    var row := NewRow(hash, e);
    var table := st.table + [row];
    assert forall r :: r in table <==> r in st.table || r == row;
  }

  /** The row an updated row was; it had the same id, and matches the same tokens. */
  lemma Was(hash: Hash, st: State, row: Row, r: Row) returns (was: Row)
    requires Allowed(hash, st, Update(row)) && r in Replaced(st.table, row)
    ensures was in st.table && was.id == r.id && r == if was.id == row.id then row else was
    ensures r.hash == was.hash && r.salt == was.salt && r.lastEight == was.lastEight
  {
    var i :| 0 <= i < |st.table| && Replaced(st.table, row)[i] == r;
    was := st.table[i];
    assert was in st.table;
  }

  lemma UpdateKeepsMatches(hash: Hash, st: State, row: Row)
    requires Allowed(hash, st, Update(row)) && UniqueMatches(hash, st.table)
    ensures UniqueMatches(hash, Replaced(st.table, row))
  {
    var table := Replaced(st.table, row);
    forall token: string, a, b | a in table && b in table && Matches(hash, a, token) && Matches(hash, b, token)
      ensures a == b
    {
      var wasA := Was(hash, st, row, a);
      var wasB := Was(hash, st, row, b);
      assert Matches(hash, wasA, token) && Matches(hash, wasB, token);
    }
  }

  lemma UpdateKeepsCache(hash: Hash, st: State, row: Row)
    requires Allowed(hash, st, Update(row)) && CacheFits(hash, st.table, st.cache)
    ensures CacheFits(hash, Replaced(st.table, row), st.cache)
  {
    forall k, r | k in st.cache && r in Replaced(st.table, row) && r.id == st.cache[k] ensures Matches(hash, r, k) {
      var was := Was(hash, st, row, r);
      assert Matches(hash, was, k);
    }
  }

  lemma UpdateKeepsInv(hash: Hash, st: State, row: Row)
    requires Inv(hash, st) && Allowed(hash, st, Update(row))
    ensures Inv(hash, st.(table := Replaced(st.table, row)))
  {
    UpdateKeepsMatches(hash, st, row);
    UpdateKeepsCache(hash, st, row);
    forall r | r in Replaced(st.table, row) ensures r.id in st.used {
      var was := Was(hash, st, row, r);
    }
  }

  lemma AskKeepsInv(hash: Hash, st: State, token: string)
    requires Inv(hash, st)
    ensures Inv(hash, Step(hash, st, Ask(token)).0)
  {
    SearchFinds(hash, st.table, token);
    var r := Search(hash, st.table, token);
    if r.Found? {
      forall row | row in st.table && row.id == r.row.id ensures row == r.row {
        SameId(st.table, st.used, row, r.row);
      }
    }
  }

  lemma StepKeepsInv(hash: Hash, st: State, e: Event)
    requires Inv(hash, st) && Allowed(hash, st, e)
    ensures Inv(hash, Step(hash, st, e).0)
  {
    match e
    case New(_, _, _, _, _) => NewKeepsInv(hash, st, e);
    case Delete(id, uid) => WithoutOne(st.table, id, uid, st.used);
    case Update(row) => UpdateKeepsInv(hash, st, row);
    case Evict(_) =>
    case Ask(token) => AskKeepsInv(hash, st, token);
  }

  lemma StepAgrees(hash: Hash, st: State, e: Event)
    requires Inv(hash, st) && Allowed(hash, st, e)
    ensures var (next, r) := Step(hash, st, e); (next.table, r) == PlainStep(hash, st.table, e)
  {
    if e.Ask? {
      AgreeIff(hash, st.table, st.caching, st.cache, e.token);
      if WellFormed(e.token) && e.token in st.cache {
        GetFinds(st.table, st.cache[e.token], LastEight(e.token));
      }
    }
  }

  ghost predicate AllAllowed(hash: Hash, st: State, events: seq<Event>)
    decreases |events|
  {
    events == [] || (Allowed(hash, st, events[0]) && AllAllowed(hash, Step(hash, st, events[0]).0, events[1..]))
  }

  /** The answers of a history with the cache, and the table it ends with. */
  ghost function Answers(hash: Hash, st: State, events: seq<Event>): (State, seq<Result>)
    requires AllAllowed(hash, st, events)
    decreases |events|
  {
    if events == [] then (st, [])
    else
      var (next, r) := Step(hash, st, events[0]);
      var (last, rest) := Answers(hash, next, events[1..]);
      (last, [r] + rest)
  }

  /** The same history without one. */
  function PlainAnswers(hash: Hash, table: seq<Row>, events: seq<Event>): (seq<Row>, seq<Result>)
    decreases |events|
  {
    if events == [] then (table, [])
    else
      var (next, r) := PlainStep(hash, table, events[0]);
      var (last, rest) := PlainAnswers(hash, next, events[1..]);
      (last, [r] + rest)
  }

  /** The cache never shows: every answer of every allowed history is the one without it. */
  lemma {:induction false} CacheIsInvisible(hash: Hash, st: State, events: seq<Event>)
    requires Inv(hash, st) && AllAllowed(hash, st, events)
    ensures var (last, answers) := Answers(hash, st, events);
      (last.table, answers) == PlainAnswers(hash, st.table, events) && Inv(hash, last)
    decreases |events|
  {
    if events != [] {
      StepKeepsInv(hash, st, events[0]);
      StepAgrees(hash, st, events[0]);
      CacheIsInvisible(hash, Step(hash, st, events[0]).0, events[1..]);
    }
  }

  /** A used id that is gone stays gone: a revoked token is never answered again. */
  lemma {:induction false} RevokedStaysRevoked(hash: Hash, st: State, events: seq<Event>, id: int)
    requires Inv(hash, st) && AllAllowed(hash, st, events)
    requires id in st.used && forall row :: row in st.table ==> row.id != id
    ensures forall r :: r in Answers(hash, st, events).1 && r.Found? ==> r.row.id != id
    decreases |events|
  {
    if events != [] {
      var e := events[0];
      var (next, r) := Step(hash, st, e);
      StepKeepsInv(hash, st, e);
      StepAgrees(hash, st, e);
      if e.Ask? {
        SearchFinds(hash, st.table, e.token);
      }
      RevokedStaysRevoked(hash, next, events[1..], id);
    }
  }

  const NOTHING := State([], true, map[], {})

  /**
   An update that changes a stored hash is not among the allowed ones, and shows: a token that was
   asked for before is still answered from the cache, where the plain lookup finds nothing.
   */
  lemma ChangedHashShows(hash: Hash, token: Secret, salt: string, other: string)
    requires other != hash(token, salt)
    ensures
      var made := New(1, 1, "", token, salt);
      var changed := NewRow(hash, made).(hash := other);
      var st := Step(hash, Step(hash, Step(hash, NOTHING, made).0, Ask(token)).0, Update(changed)).0;
      Step(hash, st, Ask(token)).1 == Found(changed) && Plain(hash, st.table, token) == NotExist
  {
    var made := New(1, 1, "", token, salt);
    var row := NewRow(hash, made);
    var changed := row.(hash := other);
    var st1 := Step(hash, NOTHING, made).0;
    assert st1.table == [row];
    assert Matches(hash, row, token);
    assert Search(hash, [row], token) == Found(row);
    var st2 := Step(hash, st1, Ask(token)).0;
    assert st2.cache == map[token := 1] && st2.table == [row];
    var st3 := Step(hash, st2, Update(changed)).0;
    assert st3.table == [changed];
    assert Get([changed], 1, LastEight(token)) == Found(changed);
    assert !Matches(hash, changed, token);
    SearchFinds(hash, [changed], token);
  }

  /** A token just made is found under its own id, whatever is in the cache. */
  lemma NewTokenIsFound(hash: Hash, st: State, e: Event)
    requires e.New? && Inv(hash, st) && Allowed(hash, st, e)
    ensures Step(hash, Step(hash, st, e).0, Ask(e.secret)).1 == Found(NewRow(hash, e))
  {
    var next := Step(hash, st, e).0;
    NewKeepsInv(hash, st, e);
    StepAgrees(hash, next, Ask(e.secret));
    SearchFinds(hash, next.table, e.secret);
    assert NewRow(hash, e) in next.table && Matches(hash, NewRow(hash, e), e.secret);
  }

  // ----- what lookups and deletes mean, column by column

  /**
   The plain lookup: empty for the empty token; a row exactly when the token is forty digits or
   lower-case letters up to f, and then one whose last-eight column is the end of the token and
   whose hash column is the token hashed with the row's salt.
   */
  lemma PlainMeans(hash: Hash, table: seq<Row>, token: string)
    ensures Plain(hash, table, token) == Empty <==> token == ""
    ensures var r := Plain(hash, table, token);
      r.Found? ==> r.row in table && r.row.lastEight == token[32..] && r.row.hash == hash(token, r.row.salt)
    ensures Plain(hash, table, token).Found? <==>
      && |token| == 40
      && (forall c :: c in token ==> c in "0123456789abcdef")
      && exists row :: row in table && row.lastEight == token[32..] && row.hash == hash(token, row.salt)
    ensures Plain(hash, table, token) in {Empty, NotExist} || Plain(hash, table, token).Found?
  {
    SearchFinds(hash, table, token);
    assert WellFormed(token) <==> |token| == 40 && forall c :: c in token ==> c in "0123456789abcdef" by {
      forall c: char ensures Hex(c) <==> c in "0123456789abcdef" { HexDigit(c); }
    }
    assert WellFormed(token) ==> LastEight(token) == token[32..];
  }

  lemma HexDigit(c: char)
    ensures Hex(c) <==> c in "0123456789abcdef"
  {
    var digits := "0123456789abcdef";
    if '0' <= c <= '9' {
      assert digits[(c - '0') as int] == c;
    } else if 'a' <= c <= 'f' {
      assert digits[(c - 'a') as int + 10] == c;
    }
  }

  /**
   A delete removes the row with the id if it is the given user's, or anybody's when the user id
   is zero, and says whether there was one; every other row stays, in its place.
   */
  lemma DeleteMeans(hash: Hash, st: State, id: int, uid: int)
    requires UniqueIds(st.table, st.used)
    ensures var (next, r) := Step(hash, st, Delete(id, uid));
      if i :| 0 <= i < |st.table| && st.table[i].id == id
      then
        if uid == 0 || st.table[i].uid == uid then r == Ok && next == st.(table := Cut(st.table, i))
        else r == NotExist && next == st
      else r == NotExist && next == st
  {
    if i :| 0 <= i < |st.table| && st.table[i].id == id {
      WithoutAt(st.table, id, uid, i, st.used);
      forall row | row in st.table && row.id == id ensures row == st.table[i] {
        SameId(st.table, st.used, row, st.table[i]);
      }
      assert st.table[i] in st.table;
    } else {
      WithoutNone(st.table, id, uid);
    }
  }

  /** A table without its row `i`. */
  function Cut(table: seq<Row>, i: nat): seq<Row>
    requires i < |table|
  {
    table[..i] + table[i + 1..]
  }

  lemma CutLater(first: Row, rest: seq<Row>, i: nat)
    requires i < |rest|
    ensures Cut([first] + rest, i + 1) == [first] + Cut(rest, i)
  {
  }

  lemma CutFirst(first: Row, rest: seq<Row>)
    ensures Cut([first] + rest, 0) == rest
  {
  }

  lemma WithoutTail(first: Row, rest: seq<Row>, id: int, uid: int)
    requires !Named(first, id, uid)
    ensures Without([first] + rest, id, uid) == [first] + Without(rest, id, uid)
  {
    assert ([first] + rest)[1..] == rest;
  }

  lemma {:induction false} WithoutAt(table: seq<Row>, id: int, uid: int, i: nat, used: set<int>)
    requires UniqueIds(table, used) && i < |table| && table[i].id == id
    ensures Without(table, id, uid) == if uid == 0 || table[i].uid == uid then Cut(table, i) else table
  {
    var first, rest := table[0], table[1..];
    assert table == [first] + rest;
    FirstIsUnique(first, rest, used);
    if i == 0 {
      CutFirst(first, rest);
      WithoutNone(rest, id, uid);
    } else {
      assert rest[i - 1] in rest;
      WithoutAt(rest, id, uid, i - 1, used);
      WithoutTail(first, rest, id, uid);
      CutLater(first, rest, i - 1);
    }
  }

  /** A found token is remembered when there is a cache, and no answer changes the table. */
  lemma AskRemembers(hash: Hash, st: State, token: string)
    requires Inv(hash, st)
    ensures var (next, r) := Step(hash, st, Ask(token));
      && next.table == st.table
      && (!st.caching ==> next == st)
      && (st.caching && r.Found? && r.row.id > 0 ==> token in next.cache && next.cache[token] == r.row.id)
      && forall k :: k != token ==> (k in next.cache <==> k in st.cache) && (k in st.cache ==> next.cache[k] == st.cache[k])
  {
    SearchFinds(hash, st.table, token);
    if WellFormed(token) && token in st.cache {
      GetFinds(st.table, st.cache[token], LastEight(token));
    }
  }
}
