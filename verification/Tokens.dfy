/**
 The token table and its cache as the code changes them (models/auth/access_token.go:100-191,
 219-240), step for step against the model, and whole histories against the plain lookup.
 */
module Tokens {
  import opened TokenModel

  class TokenStore {
    var table: seq<Row>
    var cache: map<string, int>
    var used: set<int>
    const caching: bool
    const hash: Hash

    constructor (caching: bool, hash: Hash)
      ensures this.caching == caching && this.hash == hash
      ensures Abs() == State([], caching, map[], {})
      ensures Inv(hash, Abs())
    {
      this.caching := caching;
      this.hash := hash;
      table := [];
      cache := map[];
      used := {};
    }

    function Abs(): State
      reads this
    {
      State(table, caching, cache, used)
    }

    /** The database gives the row an id it never gave before. */
    method NewAccessToken(id: int, uid: int, name: string, token: Secret, salt: string) returns (r: Result)
      modifies this
      ensures (Abs(), r) == Step(hash, old(Abs()), New(id, uid, name, token, salt))
    {
      var tokenHash := hash(token, salt);
      var row := Row(id, uid, name, tokenHash, salt, token[|token| - 8..]);
      table := table + [row];
      used := used + {id};
      r := Ok;
    }

    /** The database deletes by id, and by user unless the user id is zero, and counts the rows. */
    method DeleteRows(id: int, uid: int) returns (count: nat)
      requires UniqueIds(table, used)
      modifies this`table
      ensures table == Without(old(table), id, uid)
      ensures count == if exists row :: row in old(table) && Named(row, id, uid) then 1 else 0
    {
      WithoutOne(table, id, uid, used);
      count := |table| - |Without(table, id, uid)|;
      table := Without(table, id, uid);
    }

    method DeleteAccessTokenByID(id: int, uid: int) returns (r: Result)
      requires UniqueIds(table, used)
      modifies this
      ensures (Abs(), r) == Step(hash, old(Abs()), Delete(id, uid))
    {
      var count := DeleteRows(id, uid);
      if count != 1 {
        return NotExist;
      }
      return Ok;
    }

    method UpdateAccessToken(row: Row) returns (r: Result)
      modifies this
      ensures (Abs(), r) == Step(hash, old(Abs()), Update(row))
    {
      table := Replaced(table, row);
      r := Ok;
    }

    /** The cache may forget any entries at any time. */
    method Forget(keep: set<string>) returns (r: Result)
      modifies this
      ensures (Abs(), r) == Step(hash, old(Abs()), Evict(keep))
    {
      cache := map k | k in cache && k in keep :: cache[k];
      r := Ok;
    }

    method GetAccessTokenIDFromCache(token: string) returns (id: int)
      ensures id == if caching && token in cache then cache[token] else 0
    {
      if !caching {
        return 0;
      }
      if token !in cache {
        return 0;
      }
      return cache[token];
    }

    static method IsWellFormed(token: string) returns (ok: bool)
      ensures ok == WellFormed(token)
    {
      if |token| != 40 {
        return false;
      }
      for i := 0 to |token|
        invariant forall k :: 0 <= k < i ==> Hex(token[k])
      {
        var x := token[i];
        if x < '0' || (x > '9' && x < 'a') || x > 'f' {
          return false;
        }
      }
      return true;
    }

    method GetAccessTokenBySHA(token: string) returns (r: Result)
      modifies this
      ensures (Abs(), r) == Step(hash, old(Abs()), Ask(token))
    {
      if token == "" {
        return Empty;
      }
      var ok := IsWellFormed(token);
      if !ok {
        return NotExist;
      }
      var lastEight := token[|token| - 8..];
      var id := GetAccessTokenIDFromCache(token);
      if id > 0 {
        GetFinds(table, id, lastEight);
        var row := Get(table, id, lastEight);
        if row.Found? {
          return row;
        }
        cache := cache - {token};
      }
      var found := SearchRows(token, lastEight);
      if found.Found? && caching {
        cache := cache[token := found.row.id];
      }
      return found;
    }

    /** The loop over the rows with these last eight characters. */
    method SearchRows(token: string, lastEight: string) returns (r: Result)
      requires |token| >= 8 && lastEight == LastEight(token)
      ensures r == Search(hash, table, token)
    {
      var rest := table;
      while rest != []
        invariant Search(hash, table, token) == Search(hash, rest, token)
        decreases |rest|
      {
        var t := rest[0];
        if t.lastEight == lastEight {
          var tempHash := hash(token, t.salt);
          if t.hash == tempHash {
            return Found(t);
          }
        }
        rest := rest[1..];
      }
      return NotExist;
    }

    method Do(e: Event) returns (r: Result)
      requires Inv(hash, Abs())
      modifies this
      ensures (Abs(), r) == Step(hash, old(Abs()), e)
    {
      match e {
        case New(id, uid, name, token, salt) => r := NewAccessToken(id, uid, name, token, salt);
        case Delete(id, uid) => r := DeleteAccessTokenByID(id, uid);
        case Update(row) => r := UpdateAccessToken(row);
        case Evict(keep) => r := Forget(keep);
        case Ask(token) => r := GetAccessTokenBySHA(token);
      }
    }

    /** Any allowed history on the store gives the answers of the plain lookup. */
    method Replay(events: seq<Event>) returns (answers: seq<Result>)
      requires Inv(hash, Abs()) && AllAllowed(hash, Abs(), events)
      modifies this
      ensures Inv(hash, Abs())
      ensures (table, answers) == PlainAnswers(hash, old(table), events)
      decreases |events|
    {
      if events == [] {
        return [];
      }
      StepKeepsInv(hash, Abs(), events[0]);
      StepAgrees(hash, Abs(), events[0]);
      var r := Do(events[0]);
      var rest := Replay(events[1..]);
      return [r] + rest;
    }
  }
}
