/**
 Printing a scope bitmap back to a string (models/auth/access_token_scope.go:283-377), and that
 parsing what was printed gives the bitmap back.
 */
module ScopePrint {
  import opened ScopeText
  import opened Scopes

  // ----- names

  lemma CategoriesDistinct(a: nat, b: nat)
    requires a < b < 9
    ensures CATEGORIES[a] != CATEGORIES[b]
  {
    assert forall i :: 0 <= i < 9 ==> |CATEGORIES[i]| == [11, 5, 4, 12, 12, 7, 5, 10, 4][i];
    assert forall i :: 0 <= i < 9 ==> CATEGORIES[i][0] == "aamnopiru"[i];
  }

  lemma NameShape(k: ScopeId)
    ensures |Name(k)| > 5 && Name(k)[0] == (if k == 0 then 'p' else if k % 2 == 1 then 'w' else 'r')
    ensures k % 2 == 1 ==> Name(k)[6..] == CATEGORIES[k / 2]
    ensures k > 0 && k % 2 == 0 ==> Name(k)[5..] == CATEGORIES[k / 2 - 1]
  {
  }

  lemma NamesDistinct(j: ScopeId, k: ScopeId)
    requires j < k
    ensures Name(j) != Name(k)
  {
    NameShape(j);
    NameShape(k);
    if j > 0 && j % 2 == k % 2 {
      if j % 2 == 1 {
        CategoriesDistinct(j / 2, k / 2);
      } else {
        CategoriesDistinct(j / 2 - 1, k / 2 - 1);
      }
    }
  }

  lemma AllIsNoName(k: ScopeId)
    ensures Name(k) != "all" && Name(k) != ""
  {
    NameShape(k);
    assert |"all"| == 3;
  }

  lemma IndexOfName(k: ScopeId)
    ensures IndexFrom(Name(k), 0) == k
  {
    var i := IndexFrom(Name(k), 0);
    if i < k {
      NamesDistinct(i, k);
    }
  }

  /** Looking a listed name up finds its own bits. */
  lemma LookupName(k: ScopeId)
    ensures BitsOf(Name(k)) == Ok(Bits(k))
  {
    AllIsNoName(k);
    IndexOfName(k);
  }

  lemma CategoriesHaveNoComma(c: nat)
    requires c < 9
    ensures NoComma(CATEGORIES[c])
  {
  }

  lemma NamesHaveNoComma(k: ScopeId)
    ensures NoComma(Name(k)) && Name(k) != ""
  {
    if k > 0 {
      var prefix := if k % 2 == 1 then "write:" else "read:";
      var c := if k % 2 == 1 then k / 2 else k / 2 - 1;
      CategoriesHaveNoComma(c);
      assert Name(k) == prefix + CATEGORIES[c];
      assert NoComma(prefix);
    }
  }

  function Names(ks: seq<ScopeId>): (r: seq<string>)
  {
    seq(|ks|, i requires 0 <= i < |ks| => Name(ks[i]))
  }

  lemma NamesNext(ks: seq<ScopeId>, k: ScopeId)
    ensures Names(ks + [k]) == Names(ks) + [Name(k)]
  {
  }

  // ----- selection

  /** The bits that `toScope` has reconstructed after the first `k` scopes. */
  function Covered(x: Bitmap, k: nat): Bitmap
    requires k <= 19
  {
    if k == 0 then {}
    else if Bits(k - 1) <= x then Covered(x, k - 1) + Bits(k - 1) else Covered(x, k - 1)
  }

  /** The scopes that `toScope` has listed after the first `k`: those that added bits. */
  function Chosen(x: Bitmap, k: nat): (r: seq<ScopeId>)
    requires k <= 19
  {
    if k == 0 then []
    else if Bits(k - 1) <= x && !(Bits(k - 1) <= Covered(x, k - 1)) then Chosen(x, k - 1) + [k - 1]
    else Chosen(x, k - 1)
  }

  function PrintScope(x: Bitmap): string {
    ReplaceAll(Join(Names(Chosen(x, 19))), ALL_WRITES, "all")
  }

  /** One turn of the loop in `toScope`: is the scope held, and not yet covered? */
  method TryScope(bitmap: Bitmap, singleScope: string, ghost k: ScopeId, reconstruct: Bitmap)
    returns (listed: bool, current: Bitmap)
    requires singleScope == Name(k)
    ensures listed <==> Bits(k) <= bitmap && !(Bits(k) <= reconstruct)
    ensures current == if Bits(k) <= bitmap then reconstruct + Bits(k) else reconstruct
  {
    LookupName(k);
    var bits := BitsOf(singleScope);
    listed, current := false, reconstruct;
    if bits.value <= bitmap {
      current := reconstruct + bits.value;
      listed := current != reconstruct;
      assert current == reconstruct <==> bits.value <= reconstruct;
    }
  }

  /** The loop of `toScope`: a scope is listed unless the ones before it already cover its bits. */
  method ListScopes(bitmap: Bitmap) returns (scopes: seq<string>)
    ensures scopes == Names(Chosen(bitmap, 19))
  {
    scopes := [];
    var reconstruct: Bitmap := {};
    for k := 0 to SCOPES
      invariant scopes == Names(Chosen(bitmap, k)) && reconstruct == Covered(bitmap, k)
    {
      var singleScope := Name(k);
      var listed, current := TryScope(bitmap, singleScope, k, reconstruct);
      if listed {
        NamesNext(Chosen(bitmap, k), k);
        scopes := scopes + [singleScope];
      }
      reconstruct := current;
    }
  }

  method ToScope(bitmap: Bitmap) returns (scope: string)
    ensures scope == PrintScope(bitmap)
  {
    var scopes := ListScopes(bitmap);
    scope := ReplaceAll(Join(scopes), ALL_WRITES, "all");
  }

  /** Bitmaps that parsing can produce: no stray bits, and write implies read. */
  predicate Closed(x: Bitmap) {
    (forall b :: b in x ==> 1 <= b < 20) && (forall b :: b in x && b % 2 == 1 && b > 1 ==> b - 1 in x)
  }

  /** The scope that stands for a bit of a closed bitmap. */
  function Owner(b: nat): (k: ScopeId)
    requires 1 <= b < 20
    ensures b in Bits(k)
  {
    if b == 1 then 0 else if b % 2 == 1 then b - 2 else b
  }

  lemma {:induction false} CoveredBits(x: Bitmap, k: nat, b: nat)
    requires k <= 19
    ensures b in Covered(x, k) <==> exists j: ScopeId :: j < k && Bits(j) <= x && b in Bits(j)
    ensures b in Covered(x, k) ==> b in x && b <= k + 1
  {
    if k > 0 {
      CoveredBits(x, k - 1, b);
      var last: ScopeId := k - 1;
      if Bits(last) <= x && b in Bits(last) {
        assert b in Covered(x, k);
      }
    }
  }

  /** The covered bits are those of the chosen scopes. */
  lemma {:induction false} ChosenBits(x: Bitmap, k: nat, b: nat)
    requires k <= 19
    ensures b in Covered(x, k) <==> exists i :: i in Chosen(x, k) && b in Bits(i)
  {
    if k > 0 {
      ChosenBits(x, k - 1, b);
      var ks, ks' := Chosen(x, k - 1), Chosen(x, k);
      assert forall i :: i in ks ==> i in ks';
      if ks' != ks {
        assert forall i :: i in ks' <==> i in ks || i == k - 1;
      }
    }
  }

  /** A closed bitmap is exactly the bits of the scopes chosen for it. */
  lemma ChosenIsAll(x: Bitmap, b: nat)
    requires Closed(x)
    ensures b in x <==> exists i :: i in Chosen(x, 19) && b in Bits(i)
  {
    ChosenBits(x, 19, b);
    CoveredBits(x, 19, b);
    if b in x {
      assert Owner(b) < 19 && Bits(Owner(b)) <= x;
    }
  }

  // ----- when the rewrite to "all" applies

  lemma JoinFirst(a: string, rest: seq<string>)
    requires rest != []
    ensures Join([a] + rest) == a + "," + Join(rest)
  {
    assert ([a] + rest)[1..] == rest;
  }

  lemma WriteNames()
    ensures Name(1) == "write:activitypub" && Name(3) == "write:admin" && Name(5) == "write:misc"
    ensures Name(7) == "write:notification" && Name(9) == "write:organization" && Name(11) == "write:package"
    ensures Name(13) == "write:issue" && Name(15) == "write:repository" && Name(17) == "write:user"
  {
  }

  /** The write scopes from the one numbered `c` on. */
  function WritesFrom(c: nat): (r: seq<ScopeId>)
    requires 1 <= c <= 9
    ensures r != []
    decreases 9 - c
  {
    [2 * c - 1] + if c == 9 then [] else WritesFrom(c + 1)
  }

  lemma NamesFirst(k: ScopeId, ks: seq<ScopeId>)
    ensures Names([k] + ks) == [Name(k)] + Names(ks)
  {
  }

  lemma JoinNames(k: ScopeId, ks: seq<ScopeId>)
    requires ks != []
    ensures Join(Names([k] + ks)) == Name(k) + "," + Join(Names(ks))
  {
    NamesFirst(k, ks);
    JoinFirst(Name(k), Names(ks));
  }

  lemma JoinWrites(c: nat)
    requires 1 <= c < 9
    ensures Join(Names(WritesFrom(c))) == Name(2 * c - 1) + "," + Join(Names(WritesFrom(c + 1)))
  {
    JoinNames(2 * c - 1, WritesFrom(c + 1));
  }

  /** The pattern is the nine write scopes, in order. */
  lemma PatternIsWrites()
    ensures Join(Names(WritesFrom(1))) == ALL_WRITES
  {
    WriteNames();
    assert Names(WritesFrom(9)) == [Name(17)];
    JoinWrites(8);
    JoinWrites(7);
    JoinWrites(6);
    JoinWrites(5);
    JoinWrites(4);
    JoinWrites(3);
    JoinWrites(2);
    JoinWrites(1);
  }

  lemma WriteChosen(x: Bitmap, c: nat)
    requires ALL_BITS <= x && 1 <= c <= 9
    ensures Chosen(x, 2 * c) == Chosen(x, 2 * c - 1) + [2 * c - 1]
    ensures Chosen(x, 2 * c + 1) == Chosen(x, 2 * c)
  {
    assert 2 * c in ALL_BITS && 2 * c + 1 in ALL_BITS;
    CoveredBits(x, 2 * c - 1, 2 * c + 1);
    if c < 9 {
      assert 2 * c in Covered(x, 2 * c);
      assert Bits(2 * c) == {2 * c};
    } else {
      assert 18 in Covered(x, 18);
      assert Bits(18) == {18};
    }
  }

  lemma MoveOne(a: seq<ScopeId>, a': seq<ScopeId>, k: ScopeId, b: seq<ScopeId>, b': seq<ScopeId>, all: seq<ScopeId>)
    requires a' == a + [k] && b == [k] + b' && a + b == all
    ensures a' + b' == all
  {
  }

  /** public-only, if it is held. */
  function Lead(x: Bitmap): seq<ScopeId> {
    if 1 in x then [0] else []
  }

  lemma FirstChosen(x: Bitmap)
    ensures Chosen(x, 1) == Lead(x)
  {
    assert Bits(0) == {1};
  }

  lemma NextWrite(x: Bitmap, c: nat, k: nat, all: seq<ScopeId>)
    requires ALL_BITS <= x && 1 <= c < 9 && k == 2 * c - 1
    requires Chosen(x, k) + WritesFrom(c) == all
    ensures Chosen(x, k + 2) + WritesFrom(c + 1) == all
  {
    WriteChosen(x, c);
    MoveOne(Chosen(x, k), Chosen(x, k + 2), k, WritesFrom(c), WritesFrom(c + 1), all);
  }

  /** With every write scope held, exactly those are listed, after public-only if that is held. */
  lemma {:induction false} AllWritesChosen(x: Bitmap, c: nat, k: nat, all: seq<ScopeId>)
    requires ALL_BITS <= x && 1 <= c <= 9 && k == 2 * c - 1
    requires Chosen(x, k) + WritesFrom(c) == all
    ensures Chosen(x, 17) + WritesFrom(9) == all
    decreases 9 - c
  {
    if c < 9 {
      NextWrite(x, c, k, all);
      AllWritesChosen(x, c + 1, k + 2, all);
    }
  }

  lemma AllWritesListed(x: Bitmap)
    requires ALL_BITS <= x
    ensures Chosen(x, 19) == Lead(x) + WritesFrom(1)
  {
    FirstChosen(x);
    AllWritesChosen(x, 1, 1, Lead(x) + WritesFrom(1));
    WriteChosen(x, 9);
    assert WritesFrom(9) == [17];
  }
}
