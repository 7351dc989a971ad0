/**
 Normalising a token scope (models/auth/access_token_scope.go:283-345) keeps what it grants.
 */
module ScopeRoundTrip {
  import opened ScopeText
  import opened Scopes
  import opened ScopePrint

  // ----- the rewrite applies exactly when all write scopes are held

  lemma {:induction false} CountNone(c: char, s: string)
    requires forall i :: 0 <= i < |s| ==> s[i] != c
    ensures Count(c, s) == 0
  {
    if s != [] {
      CountNone(c, s[1..]);
    }
  }

  lemma CategoriesHaveNoW(c: nat)
    requires c < 9
    ensures forall i :: 0 <= i < |CATEGORIES[c]| ==> CATEGORIES[c][i] != 'w'
  {
  }

  /** Only write scopes contain a 'w', and they contain one. */
  lemma CountName(k: ScopeId)
    ensures Count('w', Name(k)) == k % 2
  {
    if k == 0 {
      CountNone('w', "public-only");
    } else {
      var prefix := if k % 2 == 1 then "write:" else "read:";
      var c := if k % 2 == 1 then k / 2 else k / 2 - 1;
      assert Name(k) == prefix + CATEGORIES[c];
      CategoriesHaveNoW(c);
      CountNone('w', CATEGORIES[c]);
      CountAppend('w', prefix, CATEGORIES[c]);
      CountNone('w', "rite:");
      assert "write:"[1..] == "rite:";
      CountNone('w', "read:");
    }
  }

  function Odds(ks: seq<ScopeId>): nat {
    if ks == [] then 0 else ks[0] % 2 + Odds(ks[1..])
  }

  lemma {:induction false} OddsAppend(a: seq<ScopeId>, k: ScopeId)
    ensures Odds(a + [k]) == Odds(a) + k % 2
  {
    if a != [] {
      assert (a + [k])[1..] == a[1..] + [k];
      OddsAppend(a[1..], k);
    }
  }

  lemma {:induction false} CountNames(ks: seq<ScopeId>)
    ensures CountAll('w', Names(ks)) == Odds(ks)
  {
    if ks != [] {
      assert Names(ks)[1..] == Names(ks[1..]);
      CountName(ks[0]);
      CountNames(ks[1..]);
    }
  }

  /** Each write scope that is not held leaves one fewer among those listed. */
  lemma {:induction false} FewWrites(x: Bitmap, k: nat, missing: ScopeId)
    requires k <= 19 && missing % 2 == 1 && !(Bits(missing) <= x)
    ensures Odds(Chosen(x, k)) <= k / 2 - (if missing < k then 1 else 0)
  {
    if k > 0 {
      FewWrites(x, k - 1, missing);
      OddsAppend(Chosen(x, k - 1), k - 1);
    }
  }

  lemma {:induction false} OddsOfWrites(c: nat)
    requires 1 <= c <= 9
    ensures Odds(WritesFrom(c)) == 10 - c
    decreases 9 - c
  {
    if c < 9 {
      OddsOfWrites(c + 1);
      assert WritesFrom(c)[1..] == WritesFrom(c + 1);
    }
  }

  /** The pattern does not occur in what is listed for a bitmap that lacks a write scope. */
  lemma PatternAbsent(x: Bitmap, i: nat)
    requires !(ALL_BITS <= x)
    ensures !OccursAt(Join(Names(Chosen(x, 19))), ALL_WRITES, i)
  {
    var text := Join(Names(Chosen(x, 19)));
    var b :| b in ALL_BITS && b !in x;
    var missing: ScopeId := if b % 2 == 1 then b - 2 else b - 1;
    assert b in Bits(missing);
    FewWrites(x, 19, missing);
    CountNames(Chosen(x, 19));
    CountJoin('w', Names(Chosen(x, 19)));
    PatternIsWrites();
    OddsOfWrites(1);
    CountNames(WritesFrom(1));
    CountJoin('w', Names(WritesFrom(1)));
    if OccursAt(text, ALL_WRITES, i) {
      CountOccurrence('w', text, ALL_WRITES, i);
    }
  }

  lemma PatternShape()
    ensures |ALL_WRITES| > 0 && ALL_WRITES[0] == 'w'
  {
  }

  /** The rewrite of a list that is the pattern, with or without public-only before it. */
  lemma RewriteWhole(w: seq<string>, pattern: string)
    requires w != [] && pattern == Join(w) && |pattern| > 0 && pattern[0] == 'w'
    ensures ReplaceAll(pattern, pattern, "all") == "all"
    ensures ReplaceAll(Join(["public-only"] + w), pattern, "all") == "public-only" + "," + "all"
  {
    JoinFirst("public-only", w);
    ReplaceAfter("public-only" + ",", pattern, pattern, "all");
    ReplaceWhole(pattern, "all");
  }

  lemma AllText(x: Bitmap)
    requires ALL_BITS <= x
    ensures Join(Names(Chosen(x, 19))) ==
      if 1 in x then Join(["public-only"] + Names(WritesFrom(1))) else Join(Names(WritesFrom(1)))
  {
    AllWritesListed(x);
    NamesFirst(0, WritesFrom(1));
    assert [] + WritesFrom(1) == WritesFrom(1);
  }

  /** With all nine write scopes held, `toScope` says "all". */
  lemma PrintAll(x: Bitmap)
    requires ALL_BITS <= x
    ensures PrintScope(x) == if 1 in x then "public-only" + "," + "all" else "all"
  {
    AllText(x);
    PatternShape();
    PatternIsWrites();
    RewriteWhole(Names(WritesFrom(1)), ALL_WRITES);
  }

  /** Otherwise it rewrites nothing. */
  lemma PrintSome(x: Bitmap)
    requires !(ALL_BITS <= x)
    ensures PrintScope(x) == Join(Names(Chosen(x, 19)))
  {
    PatternShape();
    var text := Join(Names(Chosen(x, 19)));
    forall i: nat ensures !OccursAt(text, ALL_WRITES, i) { PatternAbsent(x, i); }
    ReplaceNothing(text, ALL_WRITES, "all");
  }

  // ----- round trip

  lemma {:induction false} ParseNames(ks: seq<ScopeId>)
    ensures ParsePieces(Names(ks)).Ok?
    ensures forall b :: b in ParsePieces(Names(ks)).value <==> exists i :: i in ks && b in Bits(i)
  {
    if ks != [] {
      var r := ParsePieces(Names(ks[1..]));
      ParseNames(ks[1..]);
      assert Names(ks)[1..] == Names(ks[1..]);
      LookupName(ks[0]);
      NamesHaveNoComma(ks[0]);
      assert ParsePieces(Names(ks)) == Ok(Bits(ks[0]) + r.value);
      assert forall i :: i in ks <==> i == ks[0] || i in ks[1..];
    }
  }

  /** A single known name without a comma parses to its bits. */
  lemma ParseOne(name: string)
    requires name != "" && NoComma(name) && BitsOf(name).Ok?
    ensures ParseScope(name) == BitsOf(name)
  {
    CommaIs(name, |name|);
    assert Split(name) == [name];
    ParseSingleton(name, BitsOf(name).value);
  }

  lemma ParseSingleton(name: string, bits: Bitmap)
    requires name != "" && BitsOf(name) == Ok(bits)
    ensures ParsePieces([name]) == Ok(bits)
  {
    assert [name][1..] == [];
    assert ParsePieces([]) == Ok({});
    assert bits + {} == bits;
  }

  lemma ParseAll()
    ensures ParseScope("all") == Ok(ALL_BITS)
  {
    ParseOne("all");
  }

  lemma ParsePair(a: string, b: string, x: Bitmap, y: Bitmap)
    requires ParseScope(a) == Ok(x) && ParseScope(b) == Ok(y)
    ensures ParseScope(a + "," + b) == Ok(x + y)
  {
    ParseConcatenation(a, b);
  }

  lemma ParsePublicAll()
    ensures ParseScope("public-only" + "," + "all") == Ok({1} + ALL_BITS)
  {
    ParseAll();
    LookupName(0);
    ParseOne(Name(0));
    ParsePair(Name(0), "all", {1}, ALL_BITS);
  }

  /** Splitting what is joined gives the names back; joining none gives the empty string. */
  lemma ParseJoin(ks: seq<ScopeId>)
    ensures ParseScope(Join(Names(ks))) == ParsePieces(Names(ks))
  {
    if ks == [] {
      EmptyScope();
    } else {
      forall p | p in Names(ks) ensures NoComma(p) {
        var i :| 0 <= i < |ks| && Names(ks)[i] == p;
        NamesHaveNoComma(ks[i]);
      }
      SplitJoin(Names(ks));
    }
  }

  lemma ParseChosen(x: Bitmap)
    requires Closed(x)
    ensures ParseScope(Join(Names(Chosen(x, 19)))) == Ok(x)
  {
    var ks := Chosen(x, 19);
    ParseNames(ks);
    ParseJoin(ks);
    var y := ParsePieces(Names(ks)).value;
    forall b: nat ensures b in y <==> b in x { ChosenIsAll(x, b); }
    assert y == x;
  }

  /** Printing a bitmap that parsing can produce, and parsing that, gives the bitmap back. */
  lemma ParsePrint(x: Bitmap)
    requires Closed(x)
    ensures ParseScope(PrintScope(x)) == Ok(x)
  {
    if ALL_BITS <= x {
      PrintAll(x);
      assert x == if 1 in x then {1} + ALL_BITS else ALL_BITS;
      ParseAll();
      ParsePublicAll();
    } else {
      PrintSome(x);
      ParseChosen(x);
    }
  }

  lemma BitsClosed(k: ScopeId)
    ensures Closed(Bits(k)) && Closed(ALL_BITS)
  {
  }

  /** Every bitmap that parsing produces is closed. */
  lemma {:induction false} ParsedIsClosed(pieces: seq<string>)
    requires ParsePieces(pieces).Ok?
    ensures Closed(ParsePieces(pieces).value)
  {
    if pieces != [] {
      ParsedIsClosed(pieces[1..]);
      if pieces[0] != "" {
        var k := IndexFrom(pieces[0], 0);
        BitsClosed(if k < 19 then k else 0);
      }
    }
  }

  // ----- Normalize, HasScope, HasAnyScope

  function Normalize(s: string): Result<string> {
    match ParseScope(s)
    case InvalidScope(name) => InvalidScope(name)
    case Ok(x) => Ok(PrintScope(x))
  }

  /** `hasScope` on a bitmap. */
  function Holds(x: Bitmap, name: string): Result<bool> {
    match BitsOf(name)
    case InvalidScope(n) => InvalidScope(n)
    case Ok(bits) => Ok(bits <= x)
  }

  /** The loop of `HasScope`: stops at the first scope that is not held or not known. */
  function HoldsEach(x: Bitmap, names: seq<string>): Result<bool> {
    if names == [] then Ok(true)
    else
      match Holds(x, names[0])
      case InvalidScope(n) => InvalidScope(n)
      case Ok(has) => if has then HoldsEach(x, names[1..]) else Ok(false)
  }

  /** The loop of `HasAnyScope`: stops at the first scope that is held or not known. */
  function HoldsSome(x: Bitmap, names: seq<string>): Result<bool> {
    if names == [] then Ok(false)
    else
      match Holds(x, names[0])
      case InvalidScope(n) => InvalidScope(n)
      case Ok(has) => if has then Ok(true) else HoldsSome(x, names[1..])
  }

  function HasScope(s: string, names: seq<string>): Result<bool> {
    match ParseScope(s)
    case InvalidScope(n) => InvalidScope(n)
    case Ok(x) => HoldsEach(x, names)
  }

  function HasAnyScope(s: string, names: seq<string>): Result<bool> {
    match ParseScope(s)
    case InvalidScope(n) => InvalidScope(n)
    case Ok(x) => HoldsSome(x, names)
  }

  /** Normalising changes no permission, is idempotent, and fails exactly on what does not parse. */
  lemma NormalizePreserves(s: string, names: seq<string>)
    ensures Normalize(s).Ok? <==> AllKnown(Split(s))
    ensures Normalize(s).Ok? ==>
      ParseScope(Normalize(s).value) == ParseScope(s)
      && Normalize(Normalize(s).value) == Normalize(s)
      && HasScope(Normalize(s).value, names) == HasScope(s, names)
      && HasAnyScope(Normalize(s).value, names) == HasAnyScope(s, names)
  {
    ParseOkIff(Split(s));
    if ParseScope(s).Ok? {
      ParsedIsClosed(Split(s));
      ParsePrint(ParseScope(s).value);
    }
  }

  /** Two scope strings have the same normal form exactly when they grant the same. */
  lemma NormalFormIsCanonical(s: string, t: string)
    requires Normalize(s).Ok? && Normalize(t).Ok?
    ensures Normalize(s) == Normalize(t) <==> ParseScope(s) == ParseScope(t)
  {
    NormalizePreserves(s, []);
    NormalizePreserves(t, []);
  }

  // ----- what a scope string grants

  /** The pieces that grant scope `k`: itself, the write scope over a read scope, or "all". */
  predicate Grants(piece: string, k: ScopeId) {
    piece == Name(k) || (k > 0 && piece == "all") || (k > 0 && k % 2 == 0 && piece == Name(k - 1))
  }

  /** The bit that decides whether scope `k` is held. */
  function Deciding(k: ScopeId): nat {
    if k == 0 then 1 else if k % 2 == 1 then k + 2 else k
  }

  lemma DecidingOwner(i: ScopeId, k: ScopeId)
    ensures Deciding(k) in Bits(i) <==> i == k || (k > 0 && k % 2 == 0 && i == k - 1)
  {
  }

  lemma NameInjective(i: ScopeId, k: ScopeId)
    ensures Name(i) == Name(k) <==> i == k
  {
    if i < k {
      NamesDistinct(i, k);
    } else if k < i {
      NamesDistinct(k, i);
    }
  }

  /** Under any naming that tells scopes apart, a name grants the scopes whose deciding bit it has. */
  lemma NamingDecides(name: ScopeId -> string, i: ScopeId, k: ScopeId)
    requires name(i) != "all" && forall a: ScopeId, b: ScopeId :: name(a) == name(b) ==> a == b
    ensures name(i) == name(k) || (k > 0 && name(i) == "all") || (k > 0 && k % 2 == 0 && name(i) == name(k - 1))
            <==> Deciding(k) in Bits(i)
  {
    DecidingOwner(i, k);
  }

  lemma GrantByName(i: ScopeId, k: ScopeId)
    ensures Grants(Name(i), k) <==> Deciding(k) in Bits(i)
  {
    AllIsNoName(i);
    forall a: ScopeId, b: ScopeId ensures Name(a) == Name(b) ==> a == b {
      NameInjective(a, b);
    }
    NamingDecides(Name, i, k);
  }

  lemma UnknownGrantsNothing(piece: string, k: ScopeId)
    requires BitsOf(piece).InvalidScope?
    ensures !Grants(piece, k)
  {
    LookupName(k);
    if k > 0 {
      LookupName(k - 1);
    }
  }

  lemma GrantIsBit(piece: string, k: ScopeId)
    ensures BitsOf(piece).Ok? && Deciding(k) in BitsOf(piece).value <==> Grants(piece, k)
  {
    if piece == "all" {
      AllIsNoName(k);
    } else if BitsOf(piece).Ok? {
      LookupName(IndexFrom(piece, 0));
      GrantByName(IndexFrom(piece, 0), k);
    } else {
      UnknownGrantsNothing(piece, k);
    }
  }

  lemma DecidingBit(x: Bitmap, k: ScopeId)
    requires Closed(x)
    ensures Bits(k) <= x <==> Deciding(k) in x
  {
    if k % 2 == 1 && k + 2 in x {
      assert k + 2 - 1 in x;
    }
  }

  lemma HoldsOne(x: Bitmap, k: ScopeId)
    requires Closed(x)
    ensures HoldsEach(x, [Name(k)]) == Ok(Deciding(k) in x)
  {
    LookupName(k);
    DecidingBit(x, k);
    assert [Name(k)][1..] == [];
  }

  /** A listed scope is held exactly when some piece of the string grants it. */
  lemma HasScopeMeaning(s: string, k: ScopeId)
    requires ParseScope(s).Ok?
    ensures HasScope(s, [Name(k)]) == Ok(exists piece :: piece in Split(s) && Grants(piece, k))
  {
    var b := Deciding(k);
    ParsedIsClosed(Split(s));
    HoldsOne(ParseScope(s).value, k);
    ParseUnion(Split(s), b);
    forall piece: string
      ensures piece != "" && BitsOf(piece).Ok? && b in BitsOf(piece).value <==> Grants(piece, k)
    {
      GrantIsBit(piece, k);
      EmptyGrantsNothing(k);
    }
  }

  lemma EmptyGrantsNothing(k: ScopeId)
    ensures !Grants("", k)
  {
    AllIsNoName(k);
    if k > 0 {
      AllIsNoName(k - 1);
    }
  }
}
