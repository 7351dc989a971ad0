/**
 models/auth/access_token_scope.go: token scopes as a comma-separated string and as a bitmap.
 A uint64 bitmap is written as the set of its bit positions: `|` is union, `&` intersection.
 */
module Scopes {
  import opened ScopeText

  type Bitmap = set<nat>

  datatype Result<+T> = Ok(value: T) | InvalidScope(name: string)

  const CATEGORIES: seq<string> := [
    "activitypub", "admin", "misc", "notification", "organization", "package", "issue", "repository", "user"]

  /** The long pattern that `toScope` rewrites to "all". */
  const ALL_WRITES :=
    "write:activitypub" + "," + ("write:admin" + "," + ("write:misc" + "," + ("write:notification" + "," +
    ("write:organization" + "," + ("write:package" + "," + ("write:issue" + "," + ("write:repository" + "," + "write:user")))))))

  /** How many scopes `allAccessTokenScopes` lists. */
  const SCOPES := 19

  type ScopeId = k: nat | k < 19

  /** Scope `k` of that list: public-only, then write and read of each category. */
  function Name(k: ScopeId): string {
    if k == 0 then "public-only"
    else if k % 2 == 1 then "write:" + CATEGORIES[k / 2]
    else "read:" + CATEGORIES[k / 2 - 1]
  }

  /** Its bits, from the iota constants: a write scope has the read bit as well. */
  function Bits(k: ScopeId): Bitmap {
    if k == 0 then {1} else if k % 2 == 1 then {k + 1, k + 2} else {k}
  }

  /** The bits of all write scopes, which are 2 to 19; not the public-only bit. */
  const ALL_BITS: Bitmap := set b: nat | 2 <= b < 20

  /** The position of a scope name in the list from `k` on, or SCOPES. */
  function IndexFrom(name: string, k: nat): (i: nat)
    requires k <= SCOPES
    ensures k <= i <= SCOPES
    ensures i < SCOPES ==> Name(i) == name
    ensures forall j :: k <= j < i ==> Name(j) != name
    decreases SCOPES - k
  {
    if k == SCOPES || Name(k) == name then k else IndexFrom(name, k + 1)
  }

  /** Lookup in `allAccessTokenScopeBits`. */
  function BitsOf(name: string): Result<Bitmap> {
    if name == "all" then Ok(ALL_BITS)
    else
      var k := IndexFrom(name, 0);
      if k < SCOPES then Ok(Bits(k)) else InvalidScope(name)
  }

  /** Drop empty pieces, OR the bits, fail on the first unknown piece. */
  function ParsePieces(pieces: seq<string>): Result<Bitmap> {
    if pieces == [] then Ok({})
    else if pieces[0] == "" then ParsePieces(pieces[1..])
    else
      match BitsOf(pieces[0])
      case InvalidScope(name) => InvalidScope(name)
      case Ok(bits) => With(bits, ParsePieces(pieces[1..]))
  }

  function With(bits: Bitmap, r: Result<Bitmap>): Result<Bitmap> {
    match r
    case InvalidScope(name) => InvalidScope(name)
    case Ok(rest) => Ok(bits + rest)
  }

  function ParseScope(s: string): Result<Bitmap> {
    ParsePieces(Split(s))
  }

  /** `strings.IndexByte(s, ',')`. */
  method IndexComma(s: string) returns (i: int)
    ensures i == if Comma(s) == |s| then -1 else Comma(s)
  {
    var k := 0;
    while k < |s| && s[k] != ','
      invariant k <= |s| && forall j :: 0 <= j < k ==> s[j] != ','
    {
      k := k + 1;
    }
    CommaIs(s, k);
    i := if k < |s| then k else -1;
  }

  /** What `parse` does with one piece, given the result for the rest. */
  function ParsePiece(piece: string, rest: Result<Bitmap>): Result<Bitmap> {
    if piece == "" then rest
    else
      match BitsOf(piece)
      case InvalidScope(name) => InvalidScope(name)
      case Ok(bits) => With(bits, rest)
  }

  /** The string after the first comma. */
  function Rest(s: string): string {
    if Comma(s) + 1 < |s| then s[Comma(s) + 1..] else ""
  }

  lemma FirstPiece(s: string)
    requires s != ""
    ensures ParseScope(s) == ParsePiece(s[..Comma(s)], ParseScope(Rest(s)))
  {
    var i := Comma(s);
    EmptyScope();
    if i == |s| {
      assert Split(s) == [s] && s[..i] == s;
      assert [s][1..] == [];
    } else {
      assert s[i + 1..] == Rest(s);
      assert Split(s) == [s[..i]] + Split(Rest(s));
      assert ([s[..i]] + Split(Rest(s)))[1..] == Split(Rest(s));
    }
  }

  lemma WithTwice(a: Bitmap, b: Bitmap, r: Result<Bitmap>)
    ensures With(a, With(b, r)) == With(a + b, r)
  {
    if r.Ok? {
      assert a + (b + r.value) == (a + b) + r.value;
    }
  }

  lemma EmptyScope()
    ensures ParseScope("") == Ok({})
  {
    assert Split("") == [""];
    assert ParsePieces([""]) == ParsePieces([""][1..]);
  }

  lemma WithNothing(r: Result<Bitmap>)
    ensures With({}, r) == r
  {
    if r.Ok? {
      assert {} + r.value == r.value;
    }
  }

  /** One turn of the loop in `parse`: takes the first piece off the string. */
  method NextPiece(s: string) returns (v: string, rest: string)
    requires s != ""
    ensures v == s[..Comma(s)] && rest == Rest(s)
  {
    var i := IndexComma(s);
    if i < 0 {
      v, rest := s, "";
    } else if i + 1 >= |s| {
      v, rest := s[..i], "";
    } else {
      v, rest := s[..i], s[i + 1..];
    }
  }

  /** `parse`: the hand-written scanner does what splitting at commas would. */
  method Parse(s: string) returns (r: Result<Bitmap>)
    ensures r == ParseScope(s)
  {
    var bitmap: Bitmap, remaining := {}, s;
    WithNothing(ParseScope(s));
    EmptyScope();
    while |remaining| > 0
      invariant ParseScope(s) == With(bitmap, ParseScope(remaining))
      decreases |remaining|
    {
      FirstPiece(remaining);
      var v, rest := NextPiece(remaining);
      remaining := rest;
      if v == "" {
        continue;
      }
      if v == "all" {
        WithTwice(bitmap, ALL_BITS, ParseScope(remaining));
        bitmap := bitmap + ALL_BITS;
        continue;
      }
      var bits := BitsOf(v);
      if bits.InvalidScope? {
        return bits;
      }
      WithTwice(bitmap, bits.value, ParseScope(remaining));
      bitmap := bitmap + bits.value;
    }
    return Ok(bitmap);
  }

  // ----- what a parsed bitmap holds

  predicate AllKnown(pieces: seq<string>) {
    forall p :: p in pieces && p != "" ==> BitsOf(p).Ok?
  }

  /** Parsing succeeds exactly when every non-empty piece is a scope. */
  lemma {:induction false} ParseOkIff(pieces: seq<string>)
    ensures ParsePieces(pieces).Ok? <==> AllKnown(pieces)
  {
    if pieces != [] {
      ParseOkIff(pieces[1..]);
      assert forall p :: p in pieces <==> p == pieces[0] || p in pieces[1..];
    }
  }

  /** A bit is set exactly when some piece has it. */
  lemma {:induction false} ParseUnion(pieces: seq<string>, b: nat)
    requires ParsePieces(pieces).Ok?
    ensures b in ParsePieces(pieces).value <==>
      exists p :: p in pieces && p != "" && BitsOf(p).Ok? && b in BitsOf(p).value
  {
    if pieces != [] {
      ParseUnion(pieces[1..], b);
      assert forall p :: p in pieces <==> p == pieces[0] || p in pieces[1..];
    }
  }

  /** The order of the pieces, repeats and stray commas do not matter. */
  lemma SamePieces(s: string, t: string)
    requires forall p :: p != "" ==> (p in Split(s) <==> p in Split(t))
    ensures ParseScope(s).Ok? <==> ParseScope(t).Ok?
    ensures ParseScope(s).Ok? ==> ParseScope(s) == ParseScope(t)
  {
    ParseOkIff(Split(s));
    ParseOkIff(Split(t));
    if ParseScope(s).Ok? {
      forall b: nat
        ensures b in ParseScope(s).value <==> b in ParseScope(t).value
      {
        ParseUnion(Split(s), b);
        ParseUnion(Split(t), b);
      }
      assert ParseScope(s).value == ParseScope(t).value;
    }
  }

  lemma {:induction false} PiecesAppend(a: seq<string>, b: seq<string>)
    ensures ParsePieces(a + b) ==
      match ParsePieces(a)
      case InvalidScope(name) => InvalidScope(name)
      case Ok(bits) => With(bits, ParsePieces(b))
  {
    if a == [] {
      assert a + b == b;
      WithNothing(ParsePieces(b));
    } else {
      assert (a + b)[1..] == a[1..] + b;
      PiecesAppend(a[1..], b);
      if a[0] != "" && BitsOf(a[0]).Ok? && ParsePieces(a[1..]).Ok? {
        WithTwice(BitsOf(a[0]).value, ParsePieces(a[1..]).value, ParsePieces(b));
      }
    }
  }

  /** Two scope strings joined by a comma grant what both grant, or fail on the first unknown piece. */
  lemma ParseConcatenation(s: string, t: string)
    ensures ParseScope(s + "," + t) ==
      match ParseScope(s)
      case InvalidScope(name) => InvalidScope(name)
      case Ok(bits) => With(bits, ParseScope(t))
  {
    SplitAppend(s, t);
    PiecesAppend(Split(s), Split(t));
  }
}
