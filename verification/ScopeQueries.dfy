/**
 What `HasScope` and `HasAnyScope` answer (models/auth/access_token_scope.go:305-345), in terms
 of the pieces of the scope string and the scopes each piece grants.
 */
module ScopeQueries {
  import opened ScopeText
  import opened Scopes
  import opened ScopePrint
  import opened ScopeRoundTrip

  /** "all" or one of the nineteen listed scopes. */
  ghost predicate Known(name: string) {
    name == "all" || exists k: ScopeId :: Name(k) == name
  }

  /** Some piece of the string grants scope `k`. */
  ghost predicate GrantsOne(s: string, k: ScopeId) {
    exists piece :: piece in Split(s) && Grants(piece, k)
  }

  /** The string grants `name`; it grants "all" when it grants the nine write scopes. */
  ghost predicate Granted(s: string, name: string) {
    if name == "all" then forall k: ScopeId :: k % 2 == 1 ==> GrantsOne(s, k)
    else exists k: ScopeId :: Name(k) == name && GrantsOne(s, k)
  }

  lemma LookupIff(name: string)
    ensures BitsOf(name).Ok? <==> Known(name)
    ensures BitsOf(name).InvalidScope? ==> BitsOf(name).name == name
  {
    if k: ScopeId :| Name(k) == name {
      LookupName(k);
    }
  }

  /** The listed names that are not write scopes. */
  lemma ReadNames()
    ensures Name(0) == "public-only"
    ensures Name(2) == "read:activitypub" && Name(4) == "read:admin" && Name(6) == "read:misc"
    ensures Name(8) == "read:notification"
  {
  }

  lemma MoreReadNames()
    ensures Name(10) == "read:organization" && Name(12) == "read:package"
    ensures Name(14) == "read:issue" && Name(16) == "read:repository" && Name(18) == "read:user"
  {
  }

  /** A bit pattern contains all write scopes exactly when it contains each of them. */
  lemma AllIsEach(x: Bitmap)
    requires Closed(x)
    ensures ALL_BITS <= x <==> forall k: ScopeId :: k % 2 == 1 ==> Bits(k) <= x
  {
    if forall k: ScopeId :: k % 2 == 1 ==> Bits(k) <= x {
      forall b | b in ALL_BITS
        ensures b in x
      {
        var k: ScopeId := if b % 2 == 1 then b - 2 else b - 1;
        assert k % 2 == 1 && b in Bits(k);
      }
    }
  }

  lemma HoldsListed(s: string, k: ScopeId)
    requires ParseScope(s).Ok?
    ensures Bits(k) <= ParseScope(s).value <==> GrantsOne(s, k)
  {
    HasScopeMeaning(s, k);
    LookupName(k);
    ParsedIsClosed(Split(s));
    HoldsOne(ParseScope(s).value, k);
    DecidingBit(ParseScope(s).value, k);
  }

  /** One required name: unknown, or held exactly when it is granted. */
  lemma HoldsMeans(s: string, name: string)
    requires ParseScope(s).Ok?
    ensures Holds(ParseScope(s).value, name) == if Known(name) then Ok(Granted(s, name)) else InvalidScope(name)
  {
    LookupIff(name);
    var x := ParseScope(s).value;
    if name == "all" {
      ParsedIsClosed(Split(s));
      AllIsEach(x);
      forall k: ScopeId ensures Bits(k) <= x <==> GrantsOne(s, k) { HoldsListed(s, k); }
    } else if Known(name) {
      var k: ScopeId :| Name(k) == name;
      LookupName(k);
      HoldsListed(s, k);
      forall j: ScopeId | Name(j) == name ensures j == k { NameInjective(j, k); }
    }
  }

  /** Known and granted: such a name does not end the loop of `HasScope`. */
  ghost predicate Passes(s: string, name: string) {
    Known(name) && Granted(s, name)
  }

  /** Known and not granted: such a name does not end the loop of `HasAnyScope`. */
  ghost predicate Misses(s: string, name: string) {
    Known(name) && !Granted(s, name)
  }

  /** Name `i` is the first not to pass. */
  ghost predicate FirstFailure(s: string, names: seq<string>, i: nat) {
    i < |names| && !Passes(s, names[i]) && forall j :: 0 <= j < i ==> Passes(s, names[j])
  }

  /** Name `i` is the first that is granted or unknown. */
  ghost predicate FirstDecision(s: string, names: seq<string>, i: nat) {
    i < |names| && !Misses(s, names[i]) && forall j :: 0 <= j < i ==> Misses(s, names[j])
  }

  lemma {:induction false} EachUpTo(s: string, names: seq<string>, i: nat)
    requires ParseScope(s).Ok? && i <= |names| && forall j :: 0 <= j < i ==> Passes(s, names[j])
    ensures HoldsEach(ParseScope(s).value, names) == HoldsEach(ParseScope(s).value, names[i..])
  {
    if i > 0 {
      HoldsMeans(s, names[0]);
      EachUpTo(s, names[1..], i - 1);
      assert names[1..][i - 1..] == names[i..];
    } else {
      assert names[0..] == names;
    }
  }

  lemma {:induction false} SomeUpTo(s: string, names: seq<string>, i: nat)
    requires ParseScope(s).Ok? && i <= |names| && forall j :: 0 <= j < i ==> Misses(s, names[j])
    ensures HoldsSome(ParseScope(s).value, names) == HoldsSome(ParseScope(s).value, names[i..])
  {
    if i > 0 {
      HoldsMeans(s, names[0]);
      SomeUpTo(s, names[1..], i - 1);
      assert names[1..][i - 1..] == names[i..];
    } else {
      assert names[0..] == names;
    }
  }

  /** What the first name that does not pass decides. */
  lemma EachAt(s: string, names: seq<string>, i: nat)
    requires ParseScope(s).Ok? && FirstFailure(s, names, i)
    ensures HasScope(s, names) == if Known(names[i]) then Ok(false) else InvalidScope(names[i])
  {
    EachUpTo(s, names, i);
    HoldsMeans(s, names[i]);
  }

  lemma SomeAt(s: string, names: seq<string>, i: nat)
    requires ParseScope(s).Ok? && FirstDecision(s, names, i)
    ensures HasAnyScope(s, names) == if Known(names[i]) then Ok(true) else InvalidScope(names[i])
  {
    SomeUpTo(s, names, i);
    HoldsMeans(s, names[i]);
  }

  /** The position of the first name with a property, or the number of names. */
  lemma FindFirst(p: string -> bool, names: seq<string>) returns (i: nat)
    ensures i <= |names| && (i < |names| ==> p(names[i]))
    ensures forall j :: 0 <= j < i ==> !p(names[j])
  {
    i := 0;
    while i < |names| && !p(names[i])
      invariant i <= |names| && forall j :: 0 <= j < i ==> !p(names[j])
    {
      i := i + 1;
    }
  }

  /** Either all names pass, or one of them is the first that does not. */
  lemma EachCases(s: string, names: seq<string>)
    requires ParseScope(s).Ok?
    ensures ((forall n :: n in names ==> Passes(s, n)) && HasScope(s, names) == Ok(true))
            || exists i: nat :: FirstFailure(s, names, i)
  {
    var i := FindFirst(n => !Passes(s, n), names);
    if i == |names| {
      EachUpTo(s, names, i);
      assert names[i..] == [];
    } else {
      assert FirstFailure(s, names, i);
    }
  }

  lemma SomeCases(s: string, names: seq<string>)
    requires ParseScope(s).Ok?
    ensures ((forall n :: n in names ==> Misses(s, n)) && HasAnyScope(s, names) == Ok(false))
            || exists i: nat :: FirstDecision(s, names, i)
  {
    var i := FindFirst(n => !Misses(s, n), names);
    if i == |names| {
      SomeUpTo(s, names, i);
      assert names[i..] == [];
    } else {
      assert FirstDecision(s, names, i);
    }
  }

  /**
   `HasScope` with any list of names. True exactly when every name is known and granted;
   false exactly when the first name that is not is a known one; and the error exactly when
   that name is unknown, and names it.
   */
  lemma HasScopeIff(s: string, names: seq<string>, n: string)
    requires ParseScope(s).Ok?
    ensures HasScope(s, names) == Ok(true) <==> forall m :: m in names ==> Known(m) && Granted(s, m)
    ensures HasScope(s, names) == Ok(false) <==>
      exists i: nat :: FirstFailure(s, names, i) && Known(names[i])
    ensures HasScope(s, names) == InvalidScope(n) <==>
      exists i: nat :: FirstFailure(s, names, i) && names[i] == n && !Known(n)
  {
    EachCases(s, names);
    if i: nat :| FirstFailure(s, names, i) {
      EachAt(s, names, i);
    }
    forall i: nat | FirstFailure(s, names, i)
      ensures HasScope(s, names) == if Known(names[i]) then Ok(false) else InvalidScope(names[i])
    {
      EachAt(s, names, i);
    }
  }

  /**
   `HasAnyScope` with any list of names. True exactly when some name is granted and all before
   it are known; false exactly when all are known and none is granted; and the error exactly
   for the first unknown name, when nothing before it is granted.
   */
  lemma HasAnyScopeIff(s: string, names: seq<string>, n: string)
    requires ParseScope(s).Ok?
    ensures HasAnyScope(s, names) == Ok(true) <==>
      exists i: nat :: i < |names| && Passes(s, names[i]) && forall j :: 0 <= j < i ==> Known(names[j])
    ensures HasAnyScope(s, names) == Ok(false) <==> forall m :: m in names ==> Known(m) && !Granted(s, m)
    ensures HasAnyScope(s, names) == InvalidScope(n) <==>
      exists i: nat :: FirstDecision(s, names, i) && names[i] == n && !Known(n)
  {
    SomeCases(s, names);
    forall i: nat | FirstDecision(s, names, i)
      ensures HasAnyScope(s, names) == if Known(names[i]) then Ok(true) else InvalidScope(names[i])
    {
      SomeAt(s, names, i);
    }
    if i: nat :| i < |names| && Passes(s, names[i]) && forall j :: 0 <= j < i ==> Known(names[j]) {
      assert names[i] in names && !Misses(s, names[i]);
      var d: nat :| FirstDecision(s, names, d);
      assert d <= i;
      assert Known(names[d]);
    }
  }

  /** Piece `i` is the first that is neither empty nor known. */
  ghost predicate FirstUnknown(pieces: seq<string>, i: nat) {
    i < |pieces| && pieces[i] != "" && !Known(pieces[i])
    && forall j :: 0 <= j < i ==> pieces[j] == "" || Known(pieces[j])
  }

  lemma {:induction false} ParseFailsAt(pieces: seq<string>, i: nat)
    requires FirstUnknown(pieces, i)
    ensures ParsePieces(pieces) == InvalidScope(pieces[i])
  {
    LookupIff(pieces[0]);
    if i > 0 {
      assert pieces[0] == "" || Known(pieces[0]);
      ParseFailsAt(pieces[1..], i - 1);
    }
  }

  /** Every piece is empty or known, or one is the first that is neither. */
  lemma PieceCases(pieces: seq<string>)
    ensures (forall p :: p in pieces ==> p == "" || Known(p)) || exists i: nat :: FirstUnknown(pieces, i)
  {
    var i := FindFirst(p => p != "" && !Known(p), pieces);
    if i < |pieces| {
      assert FirstUnknown(pieces, i);
    }
  }

  lemma PiecesOkIff(pieces: seq<string>)
    ensures ParsePieces(pieces).Ok? <==> forall p :: p in pieces ==> p == "" || Known(p)
  {
    ParseOkIff(pieces);
    forall p | p in pieces ensures BitsOf(p).Ok? <==> Known(p) { LookupIff(p); }
  }

  lemma PiecesErrorIff(pieces: seq<string>, n: string)
    ensures ParsePieces(pieces) == InvalidScope(n) <==> exists i: nat :: FirstUnknown(pieces, i) && pieces[i] == n
  {
    PieceCases(pieces);
    PiecesOkIff(pieces);
    forall i: nat | FirstUnknown(pieces, i) ensures ParsePieces(pieces) == InvalidScope(pieces[i]) { ParseFailsAt(pieces, i); }
  }

  /** That error is then what `HasScope`, `HasAnyScope` and `Normalize` report. */
  lemma ErrorsPassThrough(s: string, names: seq<string>, n: string)
    requires ParseScope(s) == InvalidScope(n)
    ensures HasScope(s, names) == InvalidScope(n) && HasAnyScope(s, names) == InvalidScope(n)
    ensures Normalize(s) == InvalidScope(n)
  {
  }

  /**
   A string parses exactly if every piece is empty or known, and otherwise the error names the
   first piece that is neither.
   */
  lemma ParseErrorIff(s: string, pieces: seq<string>, n: string)
    requires pieces == Split(s)
    ensures ParseScope(s) == InvalidScope(n) <==> exists i: nat :: FirstUnknown(pieces, i) && pieces[i] == n
    ensures ParseScope(s).Ok? <==> forall p :: p in pieces ==> p == "" || Known(p)
  {
    PiecesErrorIff(pieces, n);
    PiecesOkIff(pieces);
  }
}
