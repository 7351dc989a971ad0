/**
 The Go string functions that models/auth/access_token_scope.go uses: splitting at commas,
 joining with commas, and `strings.ReplaceAll`.
 */
module ScopeText {

  /** Index of the first comma, or the length. */
  function Comma(s: string): (i: nat)
    ensures i <= |s| && (i < |s| ==> s[i] == ',')
    ensures forall j :: 0 <= j < i ==> s[j] != ','
  {
    if s == [] || s[0] == ',' then 0 else 1 + Comma(s[1..])
  }

  predicate NoComma(s: string) {
    forall i :: 0 <= i < |s| ==> s[i] != ','
  }

  /** `strings.Split(s, ",")`. */
  function Split(s: string): (r: seq<string>)
    ensures r != []
    decreases |s|
  {
    var i := Comma(s);
    if i == |s| then [s] else [s[..i]] + Split(s[i + 1..])
  }

  /** `strings.Join(parts, ",")`. */
  function Join(parts: seq<string>): string {
    if parts == [] then ""
    else if |parts| == 1 then parts[0]
    else parts[0] + "," + Join(parts[1..])
  }

  lemma CommaIs(s: string, i: nat)
    requires i <= |s| && (i < |s| ==> s[i] == ',') && forall j :: 0 <= j < i ==> s[j] != ','
    ensures Comma(s) == i
  {
  }

  /** A piece without commas in front is the first piece. */
  lemma SplitFirst(piece: string, rest: string)
    requires NoComma(piece)
    ensures Split(piece + "," + rest) == [piece] + Split(rest)
  {
    var s := piece + "," + rest;
    CommaIs(s, |piece|);
    assert s[..|piece|] == piece && s[|piece| + 1..] == rest;
  }

  lemma Reassociate(a: string, b: string, c: string)
    ensures (a + "," + b) + "," + c == a + "," + (b + "," + c)
  {
  }

  lemma OneMore(piece: string, a: seq<string>, b: seq<string>)
    ensures [piece] + (a + b) == ([piece] + a) + b
  {
  }

  lemma SplitStep(piece: string, rest: string, t: string)
    requires NoComma(piece) && Split(rest + "," + t) == Split(rest) + Split(t)
    ensures Split((piece + "," + rest) + "," + t) == Split(piece + "," + rest) + Split(t)
  {
    Reassociate(piece, rest, t);
    SplitFirst(piece, rest);
    SplitFirst(piece, rest + "," + t);
    OneMore(piece, Split(rest), Split(t));
  }

  lemma SplitOne(s: string)
    requires NoComma(s)
    ensures Split(s) == [s]
  {
    CommaIs(s, |s|);
  }

  lemma CommaCut(s: string, i: nat)
    requires i < |s| && s[i] == ',' && forall j :: 0 <= j < i ==> s[j] != ','
    ensures NoComma(s[..i]) && s == s[..i] + "," + s[i + 1..]
  {
  }

  /** Splitting two strings joined by a comma gives the pieces of both. */
  lemma {:induction false} SplitAppend(s: string, t: string)
    ensures Split(s + "," + t) == Split(s) + Split(t)
    decreases |s|
  {
    if Comma(s) == |s| {
      SplitOne(s);
      SplitFirst(s, t);
    } else {
      var rest := s[Comma(s) + 1..];
      SplitAppend(rest, t);
      CommaCut(s, Comma(s));
      SplitStep(s[..Comma(s)], rest, t);
    }
  }

  /** Splitting undoes joining, for parts without commas. */
  lemma {:induction false} SplitJoin(parts: seq<string>)
    requires parts != [] && forall p :: p in parts ==> NoComma(p)
    ensures Split(Join(parts)) == parts
  {
    var p := parts[0];
    assert p in parts;
    CommaIs(p, |p|);
    if |parts| > 1 {
      SplitJoin(parts[1..]);
      SplitAppend(p, Join(parts[1..]));
      assert Split(p) == [p];
    }
  }

  /** `strings.ReplaceAll(s, from, to)`: non-overlapping occurrences, left to right. */
  function ReplaceAll(s: string, from: string, to: string): string
    requires from != []
    decreases |s|
  {
    if |s| < |from| then s
    else if s[..|from|] == from then to + ReplaceAll(s[|from|..], from, to)
    else [s[0]] + ReplaceAll(s[1..], from, to)
  }

  predicate OccursAt(s: string, from: string, i: nat) {
    i + |from| <= |s| && s[i..i + |from|] == from
  }

  lemma {:induction false} ReplaceNothing(s: string, from: string, to: string)
    requires from != [] && forall i: nat :: !OccursAt(s, from, i)
    ensures ReplaceAll(s, from, to) == s
    decreases |s|
  {
    if |s| >= |from| {
      assert !OccursAt(s, from, 0);
      forall i: nat ensures !OccursAt(s[1..], from, i) {
        assert !OccursAt(s, from, i + 1);
      }
      ReplaceNothing(s[1..], from, to);
    }
  }

  /** A prefix in which the pattern's first character does not occur is copied. */
  lemma {:induction false} ReplaceAfter(a: string, s: string, from: string, to: string)
    requires from != [] && forall i :: 0 <= i < |a| ==> a[i] != from[0]
    requires |s| >= |from|
    ensures ReplaceAll(a + s, from, to) == a + ReplaceAll(s, from, to)
  {
    if a == [] {
      assert a + s == s;
    } else {
      var u := a + s;
      assert u[..|from|][0] == a[0];
      assert u[1..] == a[1..] + s;
      ReplaceAfter(a[1..], s, from, to);
      assert [a[0]] + (a[1..] + ReplaceAll(s, from, to)) == a + ReplaceAll(s, from, to);
    }
  }

  lemma ReplaceWhole(from: string, to: string)
    requires from != []
    ensures ReplaceAll(from, from, to) == to
  {
    assert from[|from|..] == "";
    assert ReplaceAll("", from, to) == "";
  }

  // ----- counting a letter

  function Count(c: char, s: string): nat {
    if s == [] then 0 else (if s[0] == c then 1 else 0) + Count(c, s[1..])
  }

  lemma {:induction false} CountAppend(c: char, s: string, t: string)
    ensures Count(c, s + t) == Count(c, s) + Count(c, t)
  {
    if s == [] {
      assert s + t == t;
    } else {
      assert (s + t)[1..] == s[1..] + t;
      CountAppend(c, s[1..], t);
    }
  }

  lemma CountThree(c: char, a: string, from: string, b: string)
    ensures Count(c, a + (from + b)) >= Count(c, from)
  {
    CountAppend(c, a, from + b);
    CountAppend(c, from, b);
  }

  /** A string that contains another has at least as many of each letter. */
  lemma CountOccurrence(c: char, s: string, from: string, i: nat)
    requires OccursAt(s, from, i)
    ensures Count(c, s) >= Count(c, from)
  {
    var j := i + |from|;
    assert s == s[..i] + (from + s[j..]);
    CountThree(c, s[..i], from, s[j..]);
  }

  function CountAll(c: char, parts: seq<string>): nat {
    if parts == [] then 0 else Count(c, parts[0]) + CountAll(c, parts[1..])
  }

  lemma {:induction false} CountJoin(c: char, parts: seq<string>)
    requires c != ','
    ensures Count(c, Join(parts)) == CountAll(c, parts)
  {
    if |parts| > 1 {
      CountJoin(c, parts[1..]);
      CountAppend(c, parts[0] + ",", Join(parts[1..]));
      CountAppend(c, parts[0], ",");
      assert Count(c, ",") == 0;
    } else if |parts| == 1 {
      assert CountAll(c, parts[1..]) == 0;
    }
  }
}
