/**
 Folding many coverage profiles into one list (tools/gocovmerge.go:78-88, 107-115): the list
 stays sorted by file name, and the result does not depend on the order of the inputs.
 */
module CoverFold {
  import opened CoverBlocks
  import opened CoverFinish

  datatype Prof = Prof(fileName: string, mode: string, blocks: seq<Block>)

  /** Up to `k` the strings agree, and there `a` ends or has the smaller byte. */
  predicate LessAt(a: string, b: string, k: nat) {
    k < |b| && k <= |a| && a[..k] == b[..k] && (k == |a| || a[k] < b[k])
  }

  /** Go's byte-wise string order. */
  predicate NameLess(a: string, b: string) {
    exists k :: 0 <= k < |b| && LessAt(a, b, k)
  }

  lemma NameTotal(a: string, b: string)
    ensures NameLess(a, b) || a == b || NameLess(b, a)
    ensures !(NameLess(a, b) && NameLess(b, a)) && !NameLess(a, a)
  {
    var k := FirstDifference(a, b);
    assert LessAt(a, b, k) || LessAt(b, a, k) || a == b;
    forall i, j | LessAt(a, b, i)
      ensures !LessAt(b, a, j)
    {
      NotBoth(a, b, i, j);
    }
  }

  lemma NotBoth(a: string, b: string, i: nat, j: nat)
    requires LessAt(a, b, i)
    ensures !LessAt(b, a, j)
  {
    assert j <= |a| && i < j ==> a[..j][i] == a[i];
    assert j <= |b| && i < j ==> b[..j][i] == b[i];
    assert j < i ==> a[..i][j] == a[j] && b[..i][j] == b[j];
  }

  lemma FirstDifference(a: string, b: string) returns (k: nat)
    ensures k <= |a| && k <= |b| && a[..k] == b[..k]
    ensures k == |a| || k == |b| || a[k] != b[k]
  {
    k := 0;
    while k < |a| && k < |b| && a[k] == b[k]
      invariant k <= |a| && k <= |b| && a[..k] == b[..k]
    {
      k := k + 1;
    }
  }

  lemma NameTransitive(a: string, b: string, c: string)
    requires NameLess(a, b) && NameLess(b, c)
    ensures NameLess(a, c)
  {
    var i :| 0 <= i < |b| && LessAt(a, b, i);
    var j :| 0 <= j < |c| && LessAt(b, c, j);
    var k := if i < j then i else j;
    assert a[..k] == b[..i][..k] == b[..j][..k] == c[..k];
    assert i < j ==> b[..j][i] == c[..j][i];
    assert j < i ==> a[..i][j] == b[..i][j];
    assert LessAt(a, c, k);
  }

  ghost predicate NamesSorted(ps: seq<Prof>) {
    forall i, j :: 0 <= i < j < |ps| ==> NameLess(ps[i].fileName, ps[j].fileName)
  }

  /** Sorted by file name, every name once, every profile sorted by position. */
  ghost predicate ListOk(ps: seq<Prof>) {
    NamesSorted(ps) && forall i :: 0 <= i < |ps| ==> Sorted(ps[i].blocks)
  }

  /** How many profiles have a smaller name. */
  function NameBound(ps: seq<Prof>, name: string): (i: int)
    ensures 0 <= i <= |ps|
    ensures forall j :: 0 <= j < i ==> NameLess(ps[j].fileName, name)
    ensures i < |ps| ==> !NameLess(ps[i].fileName, name)
  {
    if ps == [] || !NameLess(ps[0].fileName, name) then 0 else 1 + NameBound(ps[1..], name)
  }

  lemma NameBoundIs(ps: seq<Prof>, name: string, i: int)
    requires NamesSorted(ps) && 0 <= i <= |ps|
    requires forall j :: 0 <= j < i ==> NameLess(ps[j].fileName, name)
    requires i < |ps| ==> !NameLess(ps[i].fileName, name)
    ensures NameBound(ps, name) == i
  {
  }

  /** One profile added to a list: merged into the one of its file, or inserted. */
  function AddOne(ps: seq<Prof>, p: Prof): Outcome<seq<Prof>> {
    var i := NameBound(ps, p.fileName);
    if i < |ps| && ps[i].fileName == p.fileName then
      if ps[i].mode != p.mode then Stopped(DifferentModes)
      else
        match MergeFrom(p.mode, ps[i].blocks, p.blocks, 0)
        case Stopped(why) => Stopped(why)
        case Done(bs) => Done(ps[i := ps[i].(blocks := bs)])
    else Done(ps[..i] + [p] + ps[i..])
  }

  /** All profiles, first to last, into an empty list. */
  function AddAll(xs: seq<Prof>): Outcome<seq<Prof>> {
    if xs == [] then Done([])
    else
      match AddAll(xs[..|xs| - 1])
      case Stopped(why) => Stopped(why)
      case Done(ps) => AddOne(ps, xs[|xs| - 1])
  }

  ghost predicate InputsOk(xs: seq<Prof>) {
    forall i :: 0 <= i < |xs| ==> Sorted(xs[i].blocks)
  }

  /** The profile of a file in a list. */
  ghost function ProfileOf(ps: seq<Prof>, name: string): Option<Prof> {
    if q :| q in ps && q.fileName == name then Some(q) else None
  }

  lemma ProfileIs(ps: seq<Prof>, q: Prof)
    requires NamesSorted(ps) && q in ps
    ensures ProfileOf(ps, q.fileName) == Some(q)
  {
    var r := ProfileOf(ps, q.fileName).value;
    var i :| 0 <= i < |ps| && ps[i] == q;
    var j :| 0 <= j < |ps| && ps[j] == r;
    NameTotal(ps[i].fileName, ps[j].fileName);
  }

  // ----- adding one profile

  lemma AddOneOk(ps: seq<Prof>, p: Prof)
    requires ListOk(ps) && Sorted(p.blocks) && AddOne(ps, p).Done?
    ensures ListOk(AddOne(ps, p).value)
  {
    var i := NameBound(ps, p.fileName);
    if i < |ps| && ps[i].fileName == p.fileName {
      MergeFromAt(p.mode, ps[i].blocks, p.blocks, 0, Pos(0, 0));
    } else {
      InsertNameSorted(ps, p, i);
    }
  }

  /** What follows a profile with a greater name has a greater name too. */
  lemma AboveFrom(ps: seq<Prof>, name: string, i: nat, j: nat)
    requires NamesSorted(ps) && i <= j < |ps| && NameLess(name, ps[i].fileName)
    ensures NameLess(name, ps[j].fileName)
  {
    if i < j {
      NameTransitive(name, ps[i].fileName, ps[j].fileName);
    }
  }

  lemma RestIsAbove(ps: seq<Prof>, name: string, j: int)
    requires NamesSorted(ps) && NameBound(ps, name) <= j < |ps|
    requires ps[NameBound(ps, name)].fileName != name
    ensures NameLess(name, ps[j].fileName)
  {
    var i := NameBound(ps, name);
    NameTotal(name, ps[i].fileName);
    AboveFrom(ps, name, i, j);
  }

  lemma InsertNameSorted(ps: seq<Prof>, p: Prof, i: int)
    requires NamesSorted(ps) && i == NameBound(ps, p.fileName)
    requires i < |ps| ==> ps[i].fileName != p.fileName
    ensures NamesSorted(ps[..i] + [p] + ps[i..])
  {
    forall j | i <= j < |ps|
      ensures NameLess(p.fileName, ps[j].fileName)
    {
      RestIsAbove(ps, p.fileName, j);
    }
    Splice(ps, p, i);
  }

  lemma Splice(ps: seq<Prof>, p: Prof, i: nat)
    requires NamesSorted(ps) && i <= |ps|
    requires forall j :: 0 <= j < i ==> NameLess(ps[j].fileName, p.fileName)
    requires forall j :: i <= j < |ps| ==> NameLess(p.fileName, ps[j].fileName)
    ensures NamesSorted(ps[..i] + [p] + ps[i..])
  {
    var r := ps[..i] + [p] + ps[i..];
    assert forall j :: 0 <= j < |r| ==> r[j] == if j < i then ps[j] else if j == i then p else ps[j - 1];
  }

  /** What a list holds for a file after `p` is added, given what it held before. */
  ghost predicate Added(was: Option<Prof>, p: Prof, now: Option<Prof>) {
    if was.None? then now == Some(p)
    else
      && was.value.mode == p.mode && MergeFrom(p.mode, was.value.blocks, p.blocks, 0).Done?
      && now == Some(was.value.(blocks := MergeFrom(p.mode, was.value.blocks, p.blocks, 0).value))
  }

  /** Adding a profile replaces the one of its file by the merge, and touches no other file. */
  lemma AddOneProfile(ps: seq<Prof>, p: Prof, name: string)
    requires ListOk(ps) && Sorted(p.blocks) && AddOne(ps, p).Done?
    ensures var now, was := ProfileOf(AddOne(ps, p).value, name), ProfileOf(ps, name);
      if name == p.fileName then Added(was, p, now) else now == was
  {
    var i := NameBound(ps, p.fileName);
    var r := AddOne(ps, p).value;
    AddOneOk(ps, p);
    if i < |ps| && ps[i].fileName == p.fileName {
      ProfileIs(ps, ps[i]);
      ProfileIs(r, r[i]);
      ReplacedMembers(ps, i, r[i]);
      OtherProfiles(ps, r, name, p.fileName);
    } else {
      NotBeyond(ps, p.fileName);
      assert r[i] == p;
      ProfileIs(r, p);
      OtherProfiles(ps, r, name, p.fileName);
    }
  }

  lemma ReplacedMembers(ps: seq<Prof>, i: nat, p: Prof)
    requires i < |ps| && p.fileName == ps[i].fileName
    ensures forall q: Prof :: q.fileName != p.fileName ==> (q in ps <==> q in ps[i := p])
  {
    var r := ps[i := p];
    forall q: Prof | q.fileName != p.fileName
      ensures q in ps <==> q in r
    {
      if q in ps {
        var j :| 0 <= j < |ps| && ps[j] == q;
        assert r[j] == q;
      }
    }
  }

  /** Lists that agree on all members not named `except` agree on every other file. */
  lemma OtherProfiles(ps: seq<Prof>, r: seq<Prof>, name: string, except: string)
    requires NamesSorted(ps) && NamesSorted(r)
    requires forall q: Prof :: q.fileName != except ==> (q in ps <==> q in r)
    ensures name != except ==> ProfileOf(ps, name) == ProfileOf(r, name)
  {
    if name != except && ProfileOf(ps, name).Some? {
      ProfileIs(r, ProfileOf(ps, name).value);
    }
  }

  lemma NotBeyond(ps: seq<Prof>, name: string)
    requires NamesSorted(ps)
    requires var i := NameBound(ps, name); i < |ps| ==> ps[i].fileName != name
    ensures ProfileOf(ps, name).None?
  {
    forall j | 0 <= j < |ps|
      ensures ps[j].fileName != name
    {
      NameTotal(ps[j].fileName, name);
      if NameBound(ps, name) <= j {
        RestIsAbove(ps, name, j);
      }
    }
  }

  // ----- adding all profiles

  lemma {:induction false} AddAllOk(xs: seq<Prof>)
    requires InputsOk(xs) && AddAll(xs).Done?
    ensures ListOk(AddAll(xs).value)
  {
    if xs != [] {
      AddAllOk(xs[..|xs| - 1]);
      AddOneOk(AddAll(xs[..|xs| - 1]).value, xs[|xs| - 1]);
    }
  }

  /** The block of file `name` at `pos` in one input or in the profile of a result. */
  function BlockAt(p: Option<Prof>, pos: Pos): Option<Block> {
    if p.None? then None else At(p.value.blocks, pos)
  }

  function CountOf(x: Prof, name: string, pos: Pos): word {
    if x.fileName == name && At(x.blocks, pos).Some? then At(x.blocks, pos).value.count else 0
  }

  /** The sum, or for mode "set" the OR, of all inputs' counts at one place. */
  function Total(mode: string, xs: seq<Prof>, name: string, pos: Pos): word {
    if xs == [] then 0 else Plus(mode, Total(mode, xs[..|xs| - 1], name, pos), CountOf(xs[|xs| - 1], name, pos))
  }

  /** Input `x` has a block of file `name` at `pos`, ending at `end`. */
  predicate HasBlock(x: Prof, name: string, pos: Pos, end: Pos) {
    x.fileName == name && At(x.blocks, pos).Some? && At(x.blocks, pos).value.end == end
  }

  /**
   What a finished fold holds at one place: a block exactly if some input has one, its end
   the end every such input gives, its count the total, in the mode all inputs of the file have.
   */
  ghost predicate Summed(xs: seq<Prof>, r: seq<Prof>, name: string, pos: Pos) {
    var p := ProfileOf(r, name);
    && (p.None? ==> forall x :: x in xs ==> x.fileName != name)
    && (p.Some? ==> forall x :: x in xs && x.fileName == name ==> x.mode == p.value.mode)
    && (p.Some? ==> exists x :: x in xs && x.fileName == name)
    && (BlockAt(p, pos).None? ==> forall x, end :: x in xs ==> !HasBlock(x, name, pos, end))
    && (BlockAt(p, pos).Some? ==>
        var b := BlockAt(p, pos).value;
        b.count == Total(p.value.mode, xs, name, pos)
        && (exists x :: x in xs && HasBlock(x, name, pos, b.end))
        && forall x, end :: x in xs && HasBlock(x, name, pos, end) ==> end == b.end)
  }

  lemma {:induction false} OrZero(a: nat, n: nat)
    requires a < Pow2(n)
    ensures Or(a, 0, n) == a && Or(0, a, n) == a
  {
    if n > 0 {
      OrZero(a / 2, n - 1);
    }
  }

  lemma {:induction false} OrSwap(a: nat, b: nat, c: nat, n: nat)
    ensures Or(Or(a, b, n), c, n) == Or(Or(a, c, n), b, n)
  {
    if n > 0 {
      OrSwap(a / 2, b / 2, c / 2, n - 1);
    }
  }

  lemma PlusZero(mode: string, a: word)
    ensures Plus(mode, a, 0) == a && Plus(mode, 0, a) == a
  {
    OrZero(a, 64);
  }

  lemma PlusSwap(mode: string, a: word, b: word, c: word)
    ensures Plus(mode, Plus(mode, a, b), c) == Plus(mode, Plus(mode, a, c), b)
  {
    OrSwap(a, b, c, 64);
  }

  lemma {:induction false} TotalAbsent(mode: string, xs: seq<Prof>, name: string, pos: Pos)
    requires forall x, end :: x in xs ==> !HasBlock(x, name, pos, end)
    ensures Total(mode, xs, name, pos) == 0
  {
    if xs != [] {
      var x := xs[|xs| - 1];
      TotalAbsent(mode, xs[..|xs| - 1], name, pos);
      PlusZero(mode, 0);
      if At(x.blocks, pos).Some? {
        assert !HasBlock(x, name, pos, At(x.blocks, pos).value.end);
      }
    }
  }

  /** Where a finished merge finds both lists holding a block, the two blocks end together. */
  lemma EndsAgree(mode: string, bs: seq<Block>, ms: seq<Block>, pos: Pos)
    requires Sorted(bs) && Sorted(ms) && MergeFrom(mode, bs, ms, 0).Done?
    requires At(bs, pos).Some? && At(ms, pos).Some?
    ensures At(bs, pos).value.end == At(ms, pos).value.end
  {
    FinishesIff(mode, bs, ms, 0);
    assert Mergeable(mode, bs, ms, LowerBound(ms, pos));
  }

  lemma SummedOther(xs: seq<Prof>, x: Prof, ps: seq<Prof>, r: seq<Prof>, name: string, pos: Pos)
    requires Summed(xs, ps, name, pos) && x.fileName != name && ProfileOf(r, name) == ProfileOf(ps, name)
    ensures Summed(xs + [x], r, name, pos)
  {
    var p := ProfileOf(ps, name);
    assert (xs + [x])[..|xs|] == xs;
    if p.Some? {
      PlusZero(p.value.mode, Total(p.value.mode, xs, name, pos));
    }
  }

  lemma SummedFirst(xs: seq<Prof>, x: Prof, ps: seq<Prof>, r: seq<Prof>, pos: Pos)
    requires Summed(xs, ps, x.fileName, pos) && ProfileOf(ps, x.fileName).None?
    requires ProfileOf(r, x.fileName) == Some(x)
    ensures Summed(xs + [x], r, x.fileName, pos)
  {
    assert (xs + [x])[..|xs|] == xs;
    assert x in xs + [x];
    TotalAbsent(x.mode, xs, x.fileName, pos);
    PlusZero(x.mode, CountOf(x, x.fileName, pos));
    if At(x.blocks, pos).Some? {
      assert HasBlock(x, x.fileName, pos, At(x.blocks, pos).value.end);
    }
  }

  lemma SummedMerged(xs: seq<Prof>, x: Prof, ps: seq<Prof>, r: seq<Prof>, pos: Pos)
    requires Summed(xs, ps, x.fileName, pos) && ProfileOf(ps, x.fileName).Some?
    requires Added(ProfileOf(ps, x.fileName), x, ProfileOf(r, x.fileName))
    requires Sorted(x.blocks) && Sorted(ProfileOf(ps, x.fileName).value.blocks)
    ensures Summed(xs + [x], r, x.fileName, pos)
  {
    var name, was := x.fileName, ProfileOf(ps, x.fileName).value;
    var a, b := At(was.blocks, pos), At(x.blocks, pos);
    assert (xs + [x])[..|xs|] == xs;
    assert x in xs + [x];
    assert Total(x.mode, xs + [x], name, pos) == Plus(x.mode, Total(x.mode, xs, name, pos), CountOf(x, name, pos));
    MergeFromAt(x.mode, was.blocks, x.blocks, 0, pos);
    if a.None? {
      TotalAbsent(x.mode, xs, name, pos);
      PlusZero(x.mode, CountOf(x, name, pos));
    } else if b.None? {
      PlusZero(x.mode, Total(x.mode, xs, name, pos));
    } else {
      EndsAgree(x.mode, was.blocks, x.blocks, pos);
    }
    if b.Some? {
      assert HasBlock(x, name, pos, b.value.end);
    }
  }

  lemma SummedStep(xs: seq<Prof>, x: Prof, ps: seq<Prof>, name: string, pos: Pos)
    requires Summed(xs, ps, name, pos) && ListOk(ps) && Sorted(x.blocks) && AddOne(ps, x).Done?
    ensures Summed(xs + [x], AddOne(ps, x).value, name, pos)
  {
    var r := AddOne(ps, x).value;
    AddOneProfile(ps, x, name);
    if x.fileName != name {
      SummedOther(xs, x, ps, r, name, pos);
    } else if ProfileOf(ps, name).None? {
      SummedFirst(xs, x, ps, r, pos);
    } else {
      var i :| 0 <= i < |ps| && ps[i] == ProfileOf(ps, name).value;
      SummedMerged(xs, x, ps, r, pos);
    }
  }

  /** A finished fold holds, for every file and position, the sum over all inputs. */
  lemma {:induction false} AddAllSums(xs: seq<Prof>, name: string, pos: Pos)
    requires InputsOk(xs) && AddAll(xs).Done?
    ensures Summed(xs, AddAll(xs).value, name, pos)
  {
    if xs != [] {
      var ys := xs[..|xs| - 1];
      AddAllSums(ys, name, pos);
      AddAllOk(ys);
      SummedStep(ys, xs[|xs| - 1], AddAll(ys).value, name, pos);
      assert xs == ys + [xs[|xs| - 1]];
    }
  }

  // ----- order of inputs

  function Without(xs: seq<Prof>, j: nat): seq<Prof>
    requires j < |xs|
  {
    xs[..j] + xs[j + 1..]
  }

  lemma WithoutLast(xs: seq<Prof>, j: nat)
    requires j < |xs|
    ensures j == |xs| - 1 ==> Without(xs, j) == xs[..j]
    ensures j < |xs| - 1 ==> Without(xs, j) == Without(xs[..|xs| - 1], j) + [xs[|xs| - 1]]
  {
  }

  lemma TotalNext(mode: string, xs: seq<Prof>, x: Prof, name: string, pos: Pos)
    ensures Total(mode, xs + [x], name, pos) == Plus(mode, Total(mode, xs, name, pos), CountOf(x, name, pos))
  {
    assert (xs + [x])[..|xs|] == xs;
  }

  lemma {:induction false} TotalRemove(mode: string, xs: seq<Prof>, j: nat, name: string, pos: Pos)
    requires j < |xs|
    ensures Total(mode, xs, name, pos) ==
      Plus(mode, Total(mode, Without(xs, j), name, pos), CountOf(xs[j], name, pos))
  {
    var n := |xs| - 1;
    var ys := xs[..n];
    WithoutLast(xs, j);
    if j < n {
      var rest := Without(ys, j);
      TotalRemove(mode, ys, j, name, pos);
      TotalNext(mode, rest, xs[n], name, pos);
      PlusSwap(mode, Total(mode, rest, name, pos), CountOf(xs[j], name, pos), CountOf(xs[n], name, pos));
    }
  }

  lemma {:induction false} TotalPermutation(mode: string, xs: seq<Prof>, ys: seq<Prof>, name: string, pos: Pos)
    requires multiset(xs) == multiset(ys)
    ensures Total(mode, xs, name, pos) == Total(mode, ys, name, pos)
    decreases |xs|
  {
    if xs == [] {
      assert |multiset(ys)| == 0;
      assert ys == [];
    } else {
      var n := |xs| - 1;
      var x := xs[n];
      assert xs == xs[..n] + [x];
      assert x in multiset(ys);
      var j :| 0 <= j < |ys| && ys[j] == x;
      assert ys == ys[..j] + [x] + ys[j + 1..];
      assert multiset(xs[..n]) == multiset(xs) - multiset{x};
      assert multiset(Without(ys, j)) == multiset(ys) - multiset{x};
      TotalPermutation(mode, xs[..n], Without(ys, j), name, pos);
      TotalRemove(mode, ys, j, name, pos);
    }
  }

  /** Same start, end and count; the statement count is the one of whichever input came first. */
  predicate SameBlock(a: Option<Block>, b: Option<Block>) {
    if a.None? || b.None? then a.None? && b.None?
    else a.value.start == b.value.start && a.value.end == b.value.end && a.value.count == b.value.count
  }

  /** Any two orders of the inputs that both finish hold the same blocks for every file. */
  lemma OrderDoesNotMatter(xs: seq<Prof>, ys: seq<Prof>, name: string, pos: Pos)
    requires multiset(xs) == multiset(ys) && InputsOk(xs)
    requires AddAll(xs).Done? && AddAll(ys).Done?
    ensures var p, q := ProfileOf(AddAll(xs).value, name), ProfileOf(AddAll(ys).value, name);
      p.Some? == q.Some? && (p.Some? ==> p.value.mode == q.value.mode)
      && SameBlock(BlockAt(p, pos), BlockAt(q, pos))
  {
    assert forall x :: x in xs <==> x in multiset(xs);
    assert forall x :: x in ys <==> x in multiset(ys);
    assert InputsOk(ys) by {
      forall i | 0 <= i < |ys| ensures Sorted(ys[i].blocks) { assert ys[i] in xs; }
    }
    AddAllSums(xs, name, pos);
    AddAllSums(ys, name, pos);
    var p, q := ProfileOf(AddAll(xs).value, name), ProfileOf(AddAll(ys).value, name);
    if p.Some? && q.Some? {
      TotalPermutation(p.value.mode, xs, ys, name, pos);
    }
  }
}
