/**
 What the merged counts are (tools/gocovmerge.go:51-54): ordinary sums of integers, up to the
 wrap-around of Go's int, or for mode "set" the bits any input has. Nothing here is stated
 through the merge's own arithmetic.
 */
module CoverCounts {
  import opened CoverBlocks
  import opened CoverFold

  /** Bit `i` of a number in base two. */
  predicate Bit(a: nat, i: nat) {
    if i == 0 then a % 2 == 1 else Bit(a / 2, i - 1)
  }

  lemma {:induction false} OrBits(a: nat, b: nat, n: nat, i: nat)
    ensures Bit(Or(a, b, n), i) <==> i < n && (Bit(a, i) || Bit(b, i))
  {
    if n == 0 {
      NoBits(i);
    } else {
      HalfOr(a, b, n);
      if i > 0 {
        OrBits(a / 2, b / 2, n - 1, i - 1);
      }
    }
  }

  lemma HalfOr(a: nat, b: nat, n: nat)
    requires n > 0
    ensures Or(a, b, n) / 2 == Or(a / 2, b / 2, n - 1)
    ensures Or(a, b, n) % 2 == 1 <==> a % 2 == 1 || b % 2 == 1
  {
  }

  lemma {:induction false} NoBits(i: nat)
    ensures !Bit(0, i)
  {
    if i > 0 {
      NoBits(i - 1);
    }
  }

  /** Two numbers below 2^n with the same bits are the same number. */
  lemma {:induction false} BitsDecide(a: nat, b: nat, n: nat)
    requires a < Pow2(n) && b < Pow2(n) && forall i: nat :: Bit(a, i) <==> Bit(b, i)
    ensures a == b
  {
    if n > 0 {
      assert Bit(a, 0) <==> Bit(b, 0);
      forall i: nat ensures Bit(a / 2, i) <==> Bit(b / 2, i) {
        assert Bit(a, i + 1) <==> Bit(b, i + 1);
      }
      BitsDecide(a / 2, b / 2, n - 1);
    }
  }

  lemma WordSize()
    ensures Pow2(64) == 0x1_0000_0000_0000_0000
  {
    EightMore(0);
    EightMore(8);
    EightMore(16);
    EightMore(24);
    EightMore(32);
    EightMore(40);
    EightMore(48);
    EightMore(56);
  }

  lemma EightMore(n: nat)
    ensures Pow2(n + 8) == 256 * Pow2(n)
  {
    assert Pow2(n + 2) == 4 * Pow2(n);
    assert Pow2(n + 4) == 4 * Pow2(n + 2);
    assert Pow2(n + 6) == 4 * Pow2(n + 4);
    assert Pow2(n + 8) == 4 * Pow2(n + 6);
  }

  // ----- one place of one list

  /** The counts of the blocks starting at `pos`, added up. */
  function SumAt(bs: seq<Block>, pos: Pos): nat {
    if bs == [] then 0 else (if bs[0].start == pos then bs[0].count else 0) + SumAt(bs[1..], pos)
  }

  /** Some block starting at `pos` has bit `i` in its count. */
  predicate HasBitAt(bs: seq<Block>, pos: Pos, i: nat) {
    exists b :: b in bs && b.start == pos && Bit(b.count, i)
  }

  function CountAt(bs: seq<Block>, pos: Pos): word {
    if At(bs, pos).Some? then At(bs, pos).value.count else 0
  }

  lemma {:induction false} SumAtIs(bs: seq<Block>, pos: Pos)
    requires Sorted(bs)
    ensures SumAt(bs, pos) == CountAt(bs, pos)
  {
    if bs != [] {
      AtTail(bs, pos);
      SumAtIs(bs[1..], pos);
    }
  }

  lemma HasBitAtIs(bs: seq<Block>, pos: Pos, i: nat)
    requires Sorted(bs)
    ensures HasBitAt(bs, pos, i) <==> Bit(CountAt(bs, pos), i)
  {
    AtMember(bs, pos);
    NoBits(i);
    if HasBitAt(bs, pos, i) {
      var b :| b in bs && b.start == pos && Bit(b.count, i);
      var j :| 0 <= j < |bs| && bs[j] == b;
      assert At(bs, pos) == Some(bs[j]);
    }
  }

  /** Go's int addition is the sum modulo 2^64. */
  lemma AddIsSum(a: word, b: word, m: nat, n: nat)
    requires a == m % 0x1_0000_0000_0000_0000 && b == n % 0x1_0000_0000_0000_0000
    ensures Add(a, b) == (m + n) % 0x1_0000_0000_0000_0000
  {
    WordSize();
    SumMod(m, n);
  }

  lemma SumMod(m: nat, n: nat)
    ensures (m + n) % 0x1_0000_0000_0000_0000 ==
      (m % 0x1_0000_0000_0000_0000 + n % 0x1_0000_0000_0000_0000) % 0x1_0000_0000_0000_0000
  {
  }

  lemma AddWraps(a: word, b: word)
    ensures Add(a, b) == (a + b) % 0x1_0000_0000_0000_0000
  {
    WordSize();
  }

  lemma MergedIsPlus(mode: string, bs: seq<Block>, ms: seq<Block>, b: Block)
    requires Sorted(bs) && Sorted(ms) && MergeFrom(mode, bs, ms, 0).Done?
    requires b in MergeFrom(mode, bs, ms, 0).value
    ensures b.count == Plus(mode, CountAt(bs, b.start), CountAt(ms, b.start))
  {
    var r, pos := MergeFrom(mode, bs, ms, 0).value, b.start;
    MergeFromAt(mode, bs, ms, 0, pos);
    AtMember(r, pos);
    var j :| 0 <= j < |r| && r[j] == b;
    assert At(r, pos) == Some(r[j]);
    PlusZero(mode, CountAt(bs, pos));
    PlusZero(mode, CountAt(ms, pos));
  }

  /**
   After one merge of two lists, each block's count is the sum of the two lists' counts there
   modulo 2^64 in modes "count" and "atomic", and in mode "set" has the bits either list has there.
   */
  lemma MergeCounts(mode: string, bs: seq<Block>, ms: seq<Block>, b: Block)
    requires Sorted(bs) && Sorted(ms) && MergeFrom(mode, bs, ms, 0).Done?
    requires b in MergeFrom(mode, bs, ms, 0).value
    ensures mode == "count" || mode == "atomic" ==>
      b.count == (SumAt(bs, b.start) + SumAt(ms, b.start)) % 0x1_0000_0000_0000_0000
    ensures mode == "set" ==>
      forall i: nat :: Bit(b.count, i) <==> HasBitAt(bs, b.start, i) || HasBitAt(ms, b.start, i)
  {
    MergedIsPlus(mode, bs, ms, b);
    if mode == "set" {
      forall i: nat ensures Bit(b.count, i) <==> HasBitAt(bs, b.start, i) || HasBitAt(ms, b.start, i) {
        WordBits(CountAt(bs, b.start), CountAt(ms, b.start), i);
        HasBitAtIs(bs, b.start, i);
        HasBitAtIs(ms, b.start, i);
      }
    } else {
      SumAtIs(bs, b.start);
      SumAtIs(ms, b.start);
      AddWraps(CountAt(bs, b.start), CountAt(ms, b.start));
    }
  }

  /** The blocks at `pos` hold what the list held there and `b` together. */
  ghost predicate Counted(mode: string, was: seq<Block>, b: Block, now: seq<Block>) {
    forall c :: c in now && c.start == b.start ==>
      && (mode == "count" || mode == "atomic" ==>
           c.count == (SumAt(was, b.start) + b.count) % 0x1_0000_0000_0000_0000)
      && (mode == "set" ==> forall i: nat :: Bit(c.count, i) <==> HasBitAt(was, b.start, i) || Bit(b.count, i))
  }

  lemma SumNext(a: word, b: word, m: nat)
    requires a == m % 0x1_0000_0000_0000_0000
    ensures Add(a, b) == (m + b) % 0x1_0000_0000_0000_0000
  {
    WordSize();
    AddIsSum(a, b, m, b);
  }

  /** The same for one block. */
  lemma MergeOneCounts(mode: string, bs: seq<Block>, b: Block)
    requires Sorted(bs) && MergeOne(mode, bs, b).Done?
    ensures Counted(mode, bs, b, MergeOne(mode, bs, b).value)
  {
    var r := MergeOne(mode, bs, b).value;
    MergeOneSorted(mode, bs, b);
    forall c | c in r && c.start == b.start
      ensures c.count == Plus(mode, CountAt(bs, b.start), b.count)
    {
      var j :| 0 <= j < |r| && r[j] == c;
      AtMember(r, b.start);
      assert At(r, b.start) == Some(r[j]);
      MergeOneAt(mode, bs, b, b.start);
      PlusZero(mode, b.count);
    }
    SumAtIs(bs, b.start);
    AddWraps(CountAt(bs, b.start), b.count);
    forall i: nat
      ensures Bit(Or(CountAt(bs, b.start), b.count, 64), i) <==> HasBitAt(bs, b.start, i) || Bit(b.count, i)
    {
      WordBits(CountAt(bs, b.start), b.count, i);
      HasBitAtIs(bs, b.start, i);
    }
  }

  /** A number below 2^n has no bit at or above `n`. */
  lemma {:induction false} HighBits(a: nat, n: nat, i: nat)
    requires a < Pow2(n) && Bit(a, i)
    ensures i < n
  {
    if n == 0 {
      NoBits(i);
    } else if i > 0 {
      HighBits(a / 2, n - 1, i - 1);
    }
  }

  lemma WordBits(a: word, b: word, i: nat)
    ensures Bit(Or(a, b, 64), i) <==> Bit(a, i) || Bit(b, i)
  {
    OrBits(a, b, 64, i);
    if Bit(a, i) {
      HighBits(a, 64, i);
    } else if Bit(b, i) {
      HighBits(b, 64, i);
    }
  }

  /** Block `i` is the last of the list that starts before `pos`. */
  predicate LastBefore(bs: seq<Block>, pos: Pos, i: nat) {
    i < |bs| && Less(bs[i].start, pos) && (i + 1 < |bs| ==> !Less(bs[i + 1].start, pos))
  }

  /**
   Why one block cannot be merged. A block with its start and another end: OVERLAP MERGE. One
   with its start and end, in a mode that is none of the three: unsupported. None with its
   start, and the last block that starts before it ends after it: OVERLAP BEFORE.
   */
  lemma StopReason(mode: string, bs: seq<Block>, b: Block)
    requires Sorted(bs)
    ensures MergeOne(mode, bs, b) == Stopped(OverlapMerge) <==> exists a :: a in bs && a.start == b.start && a.end != b.end
    ensures MergeOne(mode, bs, b) == Stopped(UnsupportedMode) <==>
      (exists a :: a in bs && a.start == b.start && a.end == b.end) && mode !in ["set", "count", "atomic"]
    ensures MergeOne(mode, bs, b) == Stopped(OverlapBefore) <==>
      (forall a :: a in bs ==> a.start != b.start)
      && exists i: nat :: LastBefore(bs, b.start, i) && Less(b.end, bs[i].end)
  {
    var k := LowerBound(bs, b.start);
    AtMember(bs, b.start);
    forall i: nat | LastBefore(bs, b.start, i) ensures i + 1 == k { LowerBoundIs(bs, b.start, i + 1); }
    if k > 0 {
      assert LastBefore(bs, b.start, k - 1);
    }
  }

  // ----- all inputs

  /** The counts all inputs give for a place of a file, added up. */
  function SumIn(xs: seq<Prof>, name: string, pos: Pos): nat {
    if xs == [] then 0
    else SumIn(xs[..|xs| - 1], name, pos)
         + if xs[|xs| - 1].fileName == name then SumAt(xs[|xs| - 1].blocks, pos) else 0
  }

  /** Some input of file `name` has bit `i` in the count of its block at `pos`. */
  ghost predicate HasBitIn(xs: seq<Prof>, name: string, pos: Pos, i: nat) {
    exists x :: x in xs && x.fileName == name && HasBitAt(x.blocks, pos, i)
  }

  lemma {:induction false} TotalIsSum(mode: string, xs: seq<Prof>, name: string, pos: Pos)
    requires mode != "set" && InputsOk(xs)
    ensures Total(mode, xs, name, pos) == SumIn(xs, name, pos) % 0x1_0000_0000_0000_0000
  {
    if xs != [] {
      var n := |xs| - 1;
      TotalIsSum(mode, xs[..n], name, pos);
      SumAtIs(xs[n].blocks, pos);
      SumNext(Total(mode, xs[..n], name, pos), CountOf(xs[n], name, pos), SumIn(xs[..n], name, pos));
    }
  }

  lemma {:induction false} TotalHasBits(xs: seq<Prof>, name: string, pos: Pos, i: nat)
    requires InputsOk(xs)
    ensures Bit(Total("set", xs, name, pos), i) <==> HasBitIn(xs, name, pos, i)
  {
    if xs == [] {
      NoBits(i);
    } else {
      var n := |xs| - 1;
      TotalHasBits(xs[..n], name, pos, i);
      WordBits(Total("set", xs[..n], name, pos), CountOf(xs[n], name, pos), i);
      HasBitAtIs(xs[n].blocks, pos, i);
      NoBits(i);
      LastInput(xs, name, pos, i);
    }
  }

  lemma LastInput(xs: seq<Prof>, name: string, pos: Pos, i: nat)
    requires xs != []
    ensures HasBitIn(xs, name, pos, i) <==>
      HasBitIn(xs[..|xs| - 1], name, pos, i)
      || (xs[|xs| - 1].fileName == name && HasBitAt(xs[|xs| - 1].blocks, pos, i))
  {
    var n := |xs| - 1;
    assert forall x :: x in xs <==> x in xs[..n] || x == xs[n];
  }

  /**
   Of a finished fold, every block's count in mode "count" or "atomic" is the integer sum of
   the inputs' counts at its place modulo 2^64; in mode "set" bit `i` is set exactly if it is
   set in some input's count.
   */
  lemma FoldCounts(xs: seq<Prof>, p: Prof, b: Block)
    requires InputsOk(xs) && AddAll(xs).Done? && p in AddAll(xs).value && b in p.blocks
    ensures p.mode == "count" || p.mode == "atomic" ==>
      b.count == SumIn(xs, p.fileName, b.start) % 0x1_0000_0000_0000_0000
    ensures p.mode == "set" ==>
      forall i: nat :: Bit(b.count, i) <==> HasBitIn(xs, p.fileName, b.start, i)
  {
    var r := AddAll(xs).value;
    AddAllOk(xs);
    ProfileIs(r, p);
    var k :| 0 <= k < |r| && r[k] == p;
    AtMember(p.blocks, b.start);
    var j :| 0 <= j < |p.blocks| && p.blocks[j] == b;
    assert At(p.blocks, b.start) == Some(p.blocks[j]);
    AddAllSums(xs, p.fileName, b.start);
    if p.mode == "set" {
      forall i: nat ensures Bit(b.count, i) <==> HasBitIn(xs, p.fileName, b.start, i) {
        TotalHasBits(xs, p.fileName, b.start, i);
      }
    } else {
      TotalIsSum(p.mode, xs, p.fileName, b.start);
    }
  }

  /** The counts of a whole list of profiles are right in this sense. */
  ghost predicate AllCounted(xs: seq<Prof>, r: seq<Prof>) {
    forall p, b :: p in r && b in p.blocks ==>
      && (p.mode == "count" || p.mode == "atomic" ==>
           b.count == SumIn(xs, p.fileName, b.start) % 0x1_0000_0000_0000_0000)
      && (p.mode == "set" ==> forall i: nat :: Bit(b.count, i) <==> HasBitIn(xs, p.fileName, b.start, i))
  }

  lemma FoldIsCounted(xs: seq<Prof>)
    requires InputsOk(xs) && AddAll(xs).Done?
    ensures AllCounted(xs, AddAll(xs).value)
  {
    forall p, b | p in AddAll(xs).value && b in p.blocks
      ensures p.mode == "count" || p.mode == "atomic" ==>
        b.count == SumIn(xs, p.fileName, b.start) % 0x1_0000_0000_0000_0000
      ensures p.mode == "set" ==> forall i: nat :: Bit(b.count, i) <==> HasBitIn(xs, p.fileName, b.start, i)
    {
      FoldCounts(xs, p, b);
    }
  }

  // ----- the two orders

  /** A finished fold lists each file's blocks by line, and within one line by column. */
  lemma BlocksInOrder(xs: seq<Prof>, p: Prof, i: nat, j: nat)
    requires InputsOk(xs) && AddAll(xs).Done? && p in AddAll(xs).value && i < j < |p.blocks|
    ensures var a, b := p.blocks[i].start, p.blocks[j].start;
      a.line <= b.line && (a.line == b.line ==> a.col < b.col)
  {
    AddAllOk(xs);
    var k :| 0 <= k < |AddAll(xs).value| && AddAll(xs).value[k] == p;
  }

  /**
   It lists the files by name: of two names the earlier is a proper prefix of the later, or
   has the smaller character where they first differ.
   */
  lemma FilesInOrder(xs: seq<Prof>, i: nat, j: nat)
    requires InputsOk(xs) && AddAll(xs).Done? && i < j < |AddAll(xs).value|
    ensures var a, b := AddAll(xs).value[i].fileName, AddAll(xs).value[j].fileName;
      exists k :: 0 <= k <= |a| && k < |b| && a[..k] == b[..k] && (k < |a| ==> a[k] < b[k])
  {
    AddAllOk(xs);
    var a, b := AddAll(xs).value[i].fileName, AddAll(xs).value[j].fileName;
    assert NameLess(a, b);
    var k :| 0 <= k < |b| && LessAt(a, b, k);
    assert a[..k] == b[..k];
  }
}
