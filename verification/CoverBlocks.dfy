/**
 Coverage blocks of one file and what merging them means (tools/gocovmerge.go). A profile's
 blocks are read as a finite map from start position to end position and count.
 */
module CoverBlocks {

  datatype Pos = Pos(line: int, col: int)

  function Pow2(n: nat): (r: nat)
    ensures r > 0
  {
    if n == 0 then 1 else 2 * Pow2(n - 1)
  }

  /** The bit pattern of a 64-bit Go int, read as a number. */
  type word = x: int | 0 <= x < Pow2(64)

  /** Bitwise OR of the lowest `n` bits. */
  function Or(a: nat, b: nat, n: nat): (r: nat)
    ensures r < Pow2(n)
  {
    if n == 0 then 0 else (if a % 2 == 1 || b % 2 == 1 then 1 else 0) + 2 * Or(a / 2, b / 2, n - 1)
  }

  /** Go's addition of two ints, which wraps. */
  function Add(a: word, b: word): word {
    if a + b < Pow2(64) then a + b else a + b - Pow2(64)
  }

  datatype Block = Block(start: Pos, end: Pos, numStmt: int, count: word)

  datatype Fatal = DifferentModes | OverlapMerge | UnsupportedMode | OverlapBefore | OverlapAfter | IndexPanic

  /** How a call ends: normally, or by `log.Fatalf` or a panic, which end the program. */
  datatype Outcome<+T> = Done(value: T) | Stopped(why: Fatal)

  datatype Option<+T> = None | Some(value: T)

  predicate Less(a: Pos, b: Pos) {
    a.line < b.line || (a.line == b.line && a.col < b.col)
  }

  predicate Sorted(bs: seq<Block>) {
    forall i, j :: 0 <= i < j < |bs| ==> Less(bs[i].start, bs[j].start)
  }

  predicate Supported(mode: string) {
    mode == "set" || mode == "count" || mode == "atomic"
  }

  /** How the counts of two blocks at one position are put together. */
  function Plus(mode: string, a: word, b: word): word {
    if mode == "set" then Or(a, b, 64) else Add(a, b)
  }

  /** How many blocks start before `pos`; in a sorted list, where `pos` belongs. */
  function LowerBound(bs: seq<Block>, pos: Pos): (i: int)
    ensures 0 <= i <= |bs|
    ensures forall j :: 0 <= j < i ==> Less(bs[j].start, pos)
    ensures i < |bs| ==> !Less(bs[i].start, pos)
  {
    if bs == [] || !Less(bs[0].start, pos) then 0 else 1 + LowerBound(bs[1..], pos)
  }

  /** The block starting at `pos`, if there is one. */
  function At(bs: seq<Block>, pos: Pos): Option<Block> {
    var i := LowerBound(bs, pos);
    if i < |bs| && bs[i].start == pos then Some(bs[i]) else None
  }

  /** One block merged into a sorted list, by a search over the whole list. */
  function MergeOne(mode: string, bs: seq<Block>, b: Block): Outcome<seq<Block>> {
    var i := LowerBound(bs, b.start);
    if i < |bs| && bs[i].start == b.start then
      if bs[i].end != b.end then Stopped(OverlapMerge)
      else if !Supported(mode) then Stopped(UnsupportedMode)
      else Done(bs[i := bs[i].(count := Plus(mode, bs[i].count, b.count))])
    else if i > 0 && Less(b.end, bs[i - 1].end) then Stopped(OverlapBefore)
    else Done(bs[..i] + [b] + bs[i..])
  }

  /** All blocks of `ms` in order; each search starts just past the previous block. */
  function MergeFrom(mode: string, bs: seq<Block>, ms: seq<Block>, startIndex: nat): Outcome<seq<Block>>
    decreases |ms|
  {
    if ms == [] then Done(bs)
    else if startIndex >= |bs| then Stopped(IndexPanic)
    else
      match MergeOne(mode, bs, ms[0])
      case Stopped(why) => Stopped(why)
      case Done(bs') => MergeFrom(mode, bs', ms[1..], LowerBound(bs, ms[0].start) + 1)
  }

  /** What the merged list holds at a position, given what the two lists hold there. */
  function Combine(mode: string, a: Option<Block>, b: Option<Block>): Option<Block> {
    if a.None? then b
    else if b.None? then a
    else Some(a.value.(count := Plus(mode, a.value.count, b.value.count)))
  }

  // ----- searching

  /** In a sorted list the insertion position is the only one with smaller starts exactly before it. */
  lemma LowerBoundIs(bs: seq<Block>, pos: Pos, i: int)
    requires 0 <= i <= |bs|
    requires Sorted(bs)
    requires i > 0 ==> Less(bs[i - 1].start, pos)
    requires i < |bs| ==> !Less(bs[i].start, pos)
    ensures LowerBound(bs, pos) == i
  {
  }

  lemma AtIs(bs: seq<Block>, i: nat)
    requires Sorted(bs) && i < |bs|
    ensures At(bs, bs[i].start) == Some(bs[i])
  {
    LowerBoundIs(bs, bs[i].start, i);
  }

  /** A sorted list holds at `pos` exactly its members that start there. */
  lemma AtMember(bs: seq<Block>, pos: Pos)
    requires Sorted(bs)
    ensures At(bs, pos).Some? <==> exists i :: 0 <= i < |bs| && bs[i].start == pos
    ensures forall i :: 0 <= i < |bs| && bs[i].start == pos ==> At(bs, pos) == Some(bs[i])
  {
    forall i | 0 <= i < |bs| && bs[i].start == pos
      ensures At(bs, pos) == Some(bs[i])
    {
      AtIs(bs, i);
    }
  }

  // ----- merging one block

  lemma MergeOneSorted(mode: string, bs: seq<Block>, b: Block)
    requires Sorted(bs) && MergeOne(mode, bs, b).Done?
    ensures Sorted(MergeOne(mode, bs, b).value)
  {
    var i := LowerBound(bs, b.start);
    assert forall j :: i < j < |bs| ==> Less(bs[i].start, bs[j].start);
  }

  /** Merging one block changes what the list holds at that block's start, and nothing else. */
  lemma MergeOneAt(mode: string, bs: seq<Block>, b: Block, pos: Pos)
    requires Sorted(bs) && MergeOne(mode, bs, b).Done?
    ensures At(MergeOne(mode, bs, b).value, pos) ==
      Combine(mode, At(bs, pos), if pos == b.start then Some(b) else None)
  {
    MergeOneSorted(mode, bs, b);
    if At(bs, b.start).Some? {
      LowerBoundIs(MergeOne(mode, bs, b).value, pos, LowerBound(bs, pos));
    } else {
      InsertAt(bs, b, pos);
    }
  }

  lemma InsertAt(bs: seq<Block>, b: Block, pos: Pos)
    requires Sorted(bs) && At(bs, b.start).None?
    ensures var i := LowerBound(bs, b.start); var r := bs[..i] + [b] + bs[i..];
      Sorted(r) ==> At(r, pos) == (if pos == b.start then Some(b) else At(bs, pos))
  {
    var i, k := LowerBound(bs, b.start), LowerBound(bs, pos);
    var r := bs[..i] + [b] + bs[i..];
    if Sorted(r) {
      if pos == b.start || Less(pos, b.start) {
        LowerBoundIs(r, pos, k);
      } else {
        assert k >= i;
        LowerBoundIs(r, pos, k + 1);
      }
    }
  }

  // ----- merging all blocks

  lemma AtTail(ms: seq<Block>, pos: Pos)
    requires ms != [] && Sorted(ms)
    ensures Sorted(ms[1..])
    ensures At(ms, pos) == Combine("", if pos == ms[0].start then Some(ms[0]) else None, At(ms[1..], pos))
    ensures pos == ms[0].start ==> At(ms[1..], pos) == None
  {
    if At(ms[1..], pos).Some? {
      AtIs(ms, LowerBound(ms[1..], pos) + 1);
    }
  }

  /**
   The merged list is sorted, and at every position holds the combination of what the two
   lists hold there: no block is lost, none is invented, none appears twice.
   */
  lemma {:induction false} MergeFromAt(mode: string, bs: seq<Block>, ms: seq<Block>, startIndex: nat, pos: Pos)
    requires Sorted(bs) && Sorted(ms) && MergeFrom(mode, bs, ms, startIndex).Done?
    ensures var r := MergeFrom(mode, bs, ms, startIndex).value;
      Sorted(r) && At(r, pos) == Combine(mode, At(bs, pos), At(ms, pos))
    decreases |ms|
  {
    if ms != [] {
      MergeOneSorted(mode, bs, ms[0]);
      MergeOneAt(mode, bs, ms[0], pos);
      AtTail(ms, pos);
      MergeFromAt(mode, MergeOne(mode, bs, ms[0]).value, ms[1..], LowerBound(bs, ms[0].start) + 1, pos);
    }
  }

  /** Every probe of the merge loop finds a block at its start index. */
  predicate ProbesInRange(bs: seq<Block>, ms: seq<Block>, startIndex: nat) {
    ms == [] || (startIndex < |bs| && (|ms| == 1 || Less(ms[|ms| - 2].start, bs[|bs| - 1].start)))
  }

  /** After one block, the next start index is in range exactly when that block was not last. */
  lemma NextProbe(mode: string, bs: seq<Block>, b: Block)
    requires Sorted(bs) && bs != [] && MergeOne(mode, bs, b).Done?
    ensures var bs' := MergeOne(mode, bs, b).value;
      (LowerBound(bs, b.start) + 1 < |bs'| <==> Less(b.start, bs[|bs| - 1].start))
      && (Less(b.start, bs[|bs| - 1].start) ==> bs'[|bs'| - 1].start == bs[|bs| - 1].start)
  {
    var i := LowerBound(bs, b.start);
    if i < |bs| - 1 {
      assert Less(bs[i].start, bs[|bs| - 1].start);
    }
  }

  lemma TailProbes(bs: seq<Block>, bs': seq<Block>, ms: seq<Block>, startIndex: nat)
    requires Sorted(ms) && ms != [] && bs != []
    requires startIndex < |bs'| <==> Less(ms[0].start, bs[|bs| - 1].start)
    requires Less(ms[0].start, bs[|bs| - 1].start) ==> bs'[|bs'| - 1].start == bs[|bs| - 1].start
    ensures ProbesInRange(bs', ms[1..], startIndex) <==>
      |ms| == 1 || Less(ms[|ms| - 2].start, bs[|bs| - 1].start)
  {
    if |ms| > 2 {
      assert Less(ms[0].start, ms[|ms| - 2].start);
    }
  }
}
