/**
 When a coverage merge finishes (tools/gocovmerge.go:35-76), in terms of the two lists alone.
 */
module CoverFinish {
  import opened CoverBlocks

  datatype Span = Span(start: Pos, end: Pos)

  /** Start and end of the last block starting before `pos`. */
  function Before(bs: seq<Block>, pos: Pos): Option<Span> {
    var i := LowerBound(bs, pos);
    if i == 0 then None else Some(Span(bs[i - 1].start, bs[i - 1].end))
  }

  /** The later of two spans; the first one when they start together. */
  function Later(a: Option<Span>, b: Option<Span>): Option<Span> {
    if a.None? || (b.Some? && Less(a.value.start, b.value.start)) then b else a
  }

  /**
   Block `k` of `ms` can be merged: a block of `bs` with the same start has the same end and
   the mode is known, and otherwise the nearest earlier block of either list does not end
   after it.
   */
  predicate Mergeable(mode: string, bs: seq<Block>, ms: seq<Block>, k: nat)
    requires k < |ms|
  {
    var hit := At(bs, ms[k].start);
    if hit.Some? then hit.value.end == ms[k].end && Supported(mode)
    else
      var near := Later(Before(bs, ms[k].start), if k == 0 then None else Some(Span(ms[k - 1].start, ms[k - 1].end)));
      near.Some? ==> !Less(ms[k].end, near.value.end)
  }

  lemma BeforeIs(bs: seq<Block>, pos: Pos, i: int)
    requires Sorted(bs) && 0 <= i <= |bs|
    requires i > 0 ==> Less(bs[i - 1].start, pos)
    requires i < |bs| ==> !Less(bs[i].start, pos)
    ensures Before(bs, pos) == if i == 0 then None else Some(Span(bs[i - 1].start, bs[i - 1].end))
  {
    LowerBoundIs(bs, pos, i);
  }

  /** A block merged into the one at its start leaves all spans as they were. */
  lemma AddedBefore(mode: string, bs: seq<Block>, b: Block, pos: Pos)
    requires Sorted(bs) && MergeOne(mode, bs, b).Done? && Less(b.start, pos) && At(bs, b.start).Some?
    ensures Before(MergeOne(mode, bs, b).value, pos) == Later(Before(bs, pos), Some(Span(b.start, b.end)))
  {
    var i, k := LowerBound(bs, b.start), LowerBound(bs, pos);
    MergeOneSorted(mode, bs, b);
    BeforeIs(MergeOne(mode, bs, b).value, pos, k);
    assert i < k;
    assert i < k - 1 ==> Less(bs[i].start, bs[k - 1].start);
  }

  /** Between two positions of a sorted list every block starts no earlier than the first. */
  lemma StartsAfter(bs: seq<Block>, a: Pos, b: Pos)
    requires Sorted(bs) && LowerBound(bs, a) < LowerBound(bs, b)
    ensures !Less(bs[LowerBound(bs, b) - 1].start, a)
  {
    var i, k := LowerBound(bs, a), LowerBound(bs, b) - 1;
    assert i < k ==> Less(bs[i].start, bs[k].start);
  }

  lemma InsertedBefore(mode: string, bs: seq<Block>, b: Block, pos: Pos)
    requires Sorted(bs) && MergeOne(mode, bs, b).Done? && Less(b.start, pos) && At(bs, b.start).None?
    ensures Before(MergeOne(mode, bs, b).value, pos) == Later(Before(bs, pos), Some(Span(b.start, b.end)))
  {
    var i, k := LowerBound(bs, b.start), LowerBound(bs, pos);
    var r := bs[..i] + [b] + bs[i..];
    MergeOneSorted(mode, bs, b);
    assert i <= k;
    assert r[k] == (if i == k then b else bs[k - 1]) && (k < |bs| ==> r[k + 1] == bs[k]);
    BeforeIs(r, pos, k + 1);
    if i < k {
      StartsAfter(bs, b.start, pos);
    }
  }

  /** Past a merged block, the nearest earlier block is that block or what it was before. */
  lemma MergeOneBefore(mode: string, bs: seq<Block>, b: Block, pos: Pos)
    requires Sorted(bs) && MergeOne(mode, bs, b).Done? && Less(b.start, pos)
    ensures Before(MergeOne(mode, bs, b).value, pos) == Later(Before(bs, pos), Some(Span(b.start, b.end)))
  {
    if At(bs, b.start).Some? {
      AddedBefore(mode, bs, b, pos);
    } else {
      InsertedBefore(mode, bs, b, pos);
    }
  }

  /** Merging the first block does not change which of the later ones can be merged. */
  lemma MergeableTail(mode: string, bs: seq<Block>, ms: seq<Block>, k: nat)
    requires Sorted(bs) && Sorted(ms) && k + 1 < |ms| && MergeOne(mode, bs, ms[0]).Done?
    ensures Mergeable(mode, MergeOne(mode, bs, ms[0]).value, ms[1..], k) <==> Mergeable(mode, bs, ms, k + 1)
  {
    var pos := ms[k + 1].start;
    assert Less(ms[0].start, pos);
    MergeOneAt(mode, bs, ms[0], pos);
    MergeOneBefore(mode, bs, ms[0], pos);
    if k > 0 {
      assert Less(ms[0].start, ms[k].start);
    }
  }

  lemma MergeableFirst(mode: string, bs: seq<Block>, ms: seq<Block>)
    requires Sorted(bs) && ms != []
    ensures MergeOne(mode, bs, ms[0]).Done? <==> Mergeable(mode, bs, ms, 0)
  {
  }

  /**
   A merge finishes exactly when every probe is in range and every block can be merged,
   conditions on the two lists a caller could check beforehand.
   */
  lemma {:induction false} FinishesIff(mode: string, bs: seq<Block>, ms: seq<Block>, startIndex: nat)
    requires Sorted(bs) && Sorted(ms)
    ensures MergeFrom(mode, bs, ms, startIndex).Done? <==>
      ProbesInRange(bs, ms, startIndex) && forall k :: 0 <= k < |ms| ==> Mergeable(mode, bs, ms, k)
    decreases |ms|
  {
    if ms != [] && startIndex < |bs| {
      MergeableFirst(mode, bs, ms);
      if MergeOne(mode, bs, ms[0]).Done? {
        var bs', si := MergeOne(mode, bs, ms[0]).value, LowerBound(bs, ms[0].start) + 1;
        MergeOneSorted(mode, bs, ms[0]);
        FinishesIff(mode, bs', ms[1..], si);
        TailAgrees(mode, bs, ms);
        NextProbe(mode, bs, ms[0]);
        TailProbes(bs, bs', ms, si);
      }
    }
  }

  lemma TailAgrees(mode: string, bs: seq<Block>, ms: seq<Block>)
    requires Sorted(bs) && Sorted(ms) && ms != [] && MergeOne(mode, bs, ms[0]).Done?
    ensures (forall k :: 0 <= k < |ms| ==> Mergeable(mode, bs, ms, k)) <==>
      forall k :: 0 <= k < |ms[1..]| ==> Mergeable(mode, MergeOne(mode, bs, ms[0]).value, ms[1..], k)
  {
    var bs' := MergeOne(mode, bs, ms[0]).value;
    MergeableFirst(mode, bs, ms);
    forall k | 0 <= k < |ms| - 1
      ensures Mergeable(mode, bs', ms[1..], k) <==> Mergeable(mode, bs, ms, k + 1)
    {
      MergeableTail(mode, bs, ms, k);
    }
    assert forall k :: 0 < k < |ms| ==> (Mergeable(mode, bs, ms, k) <==> Mergeable(mode, bs', ms[1..], k - 1));
  }

  // ----- when a merge panics

  /** Before block `k` of `ms` every block can be merged, and the probes up to it leave the list. */
  predicate PanicsAt(mode: string, bs: seq<Block>, ms: seq<Block>, startIndex: nat, k: nat) {
    k < |ms| && !ProbesInRange(bs, ms[..k + 1], startIndex) && forall j :: 0 <= j < k ==> Mergeable(mode, bs, ms, j)
  }

  /** After one block the probes of the next `k + 1` are in range exactly when all `k + 2` were. */
  lemma ProbesLater(mode: string, bs: seq<Block>, ms: seq<Block>, k: nat)
    requires Sorted(bs) && Sorted(ms) && bs != [] && k + 1 < |ms| && MergeOne(mode, bs, ms[0]).Done?
    ensures ProbesInRange(MergeOne(mode, bs, ms[0]).value, ms[1..][..k + 1], LowerBound(bs, ms[0].start) + 1)
            <==> ProbesInRange(bs, ms[..k + 2], 0)
  {
    var some := ms[..k + 2];
    NextProbe(mode, bs, ms[0]);
    TailProbes(bs, MergeOne(mode, bs, ms[0]).value, some, LowerBound(bs, ms[0].start) + 1);
    assert some[1..] == ms[1..][..k + 1];
  }

  /** The condition after one block is the condition before it, one block further on. */
  lemma PanicsLater(mode: string, bs: seq<Block>, ms: seq<Block>, k: nat)
    requires Sorted(bs) && Sorted(ms) && bs != [] && ms != [] && MergeOne(mode, bs, ms[0]).Done?
    ensures PanicsAt(mode, MergeOne(mode, bs, ms[0]).value, ms[1..], LowerBound(bs, ms[0].start) + 1, k)
            <==> PanicsAt(mode, bs, ms, 0, k + 1)
  {
    if k + 1 < |ms| {
      ProbesLater(mode, bs, ms, k);
      MergeablePrefix(mode, bs, ms, k);
    }
  }

  lemma MergeablePrefix(mode: string, bs: seq<Block>, ms: seq<Block>, k: nat)
    requires Sorted(bs) && Sorted(ms) && k + 1 < |ms| && MergeOne(mode, bs, ms[0]).Done?
    ensures (forall j :: 0 <= j < k ==> Mergeable(mode, MergeOne(mode, bs, ms[0]).value, ms[1..], j)) <==>
            forall j :: 0 <= j < k + 1 ==> Mergeable(mode, bs, ms, j)
  {
    var bs' := MergeOne(mode, bs, ms[0]).value;
    MergeableFirst(mode, bs, ms);
    forall j | 0 <= j < k
      ensures Mergeable(mode, bs', ms[1..], j) <==> Mergeable(mode, bs, ms, j + 1)
    {
      MergeableTail(mode, bs, ms, j);
    }
    assert forall j :: 0 < j < k + 1 ==> (Mergeable(mode, bs, ms, j) <==> Mergeable(mode, bs', ms[1..], j - 1));
  }

  /** Once a first probe is in range, where it was does not matter for the later ones. */
  lemma LaterProbes(mode: string, bs: seq<Block>, ms: seq<Block>, startIndex: nat, k: nat)
    requires startIndex < |bs|
    ensures PanicsAt(mode, bs, ms, startIndex, k) <==> PanicsAt(mode, bs, ms, 0, k)
    ensures !PanicsAt(mode, bs, ms, startIndex, 0)
  {
  }

  /** A block that cannot be merged stops the merge before anything else can happen. */
  lemma NoPanicWhenStopped(mode: string, bs: seq<Block>, ms: seq<Block>, startIndex: nat)
    requires Sorted(bs) && Sorted(ms) && ms != [] && startIndex < |bs| && MergeOne(mode, bs, ms[0]).Stopped?
    ensures !exists k: nat :: PanicsAt(mode, bs, ms, startIndex, k)
  {
    MergeableFirst(mode, bs, ms);
    forall k: nat ensures !PanicsAt(mode, bs, ms, startIndex, k) {
      LaterProbes(mode, bs, ms, startIndex, k);
      assert k > 0 ==> !Mergeable(mode, bs, ms, 0);
    }
  }

  lemma PanicsNext(mode: string, bs: seq<Block>, ms: seq<Block>, startIndex: nat,
                   bs': seq<Block>, next: nat, k: nat, j: nat)
    requires Sorted(bs) && Sorted(ms) && ms != [] && startIndex < |bs| && j == k + 1
    requires MergeOne(mode, bs, ms[0]) == Done(bs') && next == LowerBound(bs, ms[0].start) + 1
    ensures PanicsAt(mode, bs', ms[1..], next, k) <==> PanicsAt(mode, bs, ms, startIndex, j)
  {
    PanicsLater(mode, bs, ms, k);
    LaterProbes(mode, bs, ms, startIndex, j);
  }

  lemma NotAtFirst(mode: string, bs: seq<Block>, ms: seq<Block>, startIndex: nat, k: nat)
    requires startIndex < |bs| && PanicsAt(mode, bs, ms, startIndex, k)
    ensures k > 0
  {
    LaterProbes(mode, bs, ms, startIndex, k);
  }

  /** A block that can be merged hands the question on to the rest. */
  lemma PanicsInRest(mode: string, bs: seq<Block>, ms: seq<Block>, startIndex: nat, bs': seq<Block>, next: nat)
    requires Sorted(bs) && Sorted(ms) && ms != [] && startIndex < |bs|
    requires MergeOne(mode, bs, ms[0]) == Done(bs') && next == LowerBound(bs, ms[0].start) + 1
    ensures (exists k: nat :: PanicsAt(mode, bs', ms[1..], next, k)) <==>
            exists k: nat :: PanicsAt(mode, bs, ms, startIndex, k)
  {
    if k: nat :| PanicsAt(mode, bs', ms[1..], next, k) {
      PanicsNext(mode, bs, ms, startIndex, bs', next, k, k + 1);
    }
    if k: nat :| PanicsAt(mode, bs, ms, startIndex, k) {
      NotAtFirst(mode, bs, ms, startIndex, k);
      PanicsNext(mode, bs, ms, startIndex, bs', next, k - 1, k);
    }
  }

  /**
   The unguarded probe of `mergeProfileBlock` panics in a merge exactly when some block's probe
   leaves the list and all blocks before it can be merged.
   */
  lemma {:induction false} PanicIff(mode: string, bs: seq<Block>, ms: seq<Block>, startIndex: nat)
    requires Sorted(bs) && Sorted(ms)
    ensures MergeFrom(mode, bs, ms, startIndex) == Stopped(IndexPanic) <==>
            exists k: nat :: PanicsAt(mode, bs, ms, startIndex, k)
    decreases |ms|
  {
    if ms == [] {
    } else if startIndex >= |bs| {
      assert PanicsAt(mode, bs, ms, startIndex, 0);
    } else if MergeOne(mode, bs, ms[0]).Stopped? {
      NoPanicWhenStopped(mode, bs, ms, startIndex);
    } else {
      var bs', next := MergeOne(mode, bs, ms[0]).value, LowerBound(bs, ms[0].start) + 1;
      PanicsInRest(mode, bs, ms, startIndex, bs', next);
      MergeOneSorted(mode, bs, ms[0]);
      PanicIff(mode, bs', ms[1..], next);
    }
  }

  /** A merge in which every probe stays in the list does not panic. */
  lemma InRangeNeverPanics(mode: string, bs: seq<Block>, ms: seq<Block>, startIndex: nat)
    requires Sorted(bs) && Sorted(ms) && ProbesInRange(bs, ms, startIndex)
    ensures MergeFrom(mode, bs, ms, startIndex) != Stopped(IndexPanic)
  {
    PanicIff(mode, bs, ms, startIndex);
    forall k: nat ensures !PanicsAt(mode, bs, ms, startIndex, k) {
      if 1 < k + 1 < |ms| {
        assert Less(ms[k - 1].start, ms[|ms| - 2].start);
      }
    }
  }

  /** A block that covers `n` lines from line `line` on. */
  function Line(line: int, n: int): Block {
    Block(Pos(line, 1), Pos(line + n - 1, 9), 1, 1)
  }

  /** Two blocks behind the only block of a list: the second one's probe panics. */
  lemma MergePanics()
    ensures var a, b, c := Line(1, 1), Line(2, 1), Line(3, 1);
      MergeFrom("count", [a], [b, c], 0) == Stopped(IndexPanic)
  {
    var a, b, c := Line(1, 1), Line(2, 1), Line(3, 1);
    LowerBoundIs([a], b.start, 1);
    assert Mergeable("count", [a], [b, c], 0);
    assert [b, c][..2] == [b, c];
    assert PanicsAt("count", [a], [b, c], 0, 1);
    PanicIff("count", [a], [b, c], 0);
  }

  /** The probes alone do not decide it: an overlap may stop the merge before its probe leaves the list. */
  lemma OverlapComesFirst()
    ensures var a, b, c := Line(1, 5), Line(2, 1), Line(3, 1);
      !ProbesInRange([a], [b, c], 0) && MergeFrom("count", [a], [b, c], 0) == Stopped(OverlapBefore)
  {
  }
}
