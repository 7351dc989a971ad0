/**
 tools/gocovmerge.go: the merge itself, which keeps a start index, searches only beyond it,
 and grows and shifts the block list in place.
 */
module CoverMerge {
  import opened CoverBlocks
  import opened CoverFold
  import opened CoverCounts

  /** One turn of the loop of `mergeProfiles`, on values. */
  lemma MergeFromNext(mode: string, bs: seq<Block>, ms: seq<Block>, k: nat, startIndex: nat)
    requires k < |ms|
    ensures MergeFrom(mode, bs, ms[k..], startIndex) ==
      if startIndex >= |bs| then Stopped(IndexPanic)
      else match MergeOne(mode, bs, ms[k])
           case Stopped(why) => Stopped(why)
           case Done(next) => MergeFrom(mode, next, ms[k + 1..], LowerBound(bs, ms[k].start) + 1)
  {
    assert ms[k..][1..] == ms[k + 1..];
  }

  /** Up to its new start index, a merged list starts no later than the block just merged. */
  lemma MergedSoFar(mode: string, bs: seq<Block>, b: Block)
    requires Sorted(bs) && MergeOne(mode, bs, b).Done?
    ensures var r := MergeOne(mode, bs, b).value; var next := LowerBound(bs, b.start) + 1;
      Sorted(r) && next <= |r| && forall j :: 0 <= j < next ==> !Less(b.start, r[j].start)
  {
    MergeOneSorted(mode, bs, b);
  }

  class Profile {
    const fileName: string
    const mode: string
    var blocks: seq<Block>

    constructor (fileName: string, mode: string, blocks: seq<Block>)
      ensures Value() == Prof(fileName, mode, blocks)
    {
      this.fileName, this.mode, this.blocks := fileName, mode, blocks;
    }

    ghost function Value(): Prof
      reads this
    {
      Prof(fileName, mode, blocks)
    }

    /** `sortFunc`: block `k` does not start before `pb`. */
    predicate NotBefore(k: nat, pb: Block)
      requires k < |blocks|
      reads this
    {
      var pi := blocks[k];
      pi.start.line >= pb.start.line && (pi.start.line != pb.start.line || pi.start.col >= pb.start.col)
    }

    /** `sort.Search` over the blocks from `startIndex` on. */
    method Search(pb: Block, startIndex: nat) returns (i: nat)
      requires startIndex <= |blocks| && Sorted(blocks)
      requires forall j :: 0 <= j < startIndex ==> Less(blocks[j].start, pb.start)
      ensures startIndex + i == LowerBound(blocks, pb.start)
    {
      var n := |blocks| - startIndex;
      i := 0;
      var j := n;
      while i < j
        invariant 0 <= i <= j <= n
        invariant i > 0 ==> Less(blocks[startIndex + i - 1].start, pb.start)
        invariant j < n ==> !Less(blocks[startIndex + j].start, pb.start)
      {
        var h := (i + j) / 2;
        if !NotBefore(h + startIndex, pb) {
          i := h + 1;
        } else {
          j := h;
        }
      }
      LowerBoundIs(blocks, pb.start, startIndex + i);
    }

    /** The probe of the first candidate and, if that block starts before `pb`, the search. */
    method Locate(pb: Block, startIndex: nat) returns (i: nat)
      requires startIndex < |blocks| && Sorted(blocks)
      requires forall j :: 0 <= j < startIndex ==> Less(blocks[j].start, pb.start)
      ensures i == LowerBound(blocks, pb.start)
    {
      i := 0;
      if !NotBefore(startIndex, pb) {
        i := Search(pb, startIndex);
      } else {
        LowerBoundIs(blocks, pb.start, startIndex);
      }
      i := i + startIndex;
    }

    /** `append`, `copy` one place to the right, and assignment at `i`. */
    method Insert(i: nat, pb: Block)
      requires i <= |blocks|
      modifies this
      ensures blocks == old(blocks)[..i] + [pb] + old(blocks)[i..]
    {
      blocks := blocks + [Block(Pos(0, 0), Pos(0, 0), 0, 0)];
      blocks := blocks[..i + 1] + blocks[i..|blocks| - 1];
      blocks := blocks[i := pb];
    }

    /**
     `mergeProfileBlock`. Given that everything before `startIndex` starts before `pb`, it does
     what a search of the whole list would, except that it panics when nothing is left to probe.
     */
    method MergeBlock(pb: Block, startIndex: nat) returns (r: Outcome<nat>)
      requires startIndex <= |blocks| && Sorted(blocks)
      requires forall j :: 0 <= j < startIndex ==> Less(blocks[j].start, pb.start)
      modifies this
      ensures r.Stopped? ==> blocks == old(blocks)
      ensures r == Stopped(IndexPanic) <==> startIndex >= |old(blocks)|
      ensures startIndex < |old(blocks)| ==>
        if r.Done? then MergeOne(mode, old(blocks), pb) == Done(blocks) && r.value == LowerBound(old(blocks), pb.start) + 1
        else MergeOne(mode, old(blocks), pb) == Stopped(r.why)
      ensures r.Done? ==> Counted(mode, old(blocks), pb, blocks)
    {
      if startIndex >= |blocks| {
        return Stopped(IndexPanic);
      }
      if MergeOne(mode, blocks, pb).Done? {
        MergeOneCounts(mode, blocks, pb);
      }
      var i := Locate(pb, startIndex);
      if i < |blocks| && blocks[i].start == pb.start {
        if blocks[i].end != pb.end {
          return Stopped(OverlapMerge);
        }
        if mode == "set" {
          blocks := blocks[i := blocks[i].(count := Or(blocks[i].count, pb.count, 64))];
        } else if mode == "count" || mode == "atomic" {
          blocks := blocks[i := blocks[i].(count := Add(blocks[i].count, pb.count))];
        } else {
          return Stopped(UnsupportedMode);
        }
      } else {
        if i > 0 {
          var pa := blocks[i - 1];
          if pa.end.line >= pb.end.line && (pa.end.line != pb.end.line || pa.end.col > pb.end.col) {
            return Stopped(OverlapBefore);
          }
        }
        if i < |blocks| - 1 {
          var pa := blocks[i + 1];
          assert Less(blocks[i].start, blocks[i + 1].start);
          if pa.start.line <= pb.start.line && (pa.start.line != pb.start.line || pa.start.col < pb.start.col) {
            assert false; // "OVERLAP AFTER" cannot happen
          }
        }
        Insert(i, pb);
      }
      return Done(i + 1);
    }

    /** `mergeProfiles`: all blocks of `merge`, each search starting past the previous one. */
    method Merge(merge: Profile) returns (r: Outcome<()>)
      requires merge != this && Sorted(blocks) && Sorted(merge.blocks)
      modifies this
      ensures mode != merge.mode ==> r == Stopped(DifferentModes)
      ensures mode == merge.mode ==>
        match MergeFrom(mode, old(blocks), merge.blocks, 0)
        case Done(bs) => r == Done(()) && blocks == bs
        case Stopped(why) => r == Stopped(why)
    {
      if mode != merge.mode {
        return Stopped(DifferentModes);
      }
      var startIndex := 0;
      for k := 0 to |merge.blocks|
        invariant Sorted(blocks) && startIndex <= |blocks|
        invariant k > 0 ==> forall j :: 0 <= j < startIndex ==> !Less(merge.blocks[k - 1].start, blocks[j].start)
        invariant startIndex == 0 || k > 0
        invariant MergeFrom(mode, old(blocks), merge.blocks, 0) == MergeFrom(mode, blocks, merge.blocks[k..], startIndex)
      {
        var b := merge.blocks[k];
        ghost var before := blocks;
        MergeFromNext(mode, before, merge.blocks, k, startIndex);
        assert k > 0 ==> Less(merge.blocks[k - 1].start, b.start);
        var done := MergeBlock(b, startIndex);
        match done
        case Stopped(why) => return Stopped(why);
        case Done(next) =>
          MergedSoFar(mode, before, b);
          startIndex := next;
      }
      return Done(());
    }
  }

  ghost function Values(ps: seq<Profile>): (r: seq<Prof>)
    reads ps
    ensures |r| == |ps|
  {
    seq(|ps|, i requires 0 <= i < |ps| reads ps => ps[i].Value())
  }

  ghost function Objects(ps: seq<Profile>): set<Profile> {
    set p | p in ps
  }

  ghost predicate Distinct(ps: seq<Profile>) {
    forall i, j :: 0 <= i < j < |ps| ==> ps[i] != ps[j]
  }

  /** Three-way comparison result of Go's `>=` on file names: not smaller. */
  predicate NameAtLeast(a: string, b: string) {
    !NameLess(a, b)
  }

  /** `sort.Search` for the first profile whose name is not smaller. */
  method SearchName(profiles: seq<Profile>, name: string) returns (i: nat)
    requires NamesSorted(Values(profiles))
    ensures i == NameBound(Values(profiles), name)
  {
    i := 0;
    var j := |profiles|;
    while i < j
      invariant 0 <= i <= j <= |profiles|
      invariant forall k :: 0 <= k < i ==> NameLess(profiles[k].fileName, name)
      invariant j < |profiles| ==> !NameLess(profiles[j].fileName, name)
    {
      var h := (i + j) / 2;
      if !NameAtLeast(profiles[h].fileName, name) {
        forall k | 0 <= k < h
          ensures NameLess(profiles[k].fileName, name)
        {
          NameTransitive(Values(profiles)[k].fileName, Values(profiles)[h].fileName, name);
        }
        i := h + 1;
      } else {
        j := h;
      }
    }
    NameBoundIs(Values(profiles), name, i);
  }

  method MergeInto(profiles: seq<Profile>, i: nat, p: Profile) returns (r: Outcome<seq<Profile>>)
    requires Distinct(profiles) && p !in profiles && i < |profiles|
    requires Sorted(profiles[i].blocks) && Sorted(p.blocks)
    modifies profiles[i]
    ensures profiles[i].mode != p.mode ==> r == Stopped(DifferentModes)
    ensures profiles[i].mode == p.mode ==>
      match MergeFrom(p.mode, old(profiles[i].blocks), p.blocks, 0)
      case Done(bs) => r == Done(profiles) && Values(profiles) == old(Values(profiles))[i := old(profiles[i].Value()).(blocks := bs)]
      case Stopped(why) => r == Stopped(why)
  {
    ghost var was := Values(profiles);
    var done := profiles[i].Merge(p);
    if done.Stopped? {
      return Stopped(done.why);
    }
    forall j | 0 <= j < |profiles| && j != i
      ensures Values(profiles)[j] == was[j]
    {
      assert profiles[j] != profiles[i];
    }
    return Done(profiles);
  }

  lemma InsertedValues(profiles: seq<Profile>, p: Profile, i: nat)
    requires i <= |profiles|
    ensures Values(profiles[..i] + [p] + profiles[i..]) == Values(profiles)[..i] + [p.Value()] + Values(profiles)[i..]
  {
  }

  lemma InsertedDistinct(profiles: seq<Profile>, p: Profile, i: nat)
    requires i <= |profiles| && Distinct(profiles) && p !in profiles
    ensures var r := profiles[..i] + [p] + profiles[i..];
      Distinct(r) && forall q :: q in r ==> q in profiles || q == p
  {
  }

  /** `addProfile`: merges into the profile of the same file, or inserts `p` itself. */
  method AddProfile(profiles: seq<Profile>, p: Profile) returns (r: Outcome<seq<Profile>>)
    requires Distinct(profiles) && p !in profiles
    requires ListOk(Values(profiles)) && Sorted(p.blocks)
    modifies Objects(profiles)
    ensures match AddOne(old(Values(profiles)), old(p.Value()))
      case Done(ps) => r.Done? && Values(r.value) == ps
      case Stopped(why) => r == Stopped(why)
    ensures r.Done? ==> Distinct(r.value) && forall q :: q in r.value ==> q in profiles || q == p
  {
    var i := SearchName(profiles, p.fileName);
    if i < |profiles| && profiles[i].fileName == p.fileName {
      r := MergeInto(profiles, i, p);
    } else {
      InsertedValues(profiles, p, i);
      InsertedDistinct(profiles, p, i);
      r := Done(profiles[..i] + [p] + profiles[i..]);
    }
  }

  /** One turn of the loop, on values. */
  lemma AddAllNext(xs: seq<Prof>, k: nat)
    requires k < |xs| && InputsOk(xs) && AddAll(xs[..k]).Done? && ListOk(AddAll(xs[..k]).value)
    ensures var next := AddOne(AddAll(xs[..k]).value, xs[k]);
      AddAll(xs[..k + 1]) == next && (next.Done? ==> ListOk(next.value))
  {
    assert xs[..k + 1][..k] == xs[..k];
    if AddOne(AddAll(xs[..k]).value, xs[k]).Done? {
      AddOneOk(AddAll(xs[..k]).value, xs[k]);
    }
  }

  lemma {:induction false} StopsForGood(xs: seq<Prof>, k: nat)
    requires k <= |xs| && AddAll(xs[..k]).Stopped?
    ensures AddAll(xs) == AddAll(xs[..k])
  {
    if k < |xs| {
      assert xs[..|xs| - 1][..k] == xs[..k];
      StopsForGood(xs[..|xs| - 1], k);
    } else {
      assert xs[..k] == xs;
    }
  }

  /** The loop of `main`: adds every parsed profile, in order, to an empty list. */
  method MergeAll(inputs: seq<Profile>) returns (r: Outcome<seq<Profile>>)
    requires Distinct(inputs) && InputsOk(Values(inputs))
    modifies Objects(inputs)
    ensures match AddAll(old(Values(inputs)))
      case Done(ps) => r.Done? && Values(r.value) == ps && ListOk(ps) && AllCounted(old(Values(inputs)), ps)
      case Stopped(why) => r == Stopped(why)
  {
    var merged: seq<Profile> := [];
    ghost var xs := Values(inputs);
    for k := 0 to |inputs|
      invariant Distinct(merged)
      invariant forall q :: q in merged ==> q in inputs[..k]
      invariant Objects(merged) <= Objects(inputs)
      invariant forall j :: k <= j < |inputs| ==> inputs[j].Value() == xs[j]
      invariant AddAll(xs[..k]) == Done(Values(merged)) && ListOk(Values(merged))
    {
      AddAllNext(xs, k);
      assert forall j :: k <= j < |inputs| ==> inputs[j] !in inputs[..k];
      var done := AddProfile(merged, inputs[k]);
      if done.Stopped? {
        StopsForGood(xs, k + 1);
        return Stopped(done.why);
      }
      merged := done.value;
    }
    assert xs[..|inputs|] == xs;
    FoldIsCounted(xs);
    return Done(merged);
  }
}
