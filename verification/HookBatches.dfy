/**
 The batches in which the pre-receive hook sends references for checking (cmd/hook.go:166-172,
 211-297).
 */
module HookBatches {

  const HOOK_BATCH_SIZE := 500

  datatype Ref = Ref(oldID: string, newID: string, name: string)

  /** A line of standard input, split at its spaces. */
  type Fields = seq<string>

  /** What one call to the server carries: the three columns of a batch. */
  datatype Options = Options(oldIDs: seq<string>, newIDs: seq<string>, names: seq<string>)

  /**
   Nothing is checked for a wiki; otherwise branches and tags are, and other references only if
   proc-receive is supported.
   */
  predicate Checks(isWiki: bool, procReceive: bool, f: Fields) {
    !isWiki && |f| == 3 && (procReceive || "refs/heads/" <= f[2] || "refs/tags/" <= f[2])
  }

  function Checked(isWiki: bool, procReceive: bool, lines: seq<Fields>): seq<Ref> {
    if lines == [] then []
    else
      var f := lines[|lines| - 1];
      Checked(isWiki, procReceive, lines[..|lines| - 1])
      + if Checks(isWiki, procReceive, f) then [Ref(f[0], f[1], f[2])] else []
  }

  function Batches(refs: seq<Ref>): seq<seq<Ref>>
    decreases |refs|
  {
    if refs == [] then []
    else if |refs| <= HOOK_BATCH_SIZE then [refs]
    else [refs[..HOOK_BATCH_SIZE]] + Batches(refs[HOOK_BATCH_SIZE..])
  }

  function Flat(batches: seq<seq<Ref>>): seq<Ref> {
    if batches == [] then [] else batches[0] + Flat(batches[1..])
  }

  function Columns(refs: seq<Ref>): Options {
    Options(seq(|refs|, i requires 0 <= i < |refs| => refs[i].oldID),
            seq(|refs|, i requires 0 <= i < |refs| => refs[i].newID),
            seq(|refs|, i requires 0 <= i < |refs| => refs[i].name))
  }

  /** The batches lose, repeat and reorder nothing; all are full but perhaps the last, none is empty. */
  lemma {:induction false} BatchesAreAll(refs: seq<Ref>)
    ensures Flat(Batches(refs)) == refs
    ensures forall i :: 0 <= i < |Batches(refs)| - 1 ==> |Batches(refs)[i]| == HOOK_BATCH_SIZE
    ensures forall b :: b in Batches(refs) ==> 1 <= |b| <= HOOK_BATCH_SIZE
    decreases |refs|
  {
    if refs != [] && |refs| <= HOOK_BATCH_SIZE {
      assert [refs][1..] == [];
      assert refs + [] == refs;
    } else if refs != [] {
      var first, rest := refs[..HOOK_BATCH_SIZE], refs[HOOK_BATCH_SIZE..];
      BatchesAreAll(rest);
      assert ([first] + Batches(rest))[1..] == Batches(rest);
      assert first + rest == refs;
    }
  }

  predicate Full(batches: seq<seq<Ref>>) {
    forall b :: b in batches ==> |b| == HOOK_BATCH_SIZE
  }

  lemma FullFirst(first: seq<Ref>, later: seq<Ref>)
    requires |first| == HOOK_BATCH_SIZE
    ensures Batches(first + later) == [first] + Batches(later)
  {
    var all := first + later;
    assert all[..HOOK_BATCH_SIZE] == first && all[HOOK_BATCH_SIZE..] == later;
    if later == [] {
      assert all == first;
    }
  }

  /** Full batches in front stay as they are, whatever follows. */
  lemma {:induction false} FullStay(full: seq<seq<Ref>>, rest: seq<Ref>)
    requires Full(full)
    ensures Batches(Flat(full) + rest) == full + Batches(rest)
  {
    if full == [] {
      assert [] + rest == rest;
    } else {
      assert full[0] in full && full == [full[0]] + full[1..];
      assert Flat(full) + rest == full[0] + (Flat(full[1..]) + rest);
      FullFirst(full[0], Flat(full[1..]) + rest);
      FullStay(full[1..], rest);
    }
  }

  lemma {:induction false} FlatMore(full: seq<seq<Ref>>, batch: seq<Ref>)
    ensures Flat(full + [batch]) == Flat(full) + batch
  {
    if full == [] {
      assert [] + [batch] == [batch] && [batch][1..] == [];
      assert batch + [] == batch;
    } else {
      assert (full + [batch])[1..] == full[1..] + [batch];
      FlatMore(full[1..], batch);
      assert full[0] + (Flat(full[1..]) + batch) == (full[0] + Flat(full[1..])) + batch;
    }
  }

  /** What the server is sent for a list of references, if it refuses none of it. */
  function Requests(refs: seq<Ref>): seq<Options> {
    AllColumns(Batches(refs))
  }

  function AllColumns(batches: seq<seq<Ref>>): (r: seq<Options>)
    ensures |r| == |batches| && forall i :: 0 <= i < |r| ==> r[i] == Columns(batches[i])
  {
    if batches == [] then [] else [Columns(batches[0])] + AllColumns(batches[1..])
  }

  lemma ColumnsAppend(a: seq<seq<Ref>>, b: seq<seq<Ref>>)
    ensures AllColumns(a + b) == AllColumns(a) + AllColumns(b)
  {
    var all := AllColumns(a + b);
    forall i | 0 <= i < |all| ensures all[i] == (AllColumns(a) + AllColumns(b))[i] {
      assert (a + b)[i] == if i < |a| then a[i] else b[i - |a|];
    }
  }

  // ----- the loop

  /** The references checked so far are those in full batches already sent and those held back. */
  ghost predicate Progress(sent: seq<seq<Ref>>, held: seq<Ref>, checked: seq<Ref>) {
    Full(sent) && |held| < HOOK_BATCH_SIZE && Flat(sent) + held == checked
  }

  lemma Hold(sent: seq<seq<Ref>>, held: seq<Ref>, checked: seq<Ref>, ref: Ref)
    requires Progress(sent, held, checked) && |held| + 1 < HOOK_BATCH_SIZE
    ensures Progress(sent, held + [ref], checked + [ref])
  {
    assert Flat(sent) + (held + [ref]) == (Flat(sent) + held) + [ref];
  }

  lemma FlushBatch(sent: seq<seq<Ref>>, batch: seq<Ref>, checked: seq<Ref>, rest: seq<Ref>)
    requires Full(sent) && |batch| == HOOK_BATCH_SIZE && Flat(sent) + batch == checked
    ensures Progress(sent + [batch], [], checked)
    ensures AllColumns(sent + [batch]) == AllColumns(sent) + [Columns(batch)] <= Requests(checked + rest)
  {
    FlatMore(sent, batch);
    ColumnsAppend(sent, [batch]);
    SentSoFar(sent + [batch], rest);
  }

  lemma Flush(sent: seq<seq<Ref>>, held: seq<Ref>, checked: seq<Ref>, ref: Ref, all: seq<Ref>)
    requires Progress(sent, held, checked) && |held| + 1 == HOOK_BATCH_SIZE && checked + [ref] <= all
    ensures var more := sent + [held + [ref]];
      Progress(more, [], checked + [ref]) && AllColumns(more) == AllColumns(sent) + [Columns(held + [ref])]
      && AllColumns(more) <= Requests(all)
  {
    assert Flat(sent) + (held + [ref]) == (Flat(sent) + held) + [ref];
    FlushBatch(sent, held + [ref], checked + [ref], all[|checked| + 1..]);
    assert checked + [ref] + all[|checked| + 1..] == all;
  }

  /** What was sent is the beginning of what will have been sent in the end. */
  lemma SentSoFar(sent: seq<seq<Ref>>, rest: seq<Ref>)
    requires Full(sent)
    ensures Requests(Flat(sent) + rest) == AllColumns(sent) + Requests(rest)
  {
    FullStay(sent, rest);
    ColumnsAppend(sent, Batches(rest));
  }

  lemma LastRequest(sent: seq<seq<Ref>>, held: seq<Ref>, all: seq<Ref>)
    requires Progress(sent, held, all)
    ensures Requests(all) == AllColumns(sent) + if held == [] then [] else [Columns(held)]
  {
    SentSoFar(sent, held);
  }

  lemma NextAnswer(refuses: Options -> bool, calls: seq<Options>, options: Options)
    requires NoneRefused(refuses, calls)
    ensures if refuses(options) then RefusedLast(refuses, calls + [options])
            else NoneRefused(refuses, calls + [options])
  {
    assert (calls + [options])[..|calls|] == calls;
  }

  lemma {:induction false} CheckedPrefix(isWiki: bool, procReceive: bool, lines: seq<Fields>, n: nat)
    requires n <= |lines|
    ensures Checked(isWiki, procReceive, lines[..n]) <= Checked(isWiki, procReceive, lines)
  {
    if n < |lines| {
      CheckedPrefix(isWiki, procReceive, lines[..|lines| - 1], n);
      assert lines[..|lines| - 1][..n] == lines[..n];
    } else {
      assert lines[..n] == lines;
    }
  }

  /** The first entries of the three arrays hold these references. */
  ghost predicate Holds(oldIDs: array<string>, newIDs: array<string>, names: array<string>, refs: seq<Ref>)
    reads oldIDs, newIDs, names
  {
    && |refs| <= oldIDs.Length && |refs| <= newIDs.Length && |refs| <= names.Length
    && forall k :: 0 <= k < |refs| ==>
         oldIDs[k] == refs[k].oldID && newIDs[k] == refs[k].newID && names[k] == refs[k].name
  }

  /** A batch is sent as the first `count` entries of each array. */
  method Slices(oldIDs: array<string>, newIDs: array<string>, names: array<string>, count: nat, ghost held: seq<Ref>)
    returns (options: Options)
    requires |held| == count && Holds(oldIDs, newIDs, names, held)
    ensures options == Columns(held)
  {
    options := Options(oldIDs[..count], newIDs[..count], names[..count]);
    assert options.oldIDs == Columns(held).oldIDs;
    assert options.newIDs == Columns(held).newIDs;
    assert options.names == Columns(held).names;
  }

  method Put(oldIDs: array<string>, newIDs: array<string>, names: array<string>, count: nat,
             fields: Fields, ghost held: seq<Ref>)
    requires |fields| == 3 && |held| == count && Holds(oldIDs, newIDs, names, held)
    requires count < oldIDs.Length && count < newIDs.Length && count < names.Length
    requires oldIDs != newIDs && oldIDs != names && newIDs != names
    modifies oldIDs, newIDs, names
    ensures Holds(oldIDs, newIDs, names, held + [Ref(fields[0], fields[1], fields[2])])
  {
    oldIDs[count], newIDs[count], names[count] := fields[0], fields[1], fields[2];
  }

  /** What was sent when the hook gives up: nothing refused before, the last request refused. */
  ghost predicate RefusedLast(refuses: Options -> bool, calls: seq<Options>) {
    calls != [] && refuses(calls[|calls| - 1]) && NoneRefused(refuses, calls[..|calls| - 1])
  }

  ghost predicate NoneRefused(refuses: Options -> bool, calls: seq<Options>) {
    forall c :: c in calls ==> !refuses(c)
  }

  /** The loop of the hook: it sends the batches in order, up to the first one the server refuses. */
  method PreReceive(isWiki: bool, procReceive: bool, lines: seq<Fields>, refuses: Options -> bool)
    returns (ok: bool, calls: seq<Options>)
    ensures calls <= Requests(Checked(isWiki, procReceive, lines))
    ensures ok ==> calls == Requests(Checked(isWiki, procReceive, lines)) && NoneRefused(refuses, calls)
    ensures !ok ==> RefusedLast(refuses, calls)
  {
    var oldIDs := new string[HOOK_BATCH_SIZE](_ => "");
    var newIDs := new string[HOOK_BATCH_SIZE](_ => "");
    var names := new string[HOOK_BATCH_SIZE](_ => "");
    var count := 0;
    ghost var sent, held: seq<Ref>, all := [], [], Checked(isWiki, procReceive, lines);
    calls := [];
    for i := 0 to |lines|
      invariant |held| == count && Holds(oldIDs, newIDs, names, held)
      invariant Progress(sent, held, Checked(isWiki, procReceive, lines[..i]))
      invariant calls == AllColumns(sent) && NoneRefused(refuses, calls)
    {
      ghost var checked := Checked(isWiki, procReceive, lines[..i]);
      assert lines[..i + 1][..i] == lines[..i];
      CheckedPrefix(isWiki, procReceive, lines, i + 1);
      if isWiki {
        continue;
      }
      var fields := lines[i];
      if |fields| != 3 {
        continue;
      }
      if procReceive || "refs/heads/" <= fields[2] || "refs/tags/" <= fields[2] {
        ghost var ref := Ref(fields[0], fields[1], fields[2]);
        Put(oldIDs, newIDs, names, count, fields, held);
        count := count + 1;
        if count >= HOOK_BATCH_SIZE {
          var options := Slices(oldIDs, newIDs, names, count, held + [ref]);
          Flush(sent, held, checked, ref, all);
          NextAnswer(refuses, calls, options);
          calls := calls + [options];
          sent, held := sent + [held + [ref]], [];
          if refuses(options) {
            return false, calls;
          }
          count := 0;
        } else {
          Hold(sent, held, checked, ref);
          held := held + [ref];
        }
      }
    }
    assert lines[..|lines|] == lines;
    LastRequest(sent, held, all);
    if count > 0 {
      var options := Slices(oldIDs, newIDs, names, count, held);
      NextAnswer(refuses, calls, options);
      calls := calls + [options];
      if refuses(options) {
        return false, calls;
      }
    }
    return true, calls;
  }

  // ----- what the server sees of the input

  /** A line by itself if it is checked. */
  function CheckedLine(isWiki: bool, procReceive: bool, f: Fields): (r: seq<Fields>)
    ensures forall g :: g in r ==> |g| == 3
  {
    if !isWiki && |f| == 3 && (procReceive || "refs/heads/" <= f[2] || "refs/tags/" <= f[2]) then [f] else []
  }

  /** The lines that are checked, from the first on. */
  function CheckedLines(isWiki: bool, procReceive: bool, lines: seq<Fields>): (r: seq<Fields>)
    ensures forall f :: f in r ==> |f| == 3
  {
    if lines == [] then []
    else CheckedLine(isWiki, procReceive, lines[0]) + CheckedLines(isWiki, procReceive, lines[1..])
  }

  function AllOld(calls: seq<Options>): seq<string> {
    if calls == [] then [] else calls[0].oldIDs + AllOld(calls[1..])
  }

  function AllNew(calls: seq<Options>): seq<string> {
    if calls == [] then [] else calls[0].newIDs + AllNew(calls[1..])
  }

  function AllNames(calls: seq<Options>): seq<string> {
    if calls == [] then [] else calls[0].names + AllNames(calls[1..])
  }

  lemma {:induction false} FlatColumns(batches: seq<seq<Ref>>)
    ensures AllOld(AllColumns(batches)) == Columns(Flat(batches)).oldIDs
    ensures AllNew(AllColumns(batches)) == Columns(Flat(batches)).newIDs
    ensures AllNames(AllColumns(batches)) == Columns(Flat(batches)).names
  {
    if batches != [] {
      FlatColumns(batches[1..]);
      assert AllColumns(batches)[1..] == AllColumns(batches[1..]);
    }
  }

  /** These references are the three fields of these lines. */
  ghost predicate FromLines(refs: seq<Ref>, ls: seq<Fields>) {
    |refs| == |ls| && forall i :: 0 <= i < |ls| ==> |ls[i]| == 3 && refs[i] == Ref(ls[i][0], ls[i][1], ls[i][2])
  }

  lemma FromBoth(a: seq<Ref>, b: seq<Ref>, ls: seq<Fields>, ms: seq<Fields>)
    requires FromLines(a, ls) && FromLines(b, ms)
    ensures FromLines(a + b, ls + ms)
  {
  }

  lemma {:induction false} CheckedAre(isWiki: bool, procReceive: bool, lines: seq<Fields>)
    ensures FromLines(Checked(isWiki, procReceive, lines), CheckedLines(isWiki, procReceive, lines))
  {
    if lines != [] {
      var before, f := lines[..|lines| - 1], lines[|lines| - 1];
      CheckedAre(isWiki, procReceive, before);
      assert lines == before + [f];
      CheckedLinesLast(isWiki, procReceive, before, f);
      var last := if Checks(isWiki, procReceive, f) then [Ref(f[0], f[1], f[2])] else [];
      FromBoth(Checked(isWiki, procReceive, before), last,
               CheckedLines(isWiki, procReceive, before), CheckedLine(isWiki, procReceive, f));
    }
  }

  lemma Associate(a: seq<Fields>, b: seq<Fields>, c: seq<Fields>)
    ensures (a + b) + c == a + (b + c)
  {
  }

  lemma {:induction false} CheckedLinesLast(isWiki: bool, procReceive: bool, lines: seq<Fields>, f: Fields)
    ensures CheckedLines(isWiki, procReceive, lines + [f]) ==
      CheckedLines(isWiki, procReceive, lines) + CheckedLine(isWiki, procReceive, f)
  {
    var all := lines + [f];
    if lines == [] {
      assert all[0] == f && all[1..] == [];
    } else {
      assert all[0] == lines[0] && all[1..] == lines[1..] + [f];
      CheckedLinesLast(isWiki, procReceive, lines[1..], f);
      Associate(CheckedLine(isWiki, procReceive, lines[0]), CheckedLines(isWiki, procReceive, lines[1..]),
                CheckedLine(isWiki, procReceive, f));
    }
  }

  /** The columns of `o` are the first, second and third fields of the lines. */
  ghost predicate ColumnsAre(o: Options, ls: seq<Fields>) {
    && |o.oldIDs| == |ls| && |o.newIDs| == |ls| && |o.names| == |ls|
    && forall i :: 0 <= i < |ls| ==>
         |ls[i]| == 3 && o.oldIDs[i] == ls[i][0] && o.newIDs[i] == ls[i][1] && o.names[i] == ls[i][2]
  }

  lemma LineColumns(refs: seq<Ref>, ls: seq<Fields>)
    requires FromLines(refs, ls)
    ensures ColumnsAre(Columns(refs), ls)
  {
  }

  /**
   The three columns the server is sent, request after request, are the first, second and third
   fields of the checked lines in order.
   */
  lemma SentColumns(isWiki: bool, procReceive: bool, lines: seq<Fields>)
    ensures var sent := Requests(Checked(isWiki, procReceive, lines));
      ColumnsAre(Options(AllOld(sent), AllNew(sent), AllNames(sent)), CheckedLines(isWiki, procReceive, lines))
  {
    var refs := Checked(isWiki, procReceive, lines);
    BatchesAreAll(refs);
    FlatColumns(Batches(refs));
    CheckedAre(isWiki, procReceive, lines);
    LineColumns(refs, CheckedLines(isWiki, procReceive, lines));
  }

  /** A request carries between 1 and 500 references, every one but the last exactly 500. */
  lemma RequestSizes(refs: seq<Ref>, i: nat)
    requires i < |Requests(refs)|
    ensures var o := Requests(refs)[i];
      1 <= |o.oldIDs| == |o.newIDs| == |o.names| <= 500 && (i + 1 < |Requests(refs)| ==> |o.names| == 500)
  {
    BatchesAreAll(refs);
    assert Batches(refs)[i] in Batches(refs);
  }
}
