/**
 The commands of a push as the proc-receive hook reads them from pkt-lines (cmd/hook.go:602-618):
 old id, new id and reference, separated by spaces.
 */
module ProcReceive {
  import opened Bytes
  import opened PktLine

  const SPACE: byte := 32

  datatype Command = Command(oldID: seq<byte>, newID: seq<byte>, ref: seq<byte>)

  datatype Option<+T> = None | Some(value: T)

  /** Index of the first space, or the length. */
  function Space(s: seq<byte>): (i: nat)
    ensures i <= |s| && (i < |s| ==> s[i] == SPACE)
    ensures forall j :: 0 <= j < i ==> s[j] != SPACE
  {
    if s == [] || s[0] == SPACE then 0 else 1 + Space(s[1..])
  }

  /** `strings.SplitN(line, " ", 3)`, if it gives three fields; the third may hold more spaces. */
  function ParseCommand(line: seq<byte>): Option<Command> {
    var i := Space(line);
    if i == |line| then None
    else
      var tail := line[i + 1..];
      var k := Space(tail);
      if k == |tail| then None else Some(Command(line[..i], tail[..k], tail[k + 1..]))
  }

  function CommandLine(c: Command): seq<byte> {
    c.oldID + [SPACE] + (c.newID + [SPACE] + c.ref)
  }

  predicate NoSpace(s: seq<byte>) {
    forall i :: 0 <= i < |s| ==> s[i] != SPACE
  }

  lemma SpaceIs(s: seq<byte>, i: nat)
    requires i <= |s| && (i < |s| ==> s[i] == SPACE) && NoSpace(s[..i])
    ensures Space(s) == i
  {
    assert forall j :: 0 <= j < i ==> s[..i][j] == s[j];
  }

  /** A word without spaces, a space and the rest come apart at that space, and only there. */
  lemma SpaceAfter(word: seq<byte>, rest: seq<byte>)
    requires NoSpace(word)
    ensures var s := word + [SPACE] + rest;
      Space(s) == |word| && s[..|word|] == word && s[|word| + 1..] == rest
  {
    var s := word + [SPACE] + rest;
    assert s[..|word|] == word && s[|word| + 1..] == rest;
    SpaceIs(s, |word|);
  }

  lemma SpaceCut(s: seq<byte>, i: nat)
    requires i < |s| && s[i] == SPACE && forall j :: 0 <= j < i ==> s[j] != SPACE
    ensures s == s[..i] + [SPACE] + s[i + 1..] && NoSpace(s[..i])
  {
  }

  lemma ParseOf(c: Command)
    requires NoSpace(c.oldID) && NoSpace(c.newID)
    ensures ParseCommand(CommandLine(c)) == Some(c)
  {
    SpaceAfter(c.oldID, c.newID + [SPACE] + c.ref);
    SpaceAfter(c.newID, c.ref);
  }

  lemma ParsedFrom(line: seq<byte>, c: Command)
    requires ParseCommand(line) == Some(c)
    ensures line == CommandLine(c) && NoSpace(c.oldID) && NoSpace(c.newID)
  {
    var i := Space(line);
    SpaceCut(line, i);
    SpaceCut(line[i + 1..], Space(line[i + 1..]));
  }

  /** A line parses exactly to the commands it is the line of, with ids that hold no space. */
  lemma ParseIff(line: seq<byte>, c: Command)
    ensures ParseCommand(line) == Some(c) <==> line == CommandLine(c) && NoSpace(c.oldID) && NoSpace(c.newID)
  {
    if ParseCommand(line) == Some(c) {
      ParsedFrom(line, c);
    } else if NoSpace(c.oldID) && NoSpace(c.newID) {
      ParseOf(c);
    }
  }

  /** The commands among some lines; a line without three fields is passed over. */
  function Commands(lines: seq<seq<byte>>): seq<Command> {
    if lines == [] then []
    else
      var c := ParseCommand(lines[|lines| - 1]);
      Commands(lines[..|lines| - 1]) + if c.Some? then [c.value] else []
  }

  function CommandLines(cs: seq<Command>): (r: seq<seq<byte>>)
    ensures |r| == |cs| && forall i :: 0 <= i < |r| ==> r[i] == CommandLine(cs[i])
  {
    seq(|cs|, i requires 0 <= i < |cs| => CommandLine(cs[i]))
  }

  lemma {:induction false} CommandsComeBack(cs: seq<Command>)
    requires forall c :: c in cs ==> NoSpace(c.oldID) && NoSpace(c.newID)
    ensures Commands(CommandLines(cs)) == cs
  {
    if cs != [] {
      var n := |cs| - 1;
      assert cs[n] in cs && cs == cs[..n] + [cs[n]];
      assert CommandLines(cs)[..n] == CommandLines(cs[..n]);
      ParseIff(CommandLine(cs[n]), cs[n]);
      CommandsComeBack(cs[..n]);
    }
  }

  /** The loop that collects the commands: up to the flush, or the first line that cannot be read. */
  method ReadCommands(reader: Reader) returns (ok: bool, cs: seq<Command>)
    modifies reader
    ensures ok == ReadRun(old(reader.input)).Lines?
    ensures ok ==> cs == Commands(ReadRun(old(reader.input)).lines)
    ensures ok ==> reader.input == ReadRun(old(reader.input)).rest
  {
    cs := [];
    ghost var lines: seq<seq<byte>> := [];
    assert Commands(lines) == [];
    ghost var whole := ReadRun(reader.input);
    StartPrepend(whole);
    while true
      invariant whole == Prepend(lines, ReadRun(reader.input)) && cs == Commands(lines)
      decreases |reader.input|
    {
      ReadShrinks(reader.input, AnyLine);
      var rs := reader.ReadPktLine(AnyLine);
      if rs.Failed? {
        return false, cs;
      }
      if rs.Flush? {
        assert lines + [] == lines;
        return true, cs;
      }
      PrependNext(lines, rs.data, ReadRun(reader.input));
      MoreCommands(lines, rs.data);
      lines := lines + [rs.data];
      var c := ParseCommand(rs.data);
      if c.None? {
        continue;
      }
      cs := cs + [c.value];
    }
  }

  lemma StartPrepend(r: Run)
    ensures Prepend([], r) == r
  {
    if r.Lines? {
      assert [] + r.lines == r.lines;
    }
  }

  lemma MoreCommands(lines: seq<seq<byte>>, line: seq<byte>)
    ensures Commands(lines + [line]) ==
      Commands(lines) + if ParseCommand(line).Some? then [ParseCommand(line).value] else []
  {
    assert (lines + [line])[..|lines|] == lines;
  }

  /** A line that is no command is passed over; the lines before and after it give their commands. */
  lemma {:induction false} BadLinesArePassedOver(a: seq<seq<byte>>, bad: seq<byte>, b: seq<seq<byte>>)
    requires forall c :: bad == CommandLine(c) ==> !NoSpace(c.oldID) || !NoSpace(c.newID)
    ensures Commands(a + [bad] + b) == Commands(a) + Commands(b)
  {
    if b == [] {
      assert a + [bad] + b == a + [bad];
      MoreCommands(a, bad);
      var c := ParseCommand(bad);
      if c.Some? {
        ParseIff(bad, c.value);
      }
    } else {
      var n := |b| - 1;
      assert a + [bad] + b == (a + [bad] + b[..n]) + [b[n]];
      MoreCommands(a + [bad] + b[..n], b[n]);
      BadLinesArePassedOver(a, bad, b[..n]);
    }
  }

  /** The commands one side writes are the commands the hook reads, and nothing behind them is touched. */
  method ReceiveCommands(sent: seq<Command>, later: seq<byte>) returns (cs: seq<Command>)
    requires forall c :: c in sent ==> NoSpace(c.oldID) && NoSpace(c.newID)
    requires forall c :: c in sent ==> |CommandLine(c)| <= MAX_LENGTH - 4
    ensures cs == sent
  {
    var lines := CommandLines(sent);
    forall d | d in lines ensures 1 <= |d| <= MAX_LENGTH - 4 {
      var i :| 0 <= i < |lines| && lines[i] == d;
      assert sent[i] in sent;
    }
    var w := new Writer();
    w.WriteLines(lines);
    var reader := new Reader(w.output + later);
    assert [] + Stream(lines) == Stream(lines);
    StreamRoundTrip(lines, later);
    CommandsComeBack(sent);
    var ok, got := ReadCommands(reader);
    cs := got;
  }
}
