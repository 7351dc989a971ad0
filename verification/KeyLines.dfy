/**
 The authorized_keys file as text: what the line scanner sees, which lines are kept, and what is
 written (models/asymkey/ssh_key_authorized_keys.go:24-105, 160-201).
 */
module KeyLines {

  const PREFIX := "# gitea public key"

  predicate OneLine(s: string) {
    forall i :: 0 <= i < |s| ==> s[i] != '\n'
  }

  /** The second line of an entry as the template renders it. */
  type Command = s: string | "command=" <= s && OneLine(s) witness "command="

  /** What rendering a key gives: nothing for one that does not parse, or the second line of its entry. */
  datatype Rendered = Invalid | Valid(command: Command)

  /** A row of the key table. */
  datatype Key = Key(principal: bool, entry: Rendered)

  /** Keys that belong into the file. */
  predicate Listed(key: Key) {
    !key.principal && key.entry.Valid?
  }

  // ----- the scanner

  /** Index of the first newline, or the length. */
  function Newline(s: string): (i: nat)
    ensures i <= |s| && (i < |s| ==> s[i] == '\n')
    ensures forall j :: 0 <= j < i ==> s[j] != '\n'
  {
    if s == [] || s[0] == '\n' then 0 else 1 + Newline(s[1..])
  }

  function DropCR(line: string): string {
    if line != "" && line[|line| - 1] == '\r' then line[..|line| - 1] else line
  }

  /** The tokens of `bufio.ScanLines`: the last line may lack its newline. */
  function Lines(s: string): seq<string>
    decreases |s|
  {
    if s == "" then []
    else
      var i := Newline(s);
      [DropCR(s[..i])] + if i == |s| then [] else Lines(s[i + 1..])
  }

  predicate Managed(line: string) {
    PREFIX <= line
  }

  /** The lines a regeneration copies; `skip` says that the line before was a managed comment. */
  function Keep(lines: seq<string>, skip: bool): seq<string> {
    if lines == [] then []
    else if skip then Keep(lines[1..], false)
    else if Managed(lines[0]) then Keep(lines[1..], true)
    else [lines[0]] + Keep(lines[1..], false)
  }

  function Kept(file: string): seq<string> {
    Keep(Lines(file), false)
  }

  function Unlines(lines: seq<string>): string {
    if lines == [] then "" else lines[0] + "\n" + Unlines(lines[1..])
  }

  // ----- what is written

  function Commands(keys: seq<Key>): seq<Command> {
    if keys == [] then []
    else (if Listed(keys[0]) then [keys[0].entry.command] else []) + Commands(keys[1..])
  }

  function Entry(command: Command): string {
    PREFIX + "\n" + command + "\n"
  }

  function Entries(commands: seq<Command>): string {
    if commands == [] then "" else Entry(commands[0]) + Entries(commands[1..])
  }

  /** `RegeneratePublicKeys`: the entries of the table, then the lines it does not manage. */
  function Regenerated(keys: seq<Key>, file: string): string {
    Entries(Commands(keys)) + Unlines(Kept(file))
  }

  /** `appendAuthorizedKeysToFile`. */
  function Appended(keys: seq<Key>, file: string): string {
    file + Entries(Commands(keys))
  }

  // ----- lines

  lemma NewlineIs(s: string, i: nat)
    requires i <= |s| && (i < |s| ==> s[i] == '\n') && forall j :: 0 <= j < i ==> s[j] != '\n'
    ensures Newline(s) == i
  {
  }

  /** A whole line in front is one token. */
  lemma FirstLine(line: string, rest: string)
    requires OneLine(line)
    ensures Lines(line + "\n" + rest) == [DropCR(line)] + Lines(rest)
  {
    var s := line + "\n" + rest;
    NewlineIs(s, |line|);
    assert s[..|line|] == line && s[|line| + 1..] == rest;
  }

  lemma LastLine(line: string)
    requires OneLine(line) && line != ""
    ensures Lines(line) == [DropCR(line)]
  {
    NewlineIs(line, |line|);
    assert line[..|line|] == line;
  }

  lemma DropCRManaged(line: string)
    ensures Managed(DropCR(line)) <==> Managed(line)
  {
    if Managed(line) && |line| == |PREFIX| {
      assert line == PREFIX;
    }
  }

  lemma CommandIsKept(command: Command)
    ensures !Managed(DropCR(command)) && DropCR(PREFIX) == PREFIX && OneLine(PREFIX)
  {
    assert command[0] == 'c';
    DropCRManaged(command);
  }

  /** An entry in front is two tokens. */
  lemma EntryLines(command: Command, rest: string)
    ensures Lines(Entry(command) + rest) == [PREFIX, DropCR(command)] + Lines(rest)
  {
    CommandIsKept(command);
    assert Entry(command) + rest == PREFIX + "\n" + (command + "\n" + rest);
    FirstLine(PREFIX, command + "\n" + rest);
    FirstLine(command, rest);
  }

  /** Entries are skipped as a whole, whatever follows. */
  lemma {:induction false} EntriesAreSkipped(commands: seq<Command>, rest: string)
    ensures Keep(Lines(Entries(commands) + rest), false) == Keep(Lines(rest), false)
  {
    if commands == [] {
      assert "" + rest == rest;
    } else {
      var more := Entries(commands[1..]) + rest;
      assert Entries(commands) + rest == Entry(commands[0]) + more;
      EntryLines(commands[0], more);
      KeepPair(commands[0], Lines(more));
      EntriesAreSkipped(commands[1..], rest);
    }
  }

  lemma KeepPair(command: Command, lines: seq<string>)
    ensures Keep([PREFIX, DropCR(command)] + lines, false) == Keep(lines, false)
  {
    var all := [PREFIX, DropCR(command)] + lines;
    assert all[1..] == [DropCR(command)] + lines;
    assert all[1..][1..] == lines;
  }

  // ----- unmanaged lines written back

  function DropAll(lines: seq<string>): (r: seq<string>)
    ensures |r| == |lines|
  {
    if lines == [] then [] else [DropCR(lines[0])] + DropAll(lines[1..])
  }

  /** Lines that are whole and not managed: what `Keep` yields. */
  predicate Plain(lines: seq<string>) {
    forall l :: l in lines ==> OneLine(l) && !Managed(l)
  }

  lemma {:induction false} LinesAreWhole(s: string)
    ensures forall l :: l in Lines(s) ==> OneLine(l)
    decreases |s|
  {
    if s != "" {
      var i := Newline(s);
      var rest := if i == |s| then [] else Lines(s[i + 1..]);
      assert OneLine(DropCR(s[..i]));
      assert forall l :: l in Lines(s) ==> l == DropCR(s[..i]) || l in rest;
      if i < |s| {
        LinesAreWhole(s[i + 1..]);
      }
    }
  }

  lemma {:induction false} KeepIsPlain(lines: seq<string>, skip: bool)
    requires forall l :: l in lines ==> OneLine(l)
    ensures Plain(Keep(lines, skip))
  {
    if lines != [] {
      KeepIsPlain(lines[1..], !skip && Managed(lines[0]));
    }
  }

  lemma KeptIsPlain(file: string)
    ensures Plain(Kept(file))
  {
    LinesAreWhole(file);
    KeepIsPlain(Lines(file), false);
  }

  /** Plain lines written and scanned again are kept, each without one trailing CR. */
  lemma {:induction false} KeptUnlines(lines: seq<string>)
    requires Plain(lines)
    ensures Kept(Unlines(lines)) == DropAll(lines)
  {
    if lines != [] {
      var line, rest := lines[0], lines[1..];
      assert line in lines;
      FirstLine(line, Unlines(rest));
      DropCRManaged(line);
      KeptUnlines(rest);
    }
  }

  predicate NoCR(lines: seq<string>) {
    forall l :: l in lines ==> DropCR(l) == l
  }

  lemma {:induction false} DropAllShortens(lines: seq<string>)
    ensures NoCR(lines) ==> DropAll(lines) == lines
    ensures !NoCR(lines) ==> |Unlines(DropAll(lines))| < |Unlines(lines)|
    ensures |Unlines(DropAll(lines))| <= |Unlines(lines)|
  {
    if lines != [] {
      assert lines == [lines[0]] + lines[1..];
      DropAllShortens(lines[1..]);
    }
  }

  // ----- regenerating twice

  /** A second regeneration keeps the same lines, but takes one more trailing CR off each. */
  lemma SecondPass(keys: seq<Key>, again: seq<Key>, file: string)
    ensures Kept(Regenerated(keys, file)) == DropAll(Kept(file))
    ensures Regenerated(again, Regenerated(keys, file)) == Entries(Commands(again)) + Unlines(DropAll(Kept(file)))
  {
    EntriesAreSkipped(Commands(keys), Unlines(Kept(file)));
    KeptIsPlain(file);
    KeptUnlines(Kept(file));
  }

  /** Regenerating is idempotent exactly when no line it kept still ends in a CR. */
  lemma IdempotentIff(keys: seq<Key>, file: string)
    ensures Regenerated(keys, Regenerated(keys, file)) == Regenerated(keys, file) <==> NoCR(Kept(file))
  {
    SecondPass(keys, keys, file);
    DropAllShortens(Kept(file));
  }

  /** The smallest file that shows it: a line of two CRs. */
  lemma NotIdempotent()
    ensures Regenerated([], Regenerated([], "\r\r\n")) == "\n" != Regenerated([], "\r\r\n")
  {
    var file := "\r\r\n";
    assert file == "\r\r" + "\n" + "";
    FirstLine("\r\r", "");
    assert DropCR("\r\r") == "\r";
    assert Kept(file) == ["\r"];
    SecondPass([], [], file);
    assert DropAll(["\r"]) == [""];
    assert Unlines([""]) == "\n";
    assert Unlines(["\r"]) == "\r\n";
  }

  // ----- appending

  /** Where the last line starts that lacks its newline; the length if no line does. */
  function TailStart(s: string): (i: nat)
    ensures i <= |s| && (i > 0 ==> s[i - 1] == '\n')
    ensures forall j :: i <= j < |s| ==> s[j] != '\n'
  {
    if s == "" || s[|s| - 1] == '\n' then |s| else TailStart(s[..|s| - 1])
  }

  /** Does a scan of these lines end with a managed comment waiting for its second line? */
  predicate Waits(lines: seq<string>, skip: bool) {
    if lines == [] then skip else Waits(lines[1..], !skip && Managed(lines[0]))
  }

  /**
   An appended entry will be recognised: no managed comment waits for its second line, and the file
   ends with a whole line, or in an unterminated comment, which swallows the entry's own comment.
   */
  predicate Settled(file: string) {
    var i := TailStart(file);
    !Waits(Lines(file[..i]), false) && (file[i..] == "" || Managed(file[i..]))
  }

  predicate Whole(s: string) {
    s == "" || s[|s| - 1] == '\n'
  }

  lemma LineCut(s: string, i: nat)
    requires i < |s| && s[i] == '\n' && forall j :: 0 <= j < i ==> s[j] != '\n'
    ensures OneLine(s[..i]) && s == s[..i] + "\n" + s[i + 1..]
    ensures Whole(s) ==> Whole(s[i + 1..])
  {
  }

  lemma Reassociate(a: string, b: string, c: string)
    ensures (a + "\n" + b) + c == a + "\n" + (b + c)
  {
  }

  lemma MoreLines(line: string, a: seq<string>, b: seq<string>)
    ensures [line] + (a + b) == ([line] + a) + b
  {
  }

  lemma LinesStep(line: string, rest: string, more: string)
    requires OneLine(line) && Lines(rest + more) == Lines(rest) + Lines(more)
    ensures Lines((line + "\n" + rest) + more) == Lines(line + "\n" + rest) + Lines(more)
  {
    Reassociate(line, rest, more);
    FirstLine(line, rest);
    FirstLine(line, rest + more);
    MoreLines(DropCR(line), Lines(rest), Lines(more));
  }

  lemma WholeHasNewline(s: string)
    requires Whole(s) && s != ""
    ensures Newline(s) < |s|
  {
    assert s[|s| - 1] == '\n';
  }

  /** Behind whole lines the scanner starts afresh. */
  lemma {:induction false} LinesAppend(s: string, more: string)
    requires Whole(s)
    ensures Lines(s + more) == Lines(s) + Lines(more)
    decreases |s|
  {
    if s == "" {
      assert s + more == more;
    } else {
      var i := Newline(s);
      WholeHasNewline(s);
      LineCut(s, i);
      LinesAppend(s[i + 1..], more);
      LinesStep(s[..i], s[i + 1..], more);
    }
  }

  lemma {:induction false} KeepAppend(a: seq<string>, b: seq<string>, skip: bool)
    ensures Keep(a + b, skip) == Keep(a, skip) + Keep(b, Waits(a, skip))
    ensures Waits(a + b, skip) == Waits(b, Waits(a, skip))
  {
    if a == [] {
      assert a + b == b;
    } else {
      assert (a + b)[1..] == a[1..] + b;
      KeepAppend(a[1..], b, !skip && Managed(a[0]));
    }
  }

  /** No proper part of the comment, followed by the comment, reads as the comment. */
  lemma MergedManaged(tail: string)
    requires tail != ""
    ensures Managed(tail + PREFIX) <==> Managed(tail)
  {
    var merged := tail + PREFIX;
    if |tail| < |PREFIX| {
      assert merged[|tail|] == '#';
      assert forall k :: 1 <= k < |PREFIX| ==> PREFIX[k] != '#';
    } else {
      assert merged[..|PREFIX|] == tail[..|PREFIX|];
    }
  }

  /** An entry after an unterminated line: the line and the comment become one token. */
  lemma MergedLines(tail: string, command: Command, rest: string)
    requires tail != "" && OneLine(tail)
    ensures Lines(tail + Entry(command) + rest) == [tail + PREFIX, DropCR(command)] + Lines(rest)
  {
    CommandIsKept(command);
    assert tail + Entry(command) + rest == (tail + PREFIX) + "\n" + (command + "\n" + rest);
    FirstLine(tail + PREFIX, command + "\n" + rest);
    FirstLine(command, rest);
  }

  lemma KeepTwo(a: string, b: string, rest: seq<string>, skip: bool)
    ensures Keep([a, b] + rest, skip)
            == if skip || !Managed(a) then (if skip then [] else [a]) + Keep([b] + rest, false)
               else Keep(rest, false)
  {
    var all := [a, b] + rest;
    assert all[1..] == [b] + rest;
    assert all[1..][1..] == rest;
  }

  lemma KeepCommand(command: Command, rest: seq<string>)
    ensures Keep([DropCR(command)] + rest, false) == [DropCR(command)] + Keep(rest, false)
  {
    CommandIsKept(command);
    assert ([DropCR(command)] + rest)[1..] == rest;
  }

  lemma TwoKept(command: Command, token: string, rest: seq<string>, skip: bool)
    requires Keep(rest, false) == []
    ensures Keep([token, DropCR(command)] + rest, skip)
            == if skip then [DropCR(command)] else if Managed(token) then [] else [token, DropCR(command)]
  {
    KeepTwo(token, DropCR(command), rest, skip);
    KeepCommand(command, rest);
  }

  /** A token, a command and whole entries: only the first two can be kept. */
  lemma EntryAtEnd(command: Command, token: string, commands: seq<Command>, skip: bool)
    ensures Keep([token, DropCR(command)] + Lines(Entries(commands)), skip)
            == if skip then [DropCR(command)] else if Managed(token) then [] else [token, DropCR(command)]
  {
    var rest := Lines(Entries(commands));
    assert Keep(rest, false) == [] by {
      assert Entries(commands) + "" == Entries(commands);
      EntriesAreSkipped(commands, "");
    }
    TwoKept(command, token, rest, skip);
  }

  /** Entries after an unterminated line, or after none. */
  lemma AppendToTail(tail: string, commands: seq<Command>, skip: bool)
    requires commands != [] && OneLine(tail)
    ensures var before := Keep(Lines(tail), skip); var after := Keep(Lines(tail + Entries(commands)), skip);
      if !skip && (tail == "" || Managed(tail)) then after == before else |after| == |before| + 1
  {
    var first, rest := commands[0], Entries(commands[1..]);
    assert tail + Entries(commands) == tail + Entry(first) + rest;
    if tail == "" {
      assert tail + Entry(first) + rest == Entry(first) + rest;
      EntryLines(first, rest);
      EntryAtEnd(first, PREFIX, commands[1..], skip);
    } else {
      MergedLines(tail, first, rest);
      MergedManaged(tail);
      EntryAtEnd(first, tail + PREFIX, commands[1..], skip);
      LastLine(tail);
      DropCRManaged(tail);
    }
  }

  /** Entries behind whole lines and a tail without newline. */
  lemma AppendToParts(whole: string, tail: string, commands: seq<Command>)
    requires commands != [] && Whole(whole) && OneLine(tail)
    ensures var before := Kept(whole + tail); var after := Kept(whole + (tail + Entries(commands)));
      if !Waits(Lines(whole), false) && (tail == "" || Managed(tail)) then after == before
      else |after| == |before| + 1
  {
    LinesAppend(whole, tail);
    LinesAppend(whole, tail + Entries(commands));
    KeepAppend(Lines(whole), Lines(tail), false);
    KeepAppend(Lines(whole), Lines(tail + Entries(commands)), false);
    AppendToTail(tail, commands, Waits(Lines(whole), false));
  }

  lemma TailParts(file: string, more: string)
    ensures var i := TailStart(file);
      Whole(file[..i]) && OneLine(file[i..]) && file + more == file[..i] + (file[i..] + more)
      && file == file[..i] + file[i..]
  {
  }

  /** With entries at its end the scanner keeps what it kept, or, of an unsettled file, one line more. */
  lemma AppendKeeps(file: string, commands: seq<Command>)
    requires commands != []
    ensures var before := Kept(file); var after := Kept(file + Entries(commands));
      if Settled(file) then after == before else |after| == |before| + 1
  {
    var i := TailStart(file);
    TailParts(file, Entries(commands));
    AppendToParts(file[..i], file[i..], commands);
  }

  /** Regenerating after an append ignores the append exactly when the file was settled. */
  lemma AppendThenRegenerateIff(keys: seq<Key>, added: seq<Key>, file: string)
    requires Commands(added) != []
    ensures Regenerated(keys, Appended(added, file)) == Regenerated(keys, file) <==> Settled(file)
  {
    AppendKeeps(file, Commands(added));
    KeptIsPlain(file);
    KeptIsPlain(Appended(added, file));
    if !Settled(file) {
      UnlinesCount(Kept(file));
      UnlinesCount(Kept(Appended(added, file)));
      SameText(Entries(Commands(keys)), Unlines(Kept(file)), Unlines(Kept(Appended(added, file))));
    }
  }

  lemma SameText(a: string, b: string, c: string)
    ensures a + b == a + c ==> b == c
  {
    if a + b == a + c {
      assert b == (a + b)[|a|..] == (a + c)[|a|..] == c;
    }
  }

  function Newlines(s: string): nat {
    if s == "" then 0 else (if s[0] == '\n' then 1 else 0) + Newlines(s[1..])
  }

  lemma {:induction false} NewlinesAfter(line: string, rest: string)
    requires OneLine(line)
    ensures Newlines(line + "\n" + rest) == 1 + Newlines(rest)
  {
    var s := line + "\n" + rest;
    if line == "" {
      assert s[1..] == rest;
    } else {
      assert s[1..] == line[1..] + "\n" + rest;
      NewlinesAfter(line[1..], rest);
    }
  }

  /** Whole lines written out hold one newline each. */
  lemma {:induction false} UnlinesCount(lines: seq<string>)
    requires Plain(lines)
    ensures Newlines(Unlines(lines)) == |lines|
  {
    if lines != [] {
      assert lines[0] in lines;
      NewlinesAfter(lines[0], Unlines(lines[1..]));
      UnlinesCount(lines[1..]);
    }
  }

  lemma {:induction false} TailIs(s: string, i: nat)
    requires i <= |s| && (i > 0 ==> s[i - 1] == '\n') && forall j :: i <= j < |s| ==> s[j] != '\n'
    ensures TailStart(s) == i
  {
    if s != "" && s[|s| - 1] != '\n' {
      TailIs(s[..|s| - 1], i);
    }
  }

  lemma WholeIsSettledIff(file: string)
    requires Whole(file)
    ensures Settled(file) <==> !Waits(Lines(file), false)
  {
    TailIs(file, |file|);
    assert file[..|file|] == file;
  }

  /** A file whose last line lacks its newline swallows the comment of the first entry. */
  lemma AppendNotSettled(command: Command)
    ensures !Settled("ssh-rsa A")
    ensures Regenerated([], Appended([Key(false, Valid(command))], "ssh-rsa A")) != Regenerated([], "ssh-rsa A")
  {
    var file := "ssh-rsa A";
    TailIs(file, 0);
    assert file[0..] == file && file[0] != PREFIX[0];
    assert Commands([Key(false, Valid(command))]) == [command];
    AppendThenRegenerateIff([], [Key(false, Valid(command))], file);
  }

  // ----- which lines are kept

  /** Line `i` is a managed comment, and not the second line of an entry. */
  predicate StartsEntry(lines: seq<string>, i: nat)
    requires i < |lines|
  {
    "# gitea public key" <= lines[i] && (i == 0 || !StartsEntry(lines, i - 1))
  }

  /** Line `i` belongs to no entry. */
  predicate Unmanaged(lines: seq<string>, i: nat)
    requires i < |lines|
  {
    !StartsEntry(lines, i) && (i == 0 || !StartsEntry(lines, i - 1))
  }

  /** Of the first `n` lines those that belong to no entry. */
  function UnmanagedOf(lines: seq<string>, n: nat): seq<string>
    requires n <= |lines|
  {
    if n == 0 then []
    else UnmanagedOf(lines, n - 1) + if Unmanaged(lines, n - 1) then [lines[n - 1]] else []
  }

  lemma {:induction false} KeepUpTo(lines: seq<string>, n: nat)
    requires n <= |lines|
    ensures Keep(lines[..n], false) == UnmanagedOf(lines, n)
    ensures Waits(lines[..n], false) <==> n > 0 && StartsEntry(lines, n - 1)
  {
    if n > 0 {
      var before, last := lines[..n - 1], [lines[n - 1]];
      KeepUpTo(lines, n - 1);
      assert lines[..n] == before + last;
      KeepAppend(before, last, false);
      assert last[1..] == [];
    }
  }

  /** A regeneration copies, in order, exactly the lines that belong to no entry. */
  lemma KeepIs(lines: seq<string>)
    ensures Keep(lines, false) == UnmanagedOf(lines, |lines|)
  {
    KeepUpTo(lines, |lines|);
    assert lines[..|lines|] == lines;
  }

  // ----- histories of the file

  /** Entries and plain lines leave nothing waiting. */
  lemma RegeneratedIsSettled(keys: seq<Key>, file: string)
    ensures Settled(Regenerated(keys, file))
  {
    var lines := Kept(file);
    var out := Regenerated(keys, file);
    KeptIsPlain(file);
    EntriesAreWhole(Commands(keys));
    UnlinesWait(lines);
    WholeIsSettledIff(out);
    LinesAppend(Entries(Commands(keys)), Unlines(lines));
    KeepAppend(Lines(Entries(Commands(keys))), Lines(Unlines(lines)), false);
  }

  lemma {:induction false} EntriesAreWhole(commands: seq<Command>)
    ensures Whole(Entries(commands)) && !Waits(Lines(Entries(commands)), false)
  {
    if commands != [] {
      var rest := Entries(commands[1..]);
      EntriesAreWhole(commands[1..]);
      EntryLines(commands[0], rest);
      var pair := [PREFIX, DropCR(commands[0])];
      KeepAppend(pair, Lines(rest), false);
      assert pair[1..][1..] == [];
    }
  }

  lemma {:induction false} UnlinesWait(lines: seq<string>)
    requires Plain(lines)
    ensures Whole(Unlines(lines)) && !Waits(Lines(Unlines(lines)), false)
  {
    if lines != [] {
      assert lines[0] in lines;
      UnlinesWait(lines[1..]);
      FirstLine(lines[0], Unlines(lines[1..]));
      DropCRManaged(lines[0]);
    }
  }

  lemma AppendedWaits(whole: string, tail: string, commands: seq<Command>)
    requires Whole(whole) && !Waits(Lines(whole), false)
    requires commands != [] && OneLine(tail) && (tail == "" || Managed(tail))
    ensures !Waits(Lines(whole + (tail + Entries(commands))), false)
  {
    var end := tail + Entries(commands);
    TailWaits(tail, commands);
    LinesAppend(whole, end);
    KeepAppend(Lines(whole), Lines(end), false);
  }

  lemma AppendedWhole(file: string, commands: seq<Command>)
    requires commands != []
    ensures Whole(file + Entries(commands))
  {
    EntriesAreWhole(commands);
    assert Entries(commands) != "";
  }

  /** Appending entries to a settled file settles it. */
  lemma AppendedIsSettled(keys: seq<Key>, file: string)
    requires Settled(file)
    ensures Settled(Appended(keys, file))
  {
    var commands := Commands(keys);
    if commands == [] {
      assert file + "" == file;
    } else {
      var i := TailStart(file);
      var all := file + Entries(commands);
      AppendedWhole(file, commands);
      WholeIsSettledIff(all);
      TailParts(file, Entries(commands));
      AppendedWaits(file[..i], file[i..], commands);
    }
  }

  lemma TailWaits(tail: string, commands: seq<Command>)
    requires commands != [] && OneLine(tail) && (tail == "" || Managed(tail))
    ensures !Waits(Lines(tail + Entries(commands)), false)
  {
    var rest := Entries(commands[1..]);
    assert tail + Entries(commands) == tail + Entry(commands[0]) + rest;
    EntriesAreWhole(commands[1..]);
    var token := tail + PREFIX;
    var pair := [token, DropCR(commands[0])];
    KeepAppend(pair, Lines(rest), false);
    assert pair[1..][1..] == [];
    if tail == "" {
      assert tail + Entry(commands[0]) + rest == Entry(commands[0]) + rest && token == PREFIX;
      EntryLines(commands[0], rest);
    } else {
      MergedLines(tail, commands[0], rest);
      MergedManaged(tail);
    }
  }

  datatype Event = Append(keys: seq<Key>) | Regenerate(keys: seq<Key>)

  function FileStep(file: string, e: Event): string {
    match e
    case Append(keys) => Appended(keys, file)
    case Regenerate(keys) => Regenerated(keys, file)
  }

  function FileAfter(file: string, events: seq<Event>): string
    decreases |events|
  {
    if events == [] then file else FileAfter(FileStep(file, events[0]), events[1..])
  }

  /** An append keeps every line that is not managed; a regeneration takes one trailing CR off each. */
  lemma StepKeepsLines(file: string, e: Event)
    requires Settled(file)
    ensures Settled(FileStep(file, e))
    ensures Kept(FileStep(file, e)) == if e.Regenerate? then DropAll(Kept(file)) else Kept(file)
  {
    match e
    case Append(keys) =>
      AppendedIsSettled(keys, file);
      if Commands(keys) == [] {
        assert Appended(keys, file) == file;
      } else {
        AppendKeeps(file, Commands(keys));
      }
    case Regenerate(keys) =>
      RegeneratedIsSettled(keys, file);
      SecondPass(keys, keys, file);
  }

  function Regenerations(events: seq<Event>): nat {
    if events == [] then 0 else (if events[0].Regenerate? then 1 else 0) + Regenerations(events[1..])
  }

  /** `n` times one trailing CR off each line that has one. */
  function DropTimes(lines: seq<string>, n: nat): (r: seq<string>)
    ensures |r| == |lines|
    decreases n
  {
    if n == 0 then lines else DropTimes(DropAll(lines), n - 1)
  }

  /** A file once settled stays settled. */
  lemma {:induction false} StaysSettled(file: string, events: seq<Event>)
    requires Settled(file)
    ensures Settled(FileAfter(file, events))
    decreases |events|
  {
    if events != [] {
      StepKeepsLines(file, events[0]);
      StaysSettled(FileStep(file, events[0]), events[1..]);
    }
  }

  /** The lines that are not managed, after the regenerations of a history. */
  function LinesAfter(lines: seq<string>, events: seq<Event>): seq<string>
    decreases |events|
  {
    if events == [] then lines
    else LinesAfter(if events[0].Regenerate? then DropAll(lines) else lines, events[1..])
  }

  lemma {:induction false} LinesAfterCounts(lines: seq<string>, events: seq<Event>)
    ensures LinesAfter(lines, events) == DropTimes(lines, Regenerations(events))
    decreases |events|
  {
    if events != [] {
      LinesAfterCounts(if events[0].Regenerate? then DropAll(lines) else lines, events[1..]);
    }
  }

  lemma {:induction false} LinesStay(file: string, events: seq<Event>)
    requires Settled(file)
    ensures Kept(FileAfter(file, events)) == LinesAfter(Kept(file), events)
    decreases |events|
  {
    if events != [] {
      StepKeepsLines(file, events[0]);
      LinesStay(FileStep(file, events[0]), events[1..]);
    }
  }

  /**
   Over any history from a settled file, the lines that are not managed stay, in order, none lost or
   doubled; every regeneration takes one trailing CR off those that still have one.
   */
  lemma UnmanagedLinesStay(file: string, events: seq<Event>)
    requires Settled(file)
    ensures Kept(FileAfter(file, events)) == DropTimes(Kept(file), Regenerations(events))
  {
    LinesStay(file, events);
    LinesAfterCounts(Kept(file), events);
  }

  lemma {:induction false} DropNothing(lines: seq<string>, n: nat)
    requires NoCR(lines)
    ensures DropTimes(lines, n) == lines
    decreases n
  {
    if n > 0 {
      DropAllShortens(lines);
      DropNothing(lines, n - 1);
    }
  }

  /** Without trailing CRs, a regeneration after any history gives what it would have given at the start. */
  lemma RegenerationForgetsHistory(file: string, events: seq<Event>, keys: seq<Key>)
    requires Settled(file)
    ensures Regenerated(keys, FileAfter(file, events)) ==
      Entries(Commands(keys)) + Unlines(DropTimes(Kept(file), Regenerations(events)))
    ensures NoCR(Kept(file)) ==> Regenerated(keys, FileAfter(file, events)) == Regenerated(keys, file)
  {
    UnmanagedLinesStay(file, events);
    if NoCR(Kept(file)) {
      DropNothing(Kept(file), Regenerations(events));
    }
  }
}
