/**
 The authorized_keys file as the code reads and writes it (models/asymkey/
 ssh_key_authorized_keys.go:46-201, services/asymkey/ssh_key_authorized_keys.go:33-83).
 */
module AuthorizedKeys {
  import opened KeyLines

  lemma NextLine(s: string, i: nat)
    requires s != "" && i <= |s| && (i < |s| ==> s[i] == '\n') && forall j :: 0 <= j < i ==> s[j] != '\n'
    ensures Lines(s) == [DropCR(s[..i])] + Lines(if i == |s| then "" else s[i + 1..])
  {
    NewlineIs(s, i);
  }

  /** `bufio.Scanner` with its default line splitting. */
  class Scanner {
    var input: string
    var text: string

    constructor (input: string)
      ensures this.input == input
    {
      this.input := input;
      text := "";
    }

    method Scan() returns (more: bool)
      modifies this
      ensures more == (old(input) != "")
      ensures more ==> Lines(old(input)) == [text] + Lines(input) && |input| < |old(input)|
      ensures !more ==> input == ""
    {
      if input == "" {
        return false;
      }
      var i := 0;
      while i < |input| && input[i] != '\n'
        invariant 0 <= i <= |input| && forall j :: 0 <= j < i ==> input[j] != '\n'
      {
        i := i + 1;
      }
      NextLine(input, i);
      var line := input[..i];
      text := if line != "" && line[|line| - 1] == '\r' then line[..|line| - 1] else line;
      input := if i == |input| then "" else input[i + 1..];
      return true;
    }
  }

  function KeyText(key: Key): string {
    if key.entry.Valid? then Entry(key.entry.command) else ""
  }

  /** `WriteAuthorizedStringForValidKey`: an invalid key writes nothing; a principal is written, too. */
  method WriteKey(key: Key, w: string) returns (out: string)
    ensures out == w + KeyText(key)
  {
    match key.entry {
      case Valid(command) =>
        out := w + PREFIX + "\n" + command + "\n";
        assert out == w + Entry(command);
      case Invalid =>
        out := w;
    }
  }

  lemma TextOfListed(key: Key)
    requires !key.principal
    ensures KeyText(key) == Entries(Commands([key]))
  {
    if key.entry.Valid? {
      var command := key.entry.command;
      assert Commands([key]) == [command];
      assert Entries([command]) == Entry(command) + Entries([command][1..]);
      assert [command][1..] == [];
    } else {
      assert Commands([key]) == [];
    }
  }

  lemma {:induction false} CommandsMore(keys: seq<Key>, key: Key)
    ensures Commands(keys + [key]) == Commands(keys) + Commands([key])
  {
    if keys == [] {
      assert keys + [key] == [key];
    } else {
      var first := if Listed(keys[0]) then [keys[0].entry.command] else [];
      assert (keys + [key])[1..] == keys[1..] + [key];
      CommandsMore(keys[1..], key);
      assert first + (Commands(keys[1..]) + Commands([key])) == (first + Commands(keys[1..])) + Commands([key]);
    }
  }

  lemma {:induction false} EntriesAppend(a: seq<Command>, b: seq<Command>)
    ensures Entries(a + b) == Entries(a) + Entries(b)
  {
    if a == [] {
      assert a + b == b;
    } else {
      var first := Entry(a[0]);
      assert (a + b)[1..] == a[1..] + b;
      EntriesAppend(a[1..], b);
      assert first + (Entries(a[1..]) + Entries(b)) == (first + Entries(a[1..])) + Entries(b);
    }
  }

  lemma PrincipalAddsNothing(key: Key, w: string)
    requires key.principal
    ensures w + Entries(Commands([key])) == w
  {
    assert Commands([key]) == [];
  }

  /** One key more in the loops over the keys. */
  lemma EntriesMore(w: string, keys: seq<Key>, i: nat)
    requires i < |keys|
    ensures w + Entries(Commands(keys[..i + 1])) == w + Entries(Commands(keys[..i])) + Entries(Commands([keys[i]]))
  {
    assert keys[..i] + [keys[i]] == keys[..i + 1];
    CommandsMore(keys[..i], keys[i]);
    EntriesAppend(Commands(keys[..i]), Commands([keys[i]]));
  }

  // ----- what is written, key by key

  /** A key adds the comment and its command, each as a line, unless it is a principal or invalid. */
  lemma AppendedOne(key: Key, file: string)
    ensures Appended([key], file) ==
      if key.principal || key.entry.Invalid? then file
      else file + "# gitea public key" + "\n" + key.entry.command + "\n"
  {
    if key.principal {
      PrincipalAddsNothing(key, file);
    } else {
      TextOfListed(key);
      if key.entry.Valid? {
        var command := key.entry.command;
        assert file + (PREFIX + "\n" + command + "\n") == file + PREFIX + "\n" + command + "\n";
      } else {
        assert file + "" == file;
      }
    }
  }

  /** Keys are added one after the other. */
  lemma AppendedInTurn(keys: seq<Key>, key: Key, file: string)
    ensures Appended([], file) == file
    ensures Appended(keys + [key], file) == Appended([key], Appended(keys, file))
  {
    assert file + "" == file;
    assert (keys + [key])[..|keys|] == keys && (keys + [key])[..|keys| + 1] == keys + [key];
    EntriesMore(file, keys + [key], |keys|);
  }

  /** A regeneration writes the keys as if into an empty file, and then the lines it keeps. */
  lemma RegeneratedIs(keys: seq<Key>, file: string)
    ensures Regenerated(keys, file) == Appended(keys, "") + Unlines(UnmanagedOf(Lines(file), |Lines(file)|))
  {
    KeepIs(Lines(file));
    assert "" + Entries(Commands(keys)) == Entries(Commands(keys));
  }

  lemma CopyStep(out: string, line: string, rest: seq<string>)
    ensures out + Unlines(Keep([line] + rest, false))
            == if Managed(line) then out + Unlines(Keep(rest, true))
               else (out + (line + "\n")) + Unlines(Keep(rest, false))
  {
    assert ([line] + rest)[1..] == rest;
    if !Managed(line) {
      assert ([line] + Keep(rest, false))[1..] == Keep(rest, false);
    }
  }

  class KeyFile {
    var present: bool
    var content: string

    predicate Valid()
      reads this
    {
      !present ==> content == ""
    }

    constructor ()
      ensures Valid() && content == ""
    {
      present := false;
      content := "";
    }

    /** `appendAuthorizedKeysToFile`: principals are left out, the file is created if it is missing. */
    method Append(keys: seq<Key>)
      requires Valid()
      modifies this
      ensures Valid() && content == Appended(keys, old(content))
    {
      present := true;
      assert keys[..0] == [];
      assert old(content) + "" == old(content);
      for i := 0 to |keys|
        invariant present && content == Appended(keys[..i], old(content))
      {
        EntriesMore(old(content), keys, i);
        if keys[i].principal {
          PrincipalAddsNothing(keys[i], content);
          continue;
        }
        TextOfListed(keys[i]);
        content := WriteKey(keys[i], content);
      }
      assert keys[..|keys|] == keys;
    }

    /** `RegeneratePublicKeys`, into a writer. */
    method Regenerate(keys: seq<Key>) returns (out: string)
      requires Valid()
      ensures out == Regenerated(keys, content)
    {
      out := "";
      assert keys[..0] == [];
      for i := 0 to |keys|
        invariant out == "" + Entries(Commands(keys[..i]))
      {
        EntriesMore("", keys, i);
        if keys[i].principal { // left out by the query
          PrincipalAddsNothing(keys[i], out);
          continue;
        }
        TextOfListed(keys[i]);
        out := WriteKey(keys[i], out);
      }
      assert keys[..|keys|] == keys && "" + Entries(Commands(keys)) == Entries(Commands(keys));
      if present {
        out := CopyUnmanaged(content, out);
      } else {
        assert out + "" == out;
      }
    }

    /** The loop over the old file: a managed comment drops the line after it too. */
    static method CopyUnmanaged(file: string, w: string) returns (out: string)
      ensures out == w + Unlines(Kept(file))
    {
      out := w;
      var scanner := new Scanner(file);
      var more := scanner.Scan();
      while more
        invariant fresh(scanner)
        invariant more ==> w + Unlines(Kept(file)) == out + Unlines(Keep([scanner.text] + Lines(scanner.input), false))
        invariant !more ==> w + Unlines(Kept(file)) == out
        decreases |scanner.input|, more
      {
        var line := scanner.text;
        CopyStep(out, line, Lines(scanner.input));
        if PREFIX <= line {
          var _ := scanner.Scan();
        } else {
          out := out + (line + "\n");
        }
        more := scanner.Scan();
      }
    }

    /** The new text replaces the file (`rewriteAllPublicKeys`). */
    method Rewrite(keys: seq<Key>)
      requires Valid()
      modifies this
      ensures Valid() && content == Regenerated(keys, old(content))
    {
      var out := Regenerate(keys);
      present := true;
      content := out;
    }

    method Replay(events: seq<Event>)
      requires Valid()
      modifies this
      ensures Valid() && content == FileAfter(old(content), events)
      decreases |events|
    {
      if events == [] {
        return;
      }
      match events[0] {
        case Append(keys) => Append(keys);
        case Regenerate(keys) => Rewrite(keys);
      }
      Replay(events[1..]);
    }
  }
}
