/**
 What each call on the flat file system means to its caller, told by paths and contents alone
 (models/dbfs/dbfile.go:77-320, models/dbfs/dbfs.go:71-108).
 */
module DbfsCalls {
  import opened Bytes
  import opened DbfsFlat

  datatype Option<+T> = None | Some(value: T)

  /** The content of the file with a path, if there is one. */
  ghost function Content(fs: FlatFs, path: string): Option<seq<byte>> {
    if Exists(fs, path) then Some(fs.files[IdOf(fs, path)].content) else None
  }

  lemma ContentIs(fs: FlatFs, path: string, id: int)
    requires PathsUnique(fs) && id in fs.files && fs.files[id].path == path
    ensures Content(fs, path) == Some(fs.files[id].content) && IdOf(fs, path) == id
  {
  }

  /** Two file systems with the same files of a path have the same content there. */
  lemma SameContent(fs: FlatFs, fs': FlatFs, path: string)
    requires PathsUnique(fs) && PathsUnique(fs')
    requires forall id :: id in fs.files && fs.files[id].path == path ==> id in fs'.files && fs'.files[id] == fs.files[id]
    requires forall id :: id in fs'.files && fs'.files[id].path == path ==> id in fs.files && fs.files[id].path == path
    ensures Content(fs', path) == Content(fs, path)
  {
    if Exists(fs, path) {
      ContentIs(fs', path, IdOf(fs, path));
    }
  }

  /** Opening for writing: O_WRONLY or O_RDWR. */
  predicate Writes(flag: Flags) {
    flag.wronly || flag.rdwr
  }

  /** The error an open gives, from its flags and whether the file was there. */
  function OpenError(was: bool, flag: Flags): Error {
    if was && Writes(flag) && flag.create && flag.excl then ErrExist
    else if !was && !(Writes(flag) && flag.create) then ErrNotExist
    else NoError
  }

  lemma OtherPath(fs: FlatFs, fs': FlatFs, id: int, path: string, other: string)
    requires PathsUnique(fs) && PathsUnique(fs') && other != path && id in fs'.files && fs'.files[id].path == path
    requires id in fs.files ==> fs.files[id].path == path
    requires fs'.files == fs.files[id := fs'.files[id]]
    ensures Content(fs', other) == Content(fs, other)
  {
    SameContent(fs, fs', other);
  }

  /** What an open leaves of a file that is there. */
  lemma SettleContent(fs: FlatFs, h: Handle, flag: Flags, path: string)
    requires PathsUnique(fs) && h.metaId in fs.files && fs.files[h.metaId].path == path
    ensures var (fs', h') := Settle(fs, h, flag);
      PathsUnique(fs') && h.metaId in fs'.files && fs'.files[h.metaId].path == path
      && fs'.files == fs.files[h.metaId := fs'.files[h.metaId]]
      && Content(fs', path) == Some(if flag.trunc then [] else fs.files[h.metaId].content)
      && h' == h.(offset := if flag.append then |fs'.files[h.metaId].content| else h.offset)
  {
    var (fs', h') := Settle(fs, h, flag);
    ContentIs(fs', path, h.metaId);
  }

  /**
   What opening for writing does with a handle of `path`: the file must be there or be created, and
   not be there if it must be new; only then anything changes, namely this file, which is empty if
   it is new or truncated, and the handle's place in it.
   */
  ghost predicate Opened(fs: FlatFs, h: Handle, path: string, flag: Flags, fs': FlatFs, h': Handle, err: Error) {
    var was := h.metaId in fs.files;
    && err == (if was && flag.create && flag.excl then ErrExist else if !was && !flag.create then ErrNotExist else NoError)
    && (err != NoError ==> fs' == fs && h' == h)
    && (err == NoError ==>
         && h'.metaId in fs'.files && (was ==> h'.metaId == h.metaId)
         && fs'.files[h'.metaId].path == path && fs'.files - {h'.metaId} == fs.files - {h'.metaId}
         && fs'.files[h'.metaId].content == (if !was || flag.trunc then [] else fs.files[h.metaId].content)
         && h' == h.(metaId := h'.metaId,
                     offset := if flag.append then |fs'.files[h'.metaId].content| else h.offset))
  }

  lemma OpenWritableMeans(fs: FlatFs, h: Handle, path: string, flag: Flags)
    requires h.metaId in fs.files ==> fs.files[h.metaId].path == path
    ensures var (fs', h', err) := OpenWritable(fs, h, path, flag); Opened(fs, h, path, flag, fs', h', err)
  {
  }

  /** Where the new handle of a successful open stands, and what it may do. */
  predicate OpenedAt(h: Handle, flag: Flags, size: nat) {
    && h.allowRead == !flag.wronly && h.allowWrite == Writes(flag)
    && h.offset == if Writes(flag) && flag.append then size else 0
  }

  /**
   An open, by its flags. It makes a file exactly if there is none and it may write and create; it
   fails with exactly the errors of `OpenError`, and then changes nothing; it empties the file if it
   writes and truncates; it leaves every other file alone.
   */
  lemma OpenMeans(w: World, path: string, flag: Flags, bs: int)
    requires WorldOk(w) && bs > 0
    ensures var was := Content(w.fs, path); var (w', out) := Step(w, OpOpen(path, flag), bs);
      && out == OutOpen(OpenError(was.Some?, flag))
      && (out.e != NoError ==> w' == w)
      && (Content(w'.fs, path).Some? <==> was.Some? || (flag.create && (flag.wronly || flag.rdwr)))
      && (out.e == NoError ==>
            Content(w'.fs, path) == Some(if was.None? || (Writes(flag) && flag.trunc) then [] else was.value)
            && |w'.handles| == |w.handles| + 1 && w'.handles[..|w.handles|] == w.handles
            && HandleOf(w', |w.handles|, path)
            && OpenedAt(w'.handles[|w.handles|], flag, |Content(w'.fs, path).value|))
  {
    var h := Lookup(w.fs, path, bs).(allowRead := !flag.wronly, allowWrite := Writes(flag));
    StepOk(w, OpOpen(path, flag), bs);
    if Exists(w.fs, path) {
      ContentIs(w.fs, path, h.metaId);
      if Writes(flag) && !(flag.create && flag.excl) {
        SettleContent(w.fs, h, flag, path);
      }
    } else if Writes(flag) && flag.create {
      var fs := FlatFs(w.fs.files[w.fs.nextId := FlatFile(path, bs, [])], w.fs.nextId + 1);
      SettleContent(fs, h.(metaId := w.fs.nextId), flag, path);
    }
  }

  lemma OpenLeavesOthers(w: World, path: string, flag: Flags, bs: int, other: string)
    requires WorldOk(w) && bs > 0 && other != path
    ensures Content(Step(w, OpOpen(path, flag), bs).0.fs, other) == Content(w.fs, other)
  {
    var h := Lookup(w.fs, path, bs).(allowRead := !flag.wronly, allowWrite := Writes(flag));
    StepOk(w, OpOpen(path, flag), bs);
    var fs' := Step(w, OpOpen(path, flag), bs).0.fs;
    if Exists(w.fs, path) {
      if Writes(flag) && !(flag.create && flag.excl) {
        SettleContent(w.fs, h, flag, path);
        OtherPath(w.fs, fs', h.metaId, path, other);
      }
    } else if Writes(flag) && flag.create {
      var fs := FlatFs(w.fs.files[w.fs.nextId := FlatFile(path, bs, [])], w.fs.nextId + 1);
      SettleContent(fs, h.(metaId := w.fs.nextId), flag, path);
      OtherPath(w.fs, fs', w.fs.nextId, path, other);
    }
  }

  /** Handle `k` is one of the file with this path. */
  predicate HandleOf(w: World, k: nat, path: string) {
    k < |w.handles| && w.handles[k].metaId in w.fs.files && w.fs.files[w.handles[k].metaId].path == path
  }

  // ----- reading and writing

  /** A write through a handle of a file: refused without write access, otherwise over the content. */
  lemma WriteMeans(w: World, k: nat, path: string, p: seq<byte>, bs: int)
    requires WorldOk(w) && bs > 0 && HandleOf(w, k, path) && Fits(w, OpWrite(k, p))
    ensures var c := Content(w.fs, path); var off := w.handles[k].offset; var (w', out) := Step(w, OpWrite(k, p), bs);
      c.Some?
      && if !w.handles[k].allowWrite then out == OutPos(0, ErrInvalid) && w' == w
         else
           out == OutPos(|p|, NoError) && HandleOf(w', k, path)
           && w'.handles == w.handles[k := w.handles[k].(offset := off + |p|)]
           && Content(w'.fs, path) ==
              Some(if p == [] then c.value
                   else Resize(c.value, off) + p + (if off + |p| < |c.value| then c.value[off + |p|..] else []))
  {
    var h := w.handles[k];
    var c := w.fs.files[h.metaId].content;
    ContentIs(w.fs, path, h.metaId);
    StepOk(w, OpWrite(k, p), bs);
    if h.allowWrite {
      ContentIs(Step(w, OpWrite(k, p), bs).0.fs, path, h.metaId);
      if p == [] {
        OverwriteNone(c, h.offset);
      } else {
        OverwriteIsSplice(c, h.offset, p);
      }
    }
  }

  lemma WriteLeavesOthers(w: World, k: nat, path: string, p: seq<byte>, bs: int, other: string)
    requires WorldOk(w) && bs > 0 && HandleOf(w, k, path) && Fits(w, OpWrite(k, p)) && other != path
    ensures Content(Step(w, OpWrite(k, p), bs).0.fs, other) == Content(w.fs, other)
  {
    StepOk(w, OpWrite(k, p), bs);
    OtherPath(w.fs, Step(w, OpWrite(k, p), bs).0.fs, w.handles[k].metaId, path, other);
  }

  /**
   A read: refused without read access; otherwise the next bytes of the content, at least one unless
   the buffer is empty or the end is reached, which it says.
   */
  lemma ReadMeans(w: World, k: nat, path: string, len: nat, bs: int)
    requires WorldOk(w) && bs > 0 && HandleOf(w, k, path)
    ensures var c := Content(w.fs, path); var off := w.handles[k].offset; var (w', out) := Step(w, OpRead(k, len), bs);
      c.Some? && out.OutData? && w'.fs == w.fs
      && if !w.handles[k].allowRead then out == OutData([], ErrInvalid) && w' == w
         else
           w'.handles == w.handles[k := w.handles[k].(offset := off + |out.data|)]
           && |out.data| <= len
           && (out.e == EOF <==> off >= |c.value| || len == 0) && (out.e == NoError || out.e == EOF)
           && (out.e == EOF <==> out.data == [])
           && (out.e == NoError ==> off + |out.data| <= |c.value| && out.data == c.value[off..off + |out.data|])
  {
    var h := w.handles[k];
    ContentIs(w.fs, path, h.metaId);
    assert h.allowRead ==> w.handles[k := h.(offset := h.offset + 0)] == w.handles;
  }

  /** Bytes put at the end of a content, and over its start. */
  lemma SplicedAt(c: seq<byte>, p: seq<byte>)
    ensures Resize(c, |c|) + p + [] == c + p
    ensures Resize(c, 0) + p + (if |p| < |c| then c[|p|..] else []) == p + (if |p| < |c| then c[|p|..] else [])
    ensures p == [] ==> c + p == c && p + (if |p| < |c| then c[|p|..] else []) == c
  {
  }

  /** What follows an open: writing through the new handle, at the end or over the start. */
  lemma OpenThenWrite(w: World, path: string, flag: Flags, p: seq<byte>, bs: int)
    requires WorldOk(w) && bs > 0
    requires OpenError(Content(w.fs, path).Some?, flag) == NoError
    requires var w1 := Step(w, OpOpen(path, flag), bs).0; Fits(w1, OpWrite(|w.handles|, p))
    ensures var w1 := Step(w, OpOpen(path, flag), bs).0;
      WorldOk(w1)
      && var c := Content(w1.fs, path); var (w2, out) := Step(w1, OpWrite(|w.handles|, p), bs);
         c.Some?
         && if !(flag.wronly || flag.rdwr) then out == OutPos(0, ErrInvalid) && w2 == w1
            else
              out == OutPos(|p|, NoError)
              && Content(w2.fs, path) ==
                 Some(if flag.append then c.value + p else p + (if |p| < |c.value| then c.value[|p|..] else []))
  {
    var k := |w.handles|;
    var w1 := Step(w, OpOpen(path, flag), bs).0;
    StepOk(w, OpOpen(path, flag), bs);
    OpenMeans(w, path, flag, bs);
    WriteMeans(w1, k, path, p, bs);
    SplicedAt(Content(w1.fs, path).value, p);
  }

  /** And reading through it: refused exactly for O_WRONLY; from the start unless it appends. */
  lemma OpenThenRead(w: World, path: string, flag: Flags, len: nat, bs: int)
    requires WorldOk(w) && bs > 0
    requires OpenError(Content(w.fs, path).Some?, flag) == NoError
    ensures var w1 := Step(w, OpOpen(path, flag), bs).0;
      WorldOk(w1)
      && var c := Content(w1.fs, path); var out := Step(w1, OpRead(|w.handles|, len), bs).1;
         c.Some? && out.OutData?
         && (out.e == ErrInvalid <==> flag.wronly)
         && (!flag.wronly && flag.rdwr && flag.append ==> out == OutData([], EOF))
         && (!flag.wronly && !(flag.rdwr && flag.append) ==>
               out.data <= c.value && (out.e == NoError <==> c.value != [] && len > 0))
  {
    var w1 := Step(w, OpOpen(path, flag), bs).0;
    StepOk(w, OpOpen(path, flag), bs);
    OpenMeans(w, path, flag, bs);
    ReadMeans(w1, |w.handles|, path, len, bs);
  }

  // ----- seeking and removing

  /** A seek: from the start, from where the handle stands, or from the end; anything else is refused. */
  lemma SeekMeans(w: World, k: nat, path: string, n: int64, whence: int, bs: int)
    requires WorldOk(w) && bs > 0 && HandleOf(w, k, path)
    ensures var c := Content(w.fs, path); var off := w.handles[k].offset;
      var (w', out) := Step(w, OpSeek(k, n, whence), bs);
      c.Some? && w'.fs == w.fs
      && var target := if whence == 0 then n else if whence == 1 then off + n else |c.value| + n;
         if 0 <= whence <= 2 && 0 <= target <= MAX_INT64
         then out == OutPos(target, NoError) && w'.handles == w.handles[k := w.handles[k].(offset := target)]
         else out == OutPos(off, ErrInvalid) && w' == w
  {
    ContentIs(w.fs, path, w.handles[k].metaId);
    assert w.handles[k := w.handles[k]] == w.handles;
  }

  /** A removed file is gone, for its path and for its handles; no other file is touched. */
  lemma RemoveMeans(w: World, path: string, bs: int, other: string)
    requires WorldOk(w) && bs > 0 && other != path
    ensures var (w', out) := Step(w, OpRemove(path), bs);
      out == OutOpen(if Content(w.fs, path).Some? then NoError else ErrNotExist)
      && Content(w'.fs, path) == None && Content(w'.fs, other) == Content(w.fs, other)
      && w'.handles == w.handles && forall k: nat :: !HandleOf(w', k, path)
  {
    var fs' := Step(w, OpRemove(path), bs).0.fs;
    SameContent(w.fs, fs', other);
  }

  /** Through a handle whose file was removed everything but a seek from the start or in place fails. */
  lemma RemovedHandle(w: World, k: nat, p: seq<byte>, len: nat, bs: int)
    requires WorldOk(w) && bs > 0 && k < |w.handles| && w.handles[k].metaId !in w.fs.files
    requires Fits(w, OpWrite(k, p))
    ensures Step(w, OpWrite(k, p), bs) == (w, OutPos(0, if w.handles[k].allowWrite then ErrNotExist else ErrInvalid))
    ensures Step(w, OpRead(k, len), bs) == (w, OutData([], if w.handles[k].allowRead then ErrNotExist else ErrInvalid))
  {
    assert w.handles[k := w.handles[k]] == w.handles;
  }
}
