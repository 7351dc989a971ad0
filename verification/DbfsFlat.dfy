/**
 The file system a caller of models/dbfs is meant to see: every file is one flat
 sequence of bytes. Nothing here knows about blocks except the length of one `Read`,
 which stops at a block boundary.
 */
module DbfsFlat {

  import opened Bytes

  const MAX_INT64: int := 0x7fff_ffff_ffff_ffff

  datatype Error = NoError | EOF | ErrInvalid | ErrNotExist | ErrExist

  datatype FlatFile = FlatFile(path: string, blockSize: int, content: seq<byte>)

  /** What a caller can observe of an open handle. `metaId` 0 means "no such file". */
  datatype Handle = Handle(metaId: int, blockSize: int, allowRead: bool, allowWrite: bool, offset: int)

  /** All files, by row id, and the id the next created file gets. */
  datatype FlatFs = FlatFs(files: map<int, FlatFile>, nextId: int)

  /** What stays true of a handle, whatever is done through other handles. */
  predicate HandleOk(fs: FlatFs, h: Handle) {
    && 0 <= h.metaId < fs.nextId
    && 0 <= h.offset <= MAX_INT64
    && h.blockSize > 0
    && (h.metaId in fs.files ==> h.blockSize == fs.files[h.metaId].blockSize)
  }

  /** The bits of the `os.OpenFile` flag argument that `open` looks at. */
  datatype Flags = Flags(wronly: bool, rdwr: bool, create: bool, excl: bool, trunc: bool, append: bool)

  function Min(a: int, b: int): int { if a < b then a else b }

  function Zeros(n: nat): seq<byte> { seq(n, _ => 0) }

  /** `c` cut or zero-extended to exactly `n` bytes. */
  function Resize(c: seq<byte>, n: nat): seq<byte> {
    if n <= |c| then c[..n] else c + Zeros(n - |c|)
  }

  /** Byte `i` after writing `p` at `off`: the written range, the old bytes, zeros in a hole. */
  function OverwrittenByte(c: seq<byte>, off: nat, p: seq<byte>, i: nat): byte {
    if off <= i < off + |p| then p[i - off] else if i < |c| then c[i] else 0
  }

  /** `c` with `p` written at `off`; an empty write changes nothing, not even the length. */
  function Overwrite(c: seq<byte>, off: nat, p: seq<byte>): (r: seq<byte>)
    ensures |r| == if p != [] && off + |p| > |c| then off + |p| else |c|
  {
    var n := if p != [] && off + |p| > |c| then off + |p| else |c|;
    seq(n, i requires 0 <= i < n => OverwrittenByte(c, off, p, i))
  }

  function WithContent(fs: FlatFs, id: int, c: seq<byte>): FlatFs {
    if id in fs.files then fs.(files := fs.files[id := fs.files[id].(content := c)]) else fs
  }

  function Write(fs: FlatFs, h: Handle, p: seq<byte>): (FlatFs, Handle, int, Error)
    requires 0 <= h.offset
  {
    if !h.allowWrite then (fs, h, 0, ErrInvalid)
    else if h.metaId !in fs.files then (fs, h, 0, ErrNotExist)
    else
      (WithContent(fs, h.metaId, Overwrite(fs.files[h.metaId].content, h.offset, p)),
       h.(offset := h.offset + |p|), |p|, NoError)
  }

  /** Bytes one `Read` into a buffer of `len` bytes returns: up to the end of the block. */
  function ReadLen(size: nat, blockSize: int, off: nat, len: nat): (n: nat)
    requires blockSize > 0
    ensures n == 0 <==> off >= size || len == 0
    ensures n <= len && (n > 0 ==> off + n <= size)
  {
    if off >= size then 0 else Min(len, Min(blockSize - off % blockSize, size - off))
  }

  function Read(fs: FlatFs, h: Handle, len: nat): (Handle, seq<byte>, Error)
    requires 0 <= h.offset
    requires h.metaId in fs.files ==> fs.files[h.metaId].blockSize > 0
  {
    if !h.allowRead then (h, [], ErrInvalid)
    else if h.metaId !in fs.files then (h, [], ErrNotExist)
    else
      var f := fs.files[h.metaId];
      var n := ReadLen(|f.content|, f.blockSize, h.offset, len);
      if n == 0 then (h, [], EOF)
      else (h.(offset := h.offset + n), f.content[h.offset..h.offset + n], NoError)
  }

  /** Seeking fails, leaving the offset alone, exactly when the target is not an int64 >= 0. */
  function Seek(fs: FlatFs, h: Handle, n: int, whence: int): (Handle, int, Error) {
    if h.metaId == 0 then (h, 0, ErrInvalid)
    else if whence == 2 && h.metaId !in fs.files then (h, h.offset, ErrNotExist)
    else if whence < 0 || whence > 2 then (h, h.offset, ErrInvalid)
    else
      var base := if whence == 0 then 0 else if whence == 1 then h.offset else |fs.files[h.metaId].content|;
      if 0 <= base + n <= MAX_INT64 then (h.(offset := base + n), base + n, NoError)
      else (h, h.offset, ErrInvalid)
  }

  ghost predicate Exists(fs: FlatFs, path: string) {
    exists id :: id in fs.files && fs.files[id].path == path
  }

  ghost function IdOf(fs: FlatFs, path: string): (id: int)
    requires Exists(fs, path)
    ensures id in fs.files && fs.files[id].path == path
  {
    var id :| id in fs.files && fs.files[id].path == path; id
  }

  /** A handle as `newDbFile` makes it, before any access is granted. */
  ghost function Lookup(fs: FlatFs, path: string, defaultBlockSize: int): Handle {
    if Exists(fs, path) then Handle(IdOf(fs, path), fs.files[IdOf(fs, path)].blockSize, false, false, 0)
    else Handle(0, defaultBlockSize, false, false, 0)
  }

  /** O_TRUNC and O_APPEND, on a file that exists. */
  function Settle(fs: FlatFs, h: Handle, flag: Flags): (FlatFs, Handle)
    requires h.metaId in fs.files
  {
    var fs' := if flag.trunc then WithContent(fs, h.metaId, []) else fs;
    (fs', if flag.append then h.(offset := |fs'.files[h.metaId].content|) else h)
  }

  /** The write-access part of opening: create, then O_TRUNC and O_APPEND. */
  function OpenWritable(fs: FlatFs, h: Handle, path: string, flag: Flags): (FlatFs, Handle, Error) {
    if h.metaId in fs.files then
      if flag.create && flag.excl then (fs, h, ErrExist)
      else var r := Settle(fs, h, flag); (r.0, r.1, NoError)
    else if flag.create then
      var fs' := FlatFs(fs.files[fs.nextId := FlatFile(path, h.blockSize, [])], fs.nextId + 1);
      var r := Settle(fs', h.(metaId := fs.nextId), flag);
      (r.0, r.1, NoError)
    else (fs, h, ErrNotExist)
  }

  /** Opening the handle `h` of `path`: the new file system and handle, or why it fails. */
  function Open(fs: FlatFs, h: Handle, path: string, flag: Flags): (FlatFs, Handle, Error) {
    var write := flag.wronly || flag.rdwr;
    var h' := h.(allowRead := !flag.wronly, allowWrite := write);
    if write then OpenWritable(fs, h', path, flag)
    else (fs, h', if h.metaId in fs.files then NoError else ErrNotExist)
  }

  ghost function Remove(fs: FlatFs, path: string): (FlatFs, Error) {
    if Exists(fs, path) then (fs.(files := fs.files - {IdOf(fs, path)}), NoError)
    else (fs, ErrNotExist)
  }

  /** A write is: the content cut or zero-extended to the offset, the bytes, the old rest. */
  lemma OverwriteIsSplice(c: seq<byte>, off: nat, p: seq<byte>)
    requires p != []
    ensures Overwrite(c, off, p) == Resize(c, off) + p + (if off + |p| < |c| then c[off + |p|..] else [])
  {
  }

  lemma OverwriteNone(c: seq<byte>, off: nat)
    ensures Overwrite(c, off, []) == c
  {
  }

  /** Two adjacent writes are one write of the joined bytes. */
  lemma OverwriteAdjacent(c: seq<byte>, off: nat, p: seq<byte>, q: seq<byte>)
    ensures Overwrite(Overwrite(c, off, p), off + |p|, q) == Overwrite(c, off, p + q)
  {
    assert p == [] ==> p + q == q;
    assert q == [] ==> p + q == p;
  }

  /** Reading with a non-empty buffer until EOF, starting at `off`, collecting what each call returns. */
  function ReadToEof(c: seq<byte>, blockSize: int, off: nat, len: nat): (r: seq<byte>)
    requires blockSize > 0 && len > 0
    decreases |c| - off
  {
    var n := ReadLen(|c|, blockSize, off, len);
    if n == 0 then [] else c[off..off + n] + ReadToEof(c, blockSize, off + n, len)
  }

  lemma SplitSuffix(c: seq<byte>, a: nat, b: nat)
    requires a <= b <= |c|
    ensures c[a..] == c[a..b] + c[b..]
  {
  }

  /** Whatever the block and buffer size, that loop returns exactly the rest of the file. */
  lemma {:induction false} ReadToEofIsSuffix(c: seq<byte>, blockSize: int, off: nat, len: nat)
    requires blockSize > 0 && len > 0
    ensures ReadToEof(c, blockSize, off, len) == if off < |c| then c[off..] else []
    decreases |c| - off
  {
    var n := ReadLen(|c|, blockSize, off, len);
    if n > 0 {
      ReadToEofIsSuffix(c, blockSize, off + n, len);
      SplitSuffix(c, off, off + n);
    }
  }

  /** Write, seek back, read to the end: the written bytes come back first. */
  lemma WriteThenReadBack(fs: FlatFs, h: Handle, p: seq<byte>, len: nat)
    requires h.metaId != 0 && h.allowRead && h.allowWrite && h.metaId in fs.files
    requires 0 <= h.offset <= MAX_INT64 && len > 0 && fs.files[h.metaId].blockSize > 0
    ensures Write(fs, h, p).2 == |p| && Write(fs, h, p).3 == NoError
    ensures
      var fs', h' := Write(fs, h, p).0, Write(fs, h, p).1;
      h.metaId in fs'.files
      && fs'.files[h.metaId].blockSize == fs.files[h.metaId].blockSize
      && Seek(fs', h', h.offset, 0) == (h, h.offset, NoError)
      && p <= ReadToEof(fs'.files[h.metaId].content, fs.files[h.metaId].blockSize, h.offset, len)
  {
    var c := fs.files[h.metaId].content;
    var c' := Overwrite(c, h.offset, p);
    ReadToEofIsSuffix(c', fs.files[h.metaId].blockSize, h.offset, len);
    OverwriteReadBack(c, h.offset, p);
  }

  lemma OverwriteReadBack(c: seq<byte>, off: nat, p: seq<byte>)
    ensures p <= if off < |Overwrite(c, off, p)| then Overwrite(c, off, p)[off..] else []
  {
    if p != [] {
      assert forall i :: 0 <= i < |p| ==> Overwrite(c, off, p)[off..][i] == OverwrittenByte(c, off, p, off + i);
    }
  }

  // ----- histories

  /** One call; `h` is the index of the handle it goes through. */
  datatype Op =
    | OpOpen(path: string, flag: Flags)
    | OpSeek(h: nat, n: int64, whence: int)
    | OpWrite(h: nat, p: seq<byte>)
    | OpRead(h: nat, len: nat)
    | OpRemove(path: string)

  /** What the caller sees of one call. */
  datatype Out = OutOpen(e: Error) | OutPos(pos: int, e: Error) | OutData(data: seq<byte>, e: Error) | NoHandle

  datatype World = World(fs: FlatFs, handles: seq<Handle>)

  ghost predicate PathsUnique(fs: FlatFs) {
    forall a, b :: a in fs.files && b in fs.files && fs.files[a].path == fs.files[b].path ==> a == b
  }

  ghost predicate WorldOk(w: World) {
    && w.fs.nextId >= 1
    && PathsUnique(w.fs)
    && (forall id :: id in w.fs.files ==>
        1 <= id < w.fs.nextId && w.fs.files[id].blockSize > 0 && |w.fs.files[id].content| <= MAX_INT64)
    && (forall k :: 0 <= k < |w.handles| ==> HandleOk(w.fs, w.handles[k]))
  }

  /** A write stays within int64 offsets. */
  predicate Fits(w: World, op: Op) {
    op.OpWrite? && op.h < |w.handles| ==> w.handles[op.h].offset + |op.p| <= MAX_INT64
  }

  ghost function Step(w: World, op: Op, defaultBlockSize: int): (World, Out)
    requires WorldOk(w)
  {
    match op
    case OpOpen(path, flag) =>
      var (fs, h, e) := Open(w.fs, Lookup(w.fs, path, defaultBlockSize), path, flag);
      (World(fs, if e == NoError then w.handles + [h] else w.handles), OutOpen(e))
    case OpRemove(path) =>
      var (fs, e) := Remove(w.fs, path);
      (World(fs, w.handles), OutOpen(e))
    case OpSeek(k, n, whence) =>
      if k >= |w.handles| then (w, NoHandle)
      else
        var (h, pos, e) := Seek(w.fs, w.handles[k], n, whence);
        (World(w.fs, w.handles[k := h]), OutPos(pos, e))
    case OpWrite(k, p) =>
      if k >= |w.handles| then (w, NoHandle)
      else
        var (fs, h, n, e) := Write(w.fs, w.handles[k], p);
        (World(fs, w.handles[k := h]), OutPos(n, e))
    case OpRead(k, len) =>
      if k >= |w.handles| then (w, NoHandle)
      else
        var (h, data, e) := Read(w.fs, w.handles[k], len);
        (World(w.fs, w.handles[k := h]), OutData(data, e))
  }

  /** A whole history, oldest call first, and what the caller saw of each call. */
  ghost function Run(w: World, ops: seq<Op>, defaultBlockSize: int): (World, seq<Out>)
    requires WorldOk(w) && defaultBlockSize > 0
    requires AllFit(w, ops, defaultBlockSize)
    decreases |ops|
  {
    if ops == [] then (w, [])
    else
      var out := Step(w, ops[0], defaultBlockSize).1;
      var (w', outs) := Run(NextWorld(w, ops[0], defaultBlockSize), ops[1..], defaultBlockSize);
      (w', [out] + outs)
  }

  ghost predicate AllFit(w: World, ops: seq<Op>, defaultBlockSize: int)
    requires WorldOk(w) && defaultBlockSize > 0
    decreases |ops|
  {
    ops == [] || (Fits(w, ops[0]) && AllFit(NextWorld(w, ops[0], defaultBlockSize), ops[1..], defaultBlockSize))
  }

  ghost function NextWorld(w: World, op: Op, defaultBlockSize: int): (w': World)
    requires WorldOk(w) && Fits(w, op) && defaultBlockSize > 0
    ensures WorldOk(w')
  {
    StepOk(w, op, defaultBlockSize);
    Step(w, op, defaultBlockSize).0
  }

  /** No call breaks what holds of the other handles. */
  lemma StepOk(w: World, op: Op, defaultBlockSize: int)
    requires WorldOk(w) && Fits(w, op) && defaultBlockSize > 0
    ensures WorldOk(Step(w, op, defaultBlockSize).0)
  {
    match op
    case OpOpen(path, flag) =>
      var h := Lookup(w.fs, path, defaultBlockSize);
      OpenOk(w, h, path, flag);
      var (fs, h', e) := Open(w.fs, h, path, flag);
      HandleAdded(World(fs, w.handles), h');
    case OpRemove(path) =>
    case OpSeek(k, n, whence) =>
    case OpWrite(k, p) => if k < |w.handles| { WriteOk(w, k, p); }
    case OpRead(k, len) =>
  }

  lemma WriteOk(w: World, k: nat, p: seq<byte>)
    requires WorldOk(w) && k < |w.handles| && w.handles[k].offset + |p| <= MAX_INT64
    ensures var (fs, h, n, e) := Write(w.fs, w.handles[k], p); WorldOk(World(fs, w.handles[k := h]))
  {
  }

  lemma HandleAdded(w: World, h: Handle)
    requires WorldOk(w) && HandleOk(w.fs, h)
    ensures WorldOk(World(w.fs, w.handles + [h]))
  {
  }

  lemma SettleOk(w: World, h: Handle, flag: Flags)
    requires WorldOk(w) && HandleOk(w.fs, h) && h.metaId in w.fs.files
    ensures var (fs, h') := Settle(w.fs, h, flag); WorldOk(World(fs, w.handles)) && HandleOk(fs, h')
  {
  }

  lemma CreateOk(w: World, path: string, blockSize: int)
    requires WorldOk(w) && !Exists(w.fs, path) && blockSize > 0
    ensures var files := w.fs.files[w.fs.nextId := FlatFile(path, blockSize, [])];
      WorldOk(World(FlatFs(files, w.fs.nextId + 1), w.handles))
  {
  }

  lemma OpenWritableOk(w: World, h: Handle, path: string, flag: Flags)
    requires WorldOk(w) && HandleOk(w.fs, h) && (h.metaId in w.fs.files || !Exists(w.fs, path))
    ensures var (fs, h', e) := OpenWritable(w.fs, h, path, flag); WorldOk(World(fs, w.handles)) && HandleOk(fs, h')
  {
    if h.metaId in w.fs.files {
      SettleOk(w, h, flag);
    } else if flag.create {
      var fs := FlatFs(w.fs.files[w.fs.nextId := FlatFile(path, h.blockSize, [])], w.fs.nextId + 1);
      CreateOk(w, path, h.blockSize);
      SettleOk(World(fs, w.handles), h.(metaId := w.fs.nextId), flag);
    }
  }

  lemma OpenOk(w: World, h: Handle, path: string, flag: Flags)
    requires WorldOk(w) && HandleOk(w.fs, h) && (h.metaId in w.fs.files || !Exists(w.fs, path))
    ensures var (fs, h', e) := Open(w.fs, h, path, flag); WorldOk(World(fs, w.handles)) && HandleOk(fs, h')
  {
    OpenWritableOk(w, h.(allowRead := !flag.wronly, allowWrite := flag.wronly || flag.rdwr), path, flag);
  }
}
