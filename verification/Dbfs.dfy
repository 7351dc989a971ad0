/**
 models/dbfs: files kept as block rows in a table. Every operation is proved to do to the
 tables what its namesake in `DbfsFlat` does to flat byte arrays.
 */
module Dbfs {
  import opened Bytes
  import opened DbfsBlocks
  import F = DbfsFlat
  import opened DbfsFlat
  import C = DbfsCalls

  const DEFAULT_BLOCK_SIZE := 32 * 1024

  datatype Meta = Meta(fullPath: string, blockSize: int, fileSize: int, modified: int)

  /** Where the source's `offset % blockSize` puts a byte: in an aligned block. */
  lemma InBlock(bs: int, off: nat)
    requires bs > 0
    ensures 0 <= off % bs < bs && Aligned(bs, off - off % bs)
  {
    BlockStartIsMod(bs, off);
    StartAligned(bs, off);
  }

  function Max(a: int, b: int): int { if a > b then a else b }

  /** Two's complement wrap-around of one int64 addition. */
  function WrapInt64(x: int): int
    requires -2 * MAX_INT64 - 2 <= x <= 2 * MAX_INT64
  {
    if x > MAX_INT64 then x - 2 * (MAX_INT64 + 1)
    else if x < -MAX_INT64 - 1 then x + 2 * (MAX_INT64 + 1)
    else x
  }

  /** Reading a whole block's worth from a block start returns what that block holds. */
  lemma ReadWholeBlock(rows: seq<Row>, id: int, bs: int, size: nat, base: nat)
    requires bs > 0 && Aligned(bs, base)
    ensures ReadLen(size, bs, base, bs) == OldLen(size, bs, base)
    ensures forall j :: 0 <= j < OldLen(size, bs, base) ==>
      Flat(rows, id, bs, size)[base + j] == BlockByte(rows, id, base, j)
  {
    BlockStartIsMod(bs, base);
    forall j | 0 <= j < OldLen(size, bs, base)
      ensures Flat(rows, id, bs, size)[base + j] == BlockByte(rows, id, base, j)
    {
      BlockOf(bs, base, base + j);
    }
  }

  /** A byte read together with the one at `off` lies in the same block. */
  lemma ByteInRange(rows: seq<Row>, id: int, bs: int, size: nat, off: nat, i: nat)
    requires bs > 0 && off % bs + i < bs && off + i < size
    ensures Flat(rows, id, bs, size)[off + i] == BlockByte(rows, id, off - off % bs, off % bs + i)
  {
    BlockStartIsMod(bs, off);
    StartAligned(bs, off);
    BlockOf(bs, BlockStart(bs, off), off + i);
  }

  /** The tables dbfs_meta (row id to row) and dbfs_data. */
  class Database {
    var metas: map<int, Meta>
    var rows: seq<Row>
    var nextMetaId: int

    constructor ()
      ensures Valid() && Fs() == FlatFs(map[], 1)
    {
      metas, rows, nextMetaId := map[], [], 1;
    }

    ghost predicate Valid()
      reads this
    {
      && nextMetaId >= 1
      && Unique(rows)
      && (forall j :: 0 <= j < |rows| ==> rows[j].metaId in metas)
      && (forall id :: id in metas ==> 1 <= id < nextMetaId && FileOk(id, metas[id]))
      && UniquePaths()
    }

    ghost predicate FileOk(id: int, m: Meta)
      reads this
    {
      m.blockSize > 0 && 0 <= m.fileSize <= MAX_INT64 && BlocksOk(rows, id, m.blockSize, m.fileSize)
    }

    /** The file system that the tables stand for. */
    ghost function Fs(): (fs: FlatFs)
      requires Valid()
      reads this
    {
      FlatFs(map id | id in metas :: FileAt(id), nextMetaId)
    }

    ghost function FileAt(id: int): FlatFile
      requires id in metas && FileOk(id, metas[id])
      reads this
    {
      FlatFile(metas[id].fullPath, metas[id].blockSize, Flat(rows, id, metas[id].blockSize, metas[id].fileSize))
    }

    /** UPDATE dbfs_data, then INSERT when no row was updated. */
    method StoreBlock(id: int, off: int, blob: seq<byte>)
      modifies this`rows
      ensures rows == Upsert(old(rows), id, off, blob)
    {
      var updated := Find(rows, id, off) >= 0;
      rows := UpdateRows(rows, id, off, blob);
      if !updated {
        assert rows == old(rows);
        rows := rows + [Row(id, off, 0, blob)];
      }
    }

    /** All but the meta row of file `id` is in order; its rows fit a file of `size` bytes. */
    ghost predicate RowsFor(id: int, bs: int, size: int, fs0: FlatFs)
      reads this
    {
      && id in metas && bs == metas[id].blockSize > 0 && size >= 0
      && nextMetaId == fs0.nextId
      && Unique(rows)
      && BlocksOk(rows, id, bs, size)
      && (forall j :: 0 <= j < |rows| ==> rows[j].metaId in metas)
      && metas.Keys == fs0.files.Keys
      && (forall k :: k in metas ==> 1 <= k < nextMetaId && metas[k].fullPath == fs0.files[k].path)
      && (forall k :: k in metas && k != id ==> FileOk(k, metas[k]) && FileAt(k) == fs0.files[k])
      && bs == fs0.files[id].blockSize
    }

    method StorePatched(id: int, bs: int, size: int, base: int, pos: int, chunk: seq<byte>, blob: seq<byte>,
                        ghost fs0: FlatFs)
      requires RowsFor(id, bs, size, fs0)
      requires Aligned(bs, base) && 0 <= pos && chunk != [] && pos + |chunk| <= bs
      requires IsPatchedBlock(rows, id, bs, size, base, pos, chunk, blob)
      modifies this`rows
      ensures var size' := Max(size, base + pos + |chunk|);
        RowsFor(id, bs, size', fs0)
        && Flat(rows, id, bs, size') == Overwrite(old(Flat(rows, id, bs, size)), base + pos, chunk)
    {
      StoreBlock(id, base, blob);
      UpsertUnique(old(rows), id, base, blob);
      WriteBlock(old(rows), id, bs, size, base, pos, chunk, blob, Max(size, base + pos + |chunk|));
      forall k | k in metas && k != id
        ensures FileOk(k, metas[k]) && FileAt(k) == old(FileAt(k))
      {
        UpsertOtherFile(old(rows), id, base, blob, k, metas[k].blockSize, metas[k].fileSize);
      }
    }

    /** The UPDATE of the meta row; xorm writes `fileSize` only when it is not zero. */
    method UpdateMeta(id: int, fileSize: int, now: int, ghost size: int, ghost fs0: FlatFs, ghost c: seq<byte>)
      requires 0 <= size <= MAX_INT64 && id in metas && nextMetaId >= 1
      requires RowsFor(id, metas[id].blockSize, size, fs0)
      requires size == if fileSize != 0 then fileSize else metas[id].fileSize
      requires UniquePaths() && c == Flat(rows, id, metas[id].blockSize, size)
      modifies this`metas
      ensures Valid()
      ensures Fs() == WithContent(fs0, id, c)
    {
      var m := metas[id].(modified := now);
      if fileSize != 0 {
        m := m.(fileSize := fileSize);
      }
      metas := metas[id := m];
    }

    ghost predicate UniquePaths()
      reads this
    {
      forall a, b :: a in metas && b in metas && metas[a].fullPath == metas[b].fullPath ==> a == b
    }

    /** DELETE FROM dbfs_data WHERE meta_id = id; no other file notices. */
    method DeleteBlocks(id: int)
      requires Unique(rows)
      requires forall k :: k in metas && k != id ==> FileOk(k, metas[k])
      requires forall j :: 0 <= j < |rows| ==> rows[j].metaId in metas || rows[j].metaId == id
      modifies this`rows
      ensures Unique(rows)
      ensures forall j :: 0 <= j < |rows| ==> rows[j].metaId in metas && rows[j].metaId != id
      ensures forall k :: k in metas && k != id ==> FileOk(k, metas[k]) && FileAt(k) == old(FileAt(k))
    {
      rows := DeleteRows(rows, id);
      DeleteRemoves(old(rows), id);
      DeleteUnique(old(rows), id);
      forall k | k in metas && k != id
        ensures FileOk(k, metas[k]) && FileAt(k) == old(FileAt(k))
      {
        DeleteOtherFile(old(rows), id, k, metas[k].blockSize, metas[k].fileSize);
      }
    }

    method Truncate(id: int)
      requires Valid() && id in metas
      modifies this`metas, this`rows
      ensures Valid()
      ensures Fs() == WithContent(old(Fs()), id, [])
    {
      metas := metas[id := metas[id].(fileSize := 0)];
      label updated:
      DeleteBlocks(id);
      forall k | k in metas && k != id
        ensures FileAt(k) == old(FileAt(k))
      {
        assert old@updated(FileAt(k)) == old(FileAt(k));
      }
    }

    lemma IdOfIs(path: string, id: int)
      requires Valid() && id in Fs().files && Fs().files[id].path == path
      ensures Exists(Fs(), path) && IdOf(Fs(), path) == id
    {
      var k := IdOf(Fs(), path);
      assert Fs().files[k].path == metas[k].fullPath;
    }

    method InsertMeta(path: string, blockSize: int, now: int)
      requires Valid() && blockSize > 0 && !Exists(Fs(), path)
      modifies this`metas, this`nextMetaId
      ensures Valid() && old(nextMetaId) !in old(Fs()).files
      ensures Fs() == FlatFs(old(Fs()).files[old(nextMetaId) := FlatFile(path, blockSize, [])], old(nextMetaId) + 1)
    {
      assert forall k :: k in metas ==> Fs().files[k].path == metas[k].fullPath;
      ghost var id := nextMetaId;
      metas := metas[nextMetaId := Meta(path, blockSize, 0, now)];
      nextMetaId := nextMetaId + 1;
      assert FileOk(id, metas[id]) && FileAt(id) == FlatFile(path, blockSize, []);
    }

    /** SELECT ... WHERE full_path = ?: the row id, 0 when there is none. */
    method FindByPath(path: string) returns (id: int)
      requires Valid()
      ensures if Exists(Fs(), path) then id == IdOf(Fs(), path) else id == 0
    {
      if k :| k in metas && metas[k].fullPath == path {
        assert Fs().files[k].path == path;
        id := k;
      } else {
        id := 0;
      }
    }

    /** `Remove`: drops the file's meta row and all its blocks. */
    method Remove(path: string) returns (err: Error)
      requires Valid()
      modifies this`metas, this`rows
      ensures Valid() && (Fs(), err) == F.Remove(old(Fs()), path)
    {
      var id := FindByPath(path);
      if id == 0 {
        return ErrNotExist;
      }
      metas := metas - {id};
      label dropped:
      DeleteBlocks(id);
      forall k | k in metas
        ensures FileAt(k) == old(FileAt(k))
      {
        assert old@dropped(FileAt(k)) == old(FileAt(k));
      }
      assert Fs().files == old(Fs()).files - {id};
      return NoError;
    }
  }

  /** An open file. `metaId` stays 0 while the file does not exist. */
  class File {
    const db: Database
    const fullPath: string
    var metaId: int
    var blockSize: int
    var allowRead: bool
    var allowWrite: bool
    var offset: int

    ghost predicate Valid()
      reads this, db
    {
      db.Valid() && HandleOk(db.Fs(), State())
    }

    ghost function State(): Handle
      reads this
    {
      Handle(metaId, blockSize, allowRead, allowWrite, offset)
    }

    /** `newDbFile`: looks the path up and takes over the block size of an existing file. */
    constructor (db: Database, path: string)
      requires db.Valid()
      ensures Valid() && this.db == db && fullPath == path
      ensures State() == Lookup(db.Fs(), path, DEFAULT_BLOCK_SIZE)
    {
      this.db := db;
      fullPath := path;
      allowRead, allowWrite, offset := false, false, 0;
      metaId, blockSize := 0, DEFAULT_BLOCK_SIZE;
      new;
      LoadMetaByPath();
    }

    method LoadMetaByPath()
      requires db.Valid() && 0 <= metaId < db.nextMetaId
      modifies this`metaId, this`blockSize
      ensures if Exists(db.Fs(), fullPath)
              then metaId == IdOf(db.Fs(), fullPath) && blockSize == db.metas[metaId].blockSize
              else metaId == old(metaId) && blockSize == old(blockSize)
    {
      var id := db.FindByPath(fullPath);
      if id != 0 {
        metaId, blockSize := id, db.metas[id].blockSize;
      }
    }

    /**
     Copies into `p` what the rows say a file of `size` bytes holds from `off` on, up to the
     end of the block. `size` runs ahead of the stored row while `Write` is at work.
     */
    method ReadAt(size: int, off: int, p: array<byte>) returns (n: int, err: Error)
      requires blockSize > 0 && size >= 0 && off >= 0
      modifies p
      ensures n == ReadLen(size, blockSize, off, p.Length)
      ensures err == if n == 0 then EOF else NoError
      ensures forall i :: 0 <= i < n ==> p[i] == Flat(db.rows, metaId, blockSize, size)[off + i]
      ensures forall i :: n <= i < p.Length ==> p[i] == old(p[i])
    {
      if off >= size {
        return 0, EOF;
      }
      var blobPos := off % blockSize;
      var blobOffset := off - blobPos;
      var blobRemaining := blockSize - blobPos;
      var needRead := Min(p.Length, blobRemaining);
      if blobOffset + blobPos + needRead > size {
        needRead := size - blobOffset - blobPos;
      }
      if needRead <= 0 {
        return 0, EOF;
      }
      var k := Find(db.rows, metaId, blobOffset);
      var blobData := if k >= 0 then db.rows[k].blobData else [];
      var canCopy := Max(|blobData| - blobPos, 0);
      var realRead := Min(needRead, canCopy);
      forall i | 0 <= i < realRead {
        p[i] := blobData[blobPos + i];
      }
      for i := realRead to needRead
        invariant forall j :: 0 <= j < realRead ==> p[j] == blobData[blobPos + j]
        invariant forall j :: realRead <= j < i ==> p[j] == 0
        invariant forall j :: needRead <= j < p.Length ==> p[j] == old(p[j])
      {
        p[i] := 0;
      }
      n, err := needRead, NoError;
      forall i | 0 <= i < n
        ensures p[i] == Flat(db.rows, metaId, blockSize, size)[off + i]
      {
        ByteInRange(db.rows, metaId, blockSize, size, off, i);
      }
    }

    /** `readAt` at the handle's offset, on a file that exists and may be read. */
    method Fetch(p: array<byte>) returns (n: int, err: Error)
      requires Valid() && allowRead && metaId in db.metas
      modifies p
      ensures 0 <= n <= p.Length && p[n..] == old(p[n..])
      ensures F.Read(db.Fs(), State(), p.Length) == (State().(offset := offset + n), p[..n], err)
    {
      ghost var c := Flat(db.rows, metaId, blockSize, db.metas[metaId].fileSize);
      n, err := ReadAt(db.metas[metaId].fileSize, offset, p);
      assert n > 0 ==> p[..n] == c[offset..offset + n];
      ReadIs(db.Fs(), State(), c, p.Length, p[..n]);
    }

    /** `Read`: fills a prefix of `p` and moves the offset past it. */
    method Read(p: array<byte>) returns (n: int, err: Error)
      requires Valid()
      modifies this`offset, p
      ensures Valid()
      ensures 0 <= n <= p.Length && (State(), p[..n], err) == F.Read(db.Fs(), old(State()), p.Length)
      ensures p[n..] == old(p[n..])
    {
      if !allowRead {
        return 0, ErrInvalid;
      }
      if metaId !in db.metas {
        return 0, ErrNotExist;
      }
      n, err := Fetch(p);
      offset := offset + n;
    }

    /** `Read` into a new buffer of `len` bytes. */
    method ReadSome(len: nat) returns (data: seq<byte>, err: Error)
      requires Valid()
      modifies this`offset
      ensures Valid() && (State(), data, err) == F.Read(db.Fs(), old(State()), len)
    {
      var buf := new byte[len];
      var n;
      n, err := Read(buf);
      data := buf[..n];
    }

    /** The block that `Write` stores: the old block with `chunk` copied in at `pos`. */
    method PatchBlock(size: int, base: int, pos: int, chunk: seq<byte>) returns (blob: seq<byte>)
      requires blockSize > 0 && size >= 0 && Aligned(blockSize, base)
      requires 0 <= pos && chunk != [] && pos + |chunk| <= blockSize
      ensures IsPatchedBlock(db.rows, metaId, blockSize, size, base, pos, chunk, blob)
    {
      var buf := new byte[blockSize](_ => 0);
      var readBytes, _ := ReadAt(size, base, buf);
      ReadWholeBlock(db.rows, metaId, blockSize, size, base);
      forall i | 0 <= i < |chunk| {
        buf[pos + i] := chunk[i];
      }
      if pos + |chunk| > readBytes {
        blob := buf[..pos + |chunk|];
      } else {
        blob := buf[..readBytes];
      }
    }

    /** Stores the block at `base` with `chunk` in it at `pos`, and moves past the chunk. */
    method StoreChunk(size: int, base: int, pos: int, chunk: seq<byte>, ghost fs0: FlatFs)
      returns (ghost size': int)
      requires offset >= 0 && db.RowsFor(metaId, blockSize, size, fs0)
      requires Aligned(blockSize, base) && 0 <= pos && base + pos == offset
      requires chunk != [] && pos + |chunk| <= blockSize
      modifies this`offset, db`rows
      ensures offset == old(offset) + |chunk|
      ensures size' == Max(size, offset) && db.RowsFor(metaId, blockSize, size', fs0)
      ensures Flat(db.rows, metaId, blockSize, size') ==
        Overwrite(old(Flat(db.rows, metaId, blockSize, size)), old(offset), chunk)
    {
      var blob := PatchBlock(size, base, pos, chunk);
      db.StorePatched(metaId, blockSize, size, base, pos, chunk, blob, fs0);
      size' := Max(size, base + pos + |chunk|);
      offset := offset + |chunk|;
    }

    /** One turn of the loop in `Write`: as much of `rest` as fits in the current block. */
    method WriteChunk(rest: seq<byte>, size: int, ghost fs0: FlatFs) returns (needWrite: int, size': int)
      requires rest != [] && offset >= 0 && db.RowsFor(metaId, blockSize, size, fs0)
      modifies this`offset, db`rows
      ensures 0 < needWrite <= |rest| && offset == old(offset) + needWrite
      ensures size' == (if offset > size then offset else size) && db.RowsFor(metaId, blockSize, size', fs0)
      ensures Flat(db.rows, metaId, blockSize, size') ==
        Overwrite(old(Flat(db.rows, metaId, blockSize, size)), old(offset), rest[..needWrite])
    {
      var blobPos := offset % blockSize;
      var blobOffset := offset - blobPos;
      var blobRemaining := blockSize - blobPos;
      needWrite := Min(|rest|, blobRemaining);
      InBlock(blockSize, offset);
      ghost var reached := StoreChunk(size, blobOffset, blobPos, rest[..needWrite], fs0);
      size' := if offset > size then offset else size;
    }

    /** Writing the next `n` bytes of `p` after the first `k` gives the first `k + n` written. */
    static lemma WriteProgress(c0: seq<byte>, off: nat, p: seq<byte>, k: nat, n: nat, c: seq<byte>)
      requires k + n <= |p| && c == Overwrite(c0, off, p[..k])
      ensures Overwrite(c, off + k, p[k..][..n]) == Overwrite(c0, off, p[..k + n])
    {
      OverwriteAdjacent(c0, off, p[..k], p[k..][..n]);
      assert p[..k] + p[k..][..n] == p[..k + n];
    }

    /** `written` bytes from `off0` on are in the rows, which stand for the content `c`. */
    ghost predicate Writing(fs0: FlatFs, off0: nat, written: int, fileSize: int, needUpdateSize: bool, c: seq<byte>)
      reads this, db
    {
      && written >= 0 && offset == off0 + written && metaId in db.metas
      && fileSize == (if needUpdateSize then offset else db.metas[metaId].fileSize)
      && db.RowsFor(metaId, blockSize, fileSize, fs0)
      && Flat(db.rows, metaId, blockSize, fileSize) == c
    }

    /** One turn of the loop, with its bookkeeping. */
    method WriteTurn(p: seq<byte>, written: int, fileSize: int, needUpdateSize: bool,
                     ghost fs0: FlatFs, ghost off0: nat, ghost c0: seq<byte>, ghost c: seq<byte>)
      returns (written': int, fileSize': int, needUpdateSize': bool, ghost c': seq<byte>)
      requires 0 <= written < |p| && c == Overwrite(c0, off0, p[..written])
      requires Writing(fs0, off0, written, fileSize, needUpdateSize, c)
      modifies this`offset, db`rows
      ensures written < written' <= |p| && c' == Overwrite(c0, off0, p[..written'])
      ensures Writing(fs0, off0, written', fileSize', needUpdateSize', c')
    {
      var needWrite;
      needWrite, fileSize' := WriteChunk(p[written..], fileSize, fs0);
      needUpdateSize' := needUpdateSize || offset > fileSize;
      written' := written + needWrite;
      WriteProgress(c0, off0, p, written, needWrite, c);
      c' := Overwrite(c0, off0, p[..written']);
    }

    /** The loop of `Write`, which splits `p` at block boundaries. */
    method WriteChunks(p: seq<byte>, ghost fs0: FlatFs) returns (fileSize: int, needUpdateSize: bool)
      requires metaId in db.metas && offset >= 0
      requires db.RowsFor(metaId, blockSize, db.metas[metaId].fileSize, fs0)
      modifies this`offset, db`rows
      ensures offset == old(offset) + |p|
      ensures fileSize == if needUpdateSize then offset else db.metas[metaId].fileSize
      ensures db.RowsFor(metaId, blockSize, fileSize, fs0) && fileSize <= Max(db.metas[metaId].fileSize, offset)
      ensures Flat(db.rows, metaId, blockSize, fileSize) ==
        Overwrite(old(Flat(db.rows, metaId, blockSize, db.metas[metaId].fileSize)), old(offset), p)
    {
      fileSize, needUpdateSize := db.metas[metaId].fileSize, false;
      var written := 0;
      ghost var c0, off0 := Flat(db.rows, metaId, blockSize, fileSize), offset;
      OverwriteNone(c0, off0);
      assert p[..0] == [];
      ghost var c := c0;
      while written < |p|
        invariant 0 <= written <= |p| && c == Overwrite(c0, off0, p[..written])
        invariant Writing(fs0, off0, written, fileSize, needUpdateSize, c)
      {
        written, fileSize, needUpdateSize, c := WriteTurn(p, written, fileSize, needUpdateSize, fs0, off0, c0, c);
      }
      assert p[..written] == p;
    }

    method StoreAll(p: seq<byte>, now: int)
      requires Valid() && offset + |p| <= MAX_INT64 && metaId in db.metas
      modifies this`offset, db`rows, db`metas
      ensures db.Valid() && offset == old(offset) + |p|
      ensures db.Fs() ==
        WithContent(old(db.Fs()), metaId, Overwrite(old(db.Fs()).files[metaId].content, old(offset), p))
    {
      ghost var fs0 := db.Fs();
      ghost var c := Overwrite(fs0.files[metaId].content, offset, p);
      assert fs0.files[metaId] == db.FileAt(metaId);
      var fileSize, needUpdateSize := WriteChunks(p, fs0);
      db.UpdateMeta(metaId, if needUpdateSize then offset else 0, now, fileSize, fs0, c);
    }

    /** `Write`: stores the blocks; the new size reaches the meta row only at the end. */
    method Write(p: seq<byte>, now: int) returns (written: int, err: Error)
      requires Valid() && offset + |p| <= MAX_INT64
      modifies this`offset, db`rows, db`metas
      ensures Valid() && (db.Fs(), State(), written, err) == F.Write(old(db.Fs()), old(State()), p)
    {
      if !allowWrite {
        return 0, ErrInvalid;
      }
      if metaId !in db.metas {
        return 0, ErrNotExist;
      }
      StoreAll(p, now);
      return |p|, NoError;
    }

    method Size() returns (size: int, err: Error)
      requires Valid()
      ensures if metaId in db.Fs().files then err == NoError && size == |db.Fs().files[metaId].content|
              else err == ErrNotExist && size == 0
    {
      if metaId !in db.metas {
        return 0, ErrNotExist;
      }
      return db.metas[metaId].fileSize, NoError;
    }

    /** `Seek`; the sum is a Go int64, which wraps to a negative number on overflow. */
    method Seek(n: int64, whence: int) returns (pos: int, err: Error)
      requires Valid()
      modifies this`offset
      ensures Valid() && (State(), pos, err) == F.Seek(db.Fs(), old(State()), n, whence)
    {
      if metaId == 0 {
        return 0, ErrInvalid;
      }
      var newOffset := offset;
      if whence == 0 {
        newOffset := n;
      } else if whence == 1 {
        newOffset := WrapInt64(newOffset + n);
      } else if whence == 2 {
        var size, e := Size();
        if e != NoError {
          return offset, e;
        }
        newOffset := WrapInt64(size + n);
      } else {
        return offset, ErrInvalid;
      }
      if newOffset < 0 {
        return offset, ErrInvalid;
      }
      offset := newOffset;
      return newOffset, NoError;
    }

    method CreateEmpty(now: int) returns (err: Error)
      requires Valid()
      requires metaId in db.metas || !Exists(db.Fs(), fullPath)
      modifies this`metaId, this`blockSize, db`metas, db`nextMetaId
      ensures Valid() && State() == old(State()).(metaId := metaId)
      ensures old(metaId) != 0 ==> err == ErrExist && db.Fs() == old(db.Fs()) && metaId == old(metaId)
      ensures old(metaId) == 0 ==> err == NoError && metaId == old(db.nextMetaId)
      ensures old(metaId) == 0 ==>
        db.Fs() == FlatFs(old(db.Fs()).files[metaId := FlatFile(fullPath, blockSize, [])], metaId + 1)
    {
      if metaId != 0 {
        return ErrExist;
      }
      db.InsertMeta(fullPath, blockSize, now);
      db.IdOfIs(fullPath, old(db.nextMetaId));
      LoadMetaByPath();
      return NoError;
    }

    method Truncate() returns (err: Error)
      requires Valid() && (metaId == 0 || metaId in db.metas)
      modifies db`metas, db`rows
      ensures Valid()
      ensures err == if metaId == 0 then ErrNotExist else NoError
      ensures db.Fs() == WithContent(old(db.Fs()), metaId, [])
    {
      if metaId == 0 {
        return ErrNotExist;
      }
      db.Truncate(metaId);
      return NoError;
    }

    /** The O_TRUNC and O_APPEND part of `open`. */
    method SettleOpen(flag: Flags)
      requires Valid() && metaId in db.metas
      modifies this`offset, db`metas, db`rows
      ensures Valid() && (db.Fs(), State()) == Settle(old(db.Fs()), old(State()), flag)
    {
      if flag.trunc {
        var e := Truncate();
      }
      if flag.append {
        assert |db.Fs().files[metaId].content| == db.metas[metaId].fileSize;
        var _, e := Seek(0, 2);
      }
    }

    method OpenWritable(flag: Flags, now: int) returns (err: Error)
      requires Valid()
      requires if Exists(db.Fs(), fullPath) then metaId == IdOf(db.Fs(), fullPath) else metaId == 0
      modifies this`metaId, this`blockSize, this`offset, db
      ensures Valid() && (db.Fs(), State(), err) == F.OpenWritable(old(db.Fs()), old(State()), fullPath, flag)
      ensures C.Opened(old(db.Fs()), old(State()), fullPath, flag, db.Fs(), State(), err)
    {
      C.OpenWritableMeans(db.Fs(), State(), fullPath, flag);
      if flag.create {
        if flag.excl && metaId != 0 {
          return ErrExist;
        }
        if metaId == 0 {
          var e := CreateEmpty(now);
        }
      }
      if metaId == 0 {
        return ErrNotExist;
      }
      SettleOpen(flag);
      return NoError;
    }

    /** `open`, called once, right after the handle was looked up. */
    method Open(flag: Flags, now: int) returns (err: Error)
      requires Valid() && State() == Lookup(db.Fs(), fullPath, blockSize)
      modifies this, db
      ensures Valid() && (db.Fs(), State(), err) == F.Open(old(db.Fs()), old(State()), fullPath, flag)
    {
      if flag.wronly {
        allowWrite := true;
      } else if flag.rdwr {
        allowRead, allowWrite := true, true;
      } else {
        allowRead := true;
      }
      if allowWrite {
        err := OpenWritable(flag, now);
        return;
      }
      if metaId == 0 {
        return ErrNotExist;
      }
      return NoError;
    }
  }

  /** What `F.Read` returns, from the length and the bytes of one block-wise read. */
  lemma ReadIs(fs: FlatFs, h: Handle, c: seq<byte>, len: nat, data: seq<byte>)
    requires h.allowRead && h.metaId in fs.files && fs.files[h.metaId].content == c && h.offset >= 0
    requires fs.files[h.metaId].blockSize > 0
    requires |data| == ReadLen(|c|, fs.files[h.metaId].blockSize, h.offset, len)
    requires |data| > 0 ==> data == c[h.offset..h.offset + |data|]
    ensures F.Read(fs, h, len) ==
      (h.(offset := h.offset + |data|), data, if |data| == 0 then EOF else NoError)
  {
  }

  // ----- histories

  ghost predicate SessionOk(db: Database, handles: seq<File>)
    reads db, handles
  {
    && db.Valid()
    && (forall i, j :: 0 <= i < j < |handles| ==> handles[i] != handles[j])
    && (forall k :: 0 <= k < |handles| ==> handles[k].db == db && HandleOk(db.Fs(), handles[k].State()))
  }

  ghost function WorldOf(db: Database, handles: seq<File>): (w: World)
    requires SessionOk(db, handles)
    reads db, handles
    ensures WorldOk(w)
  {
    assert forall id :: id in db.metas ==>
      |db.Fs().files[id].content| == db.metas[id].fileSize && db.Fs().files[id].path == db.metas[id].fullPath;
    World(db.Fs(), seq(|handles|, k requires 0 <= k < |handles| reads handles => handles[k].State()))
  }

  /** `OpenFile`: looks the path up and opens it; a handle comes back only on success. */
  method OpenFile(db: Database, path: string, flag: Flags, now: int) returns (f: File, err: Error)
    requires db.Valid()
    modifies db
    ensures fresh(f) && f.Valid() && f.db == db
    ensures (db.Fs(), f.State(), err) ==
      F.Open(old(db.Fs()), Lookup(old(db.Fs()), path, DEFAULT_BLOCK_SIZE), path, flag)
  {
    f := new File(db, path);
    err := f.Open(flag, now);
  }

  /** One `Read` continues what was read from `off0` up to the handle's offset, or reports the end. */
  lemma ReadMore(fs: FlatFs, h: Handle, len: nat, off0: nat)
    requires h.allowRead && h.metaId in fs.files && fs.files[h.metaId].blockSize > 0 && len > 0
    requires var size := |fs.files[h.metaId].content|; off0 <= h.offset <= if off0 <= size then size else off0
    ensures var c := fs.files[h.metaId].content; var (h', more, err) := F.Read(fs, h, len);
      (if err == EOF then h.offset >= |c| && more == [] && h' == h
       else err == NoError && off0 <= |c| && h.offset < h'.offset <= |c|
            && c[off0..h.offset] + more == c[off0..h'.offset])
  {
  }

  /** The loop of `io.ReadAll`: read into `len` bytes at a time until EOF. */
  method ReadAll(f: File, len: nat) returns (data: seq<byte>, err: Error)
    requires f.Valid() && f.allowRead && f.metaId in f.db.metas && len > 0
    modifies f`offset
    ensures f.Valid() && err == EOF
    ensures var c := f.db.Fs().files[f.metaId].content; var off := old(f.offset);
      data == if off < |c| then c[off..] else []
  {
    ghost var fs := f.db.Fs();
    ghost var c, off0 := fs.files[f.metaId].content, f.offset;
    data, err := [], NoError;
    while err == NoError
      invariant f.Valid() && f.db.Fs() == fs && (err == NoError || err == EOF)
      invariant off0 <= f.offset <= if off0 <= |c| then |c| else off0
      invariant data == if off0 <= |c| then c[off0..f.offset] else []
      invariant err == EOF ==> f.offset >= |c|
      decreases err == NoError, |c| - f.offset
    {
      ReadMore(fs, f.State(), len, off0);
      var more;
      more, err := f.ReadSome(len);
      data := data + more;
    }
  }

  lemma Agree(db: Database, handles: seq<File>, w: World)
    requires db.Valid() && w.fs == db.Fs() && WorldOk(w) && |w.handles| == |handles|
    requires forall i, j :: 0 <= i < j < |handles| ==> handles[i] != handles[j]
    requires forall k :: 0 <= k < |handles| ==> handles[k].db == db && handles[k].State() == w.handles[k]
    ensures SessionOk(db, handles) && WorldOf(db, handles) == w
  {
  }

  /** After a call through one handle, the others are as they were. */
  lemma AgreeAt(db: Database, handles: seq<File>, k: nat, w: World, fs: FlatFs, h: Handle)
    requires db.Valid() && fs == db.Fs() && k < |handles| && |w.handles| == |handles|
    requires WorldOk(World(fs, w.handles[k := h]))
    requires forall i, j :: 0 <= i < j < |handles| ==> handles[i] != handles[j]
    requires forall i :: 0 <= i < |handles| ==> handles[i].db == db
    requires handles[k].State() == h
    requires forall i :: 0 <= i < |handles| && i != k ==> handles[i].State() == w.handles[i]
    ensures SessionOk(db, handles) && WorldOf(db, handles) == World(fs, w.handles[k := h])
  {
    Agree(db, handles, World(fs, w.handles[k := h]));
  }

  method PerformSeek(db: Database, handles: seq<File>, k: nat, n: int64, whence: int) returns (out: Out)
    requires SessionOk(db, handles) && k < |handles|
    modifies handles
    ensures SessionOk(db, handles)
    ensures (WorldOf(db, handles), out) == Step(old(WorldOf(db, handles)), OpSeek(k, n, whence), DEFAULT_BLOCK_SIZE)
  {
    ghost var w := WorldOf(db, handles);
    StepOk(w, OpSeek(k, n, whence), DEFAULT_BLOCK_SIZE);
    var pos, e := handles[k].Seek(n, whence);
    out := OutPos(pos, e);
    AgreeAt(db, handles, k, w, db.Fs(), handles[k].State());
  }

  method PerformWrite(db: Database, handles: seq<File>, k: nat, p: seq<byte>, now: int) returns (out: Out)
    requires SessionOk(db, handles) && k < |handles| && Fits(WorldOf(db, handles), OpWrite(k, p))
    modifies db, handles
    ensures SessionOk(db, handles)
    ensures (WorldOf(db, handles), out) == Step(old(WorldOf(db, handles)), OpWrite(k, p), DEFAULT_BLOCK_SIZE)
  {
    ghost var w := WorldOf(db, handles);
    StepOk(w, OpWrite(k, p), DEFAULT_BLOCK_SIZE);
    var n, e := handles[k].Write(p, now);
    out := OutPos(n, e);
    AgreeAt(db, handles, k, w, db.Fs(), handles[k].State());
  }

  method PerformRead(db: Database, handles: seq<File>, k: nat, len: nat) returns (out: Out)
    requires SessionOk(db, handles) && k < |handles|
    modifies handles
    ensures SessionOk(db, handles)
    ensures (WorldOf(db, handles), out) == Step(old(WorldOf(db, handles)), OpRead(k, len), DEFAULT_BLOCK_SIZE)
  {
    ghost var w := WorldOf(db, handles);
    StepOk(w, OpRead(k, len), DEFAULT_BLOCK_SIZE);
    var data, e := handles[k].ReadSome(len);
    out := OutData(data, e);
    AgreeAt(db, handles, k, w, db.Fs(), handles[k].State());
  }

  method PerformOpen(db: Database, handles: seq<File>, path: string, flag: Flags, now: int)
    returns (handles': seq<File>, out: Out)
    requires SessionOk(db, handles)
    modifies db
    ensures SessionOk(db, handles') && fresh(set f | f in handles' && f !in handles)
    ensures (WorldOf(db, handles'), out) == Step(old(WorldOf(db, handles)), OpOpen(path, flag), DEFAULT_BLOCK_SIZE)
  {
    ghost var w := WorldOf(db, handles);
    StepOk(w, OpOpen(path, flag), DEFAULT_BLOCK_SIZE);
    var f, e := OpenFile(db, path, flag, now);
    out := OutOpen(e);
    handles' := if e == NoError then handles + [f] else handles;
    Agree(db, handles', Step(w, OpOpen(path, flag), DEFAULT_BLOCK_SIZE).0);
  }

  method PerformRemove(db: Database, handles: seq<File>, path: string) returns (out: Out)
    requires SessionOk(db, handles)
    modifies db
    ensures SessionOk(db, handles)
    ensures (WorldOf(db, handles), out) == Step(old(WorldOf(db, handles)), OpRemove(path), DEFAULT_BLOCK_SIZE)
  {
    ghost var w := WorldOf(db, handles);
    StepOk(w, OpRemove(path), DEFAULT_BLOCK_SIZE);
    var e := db.Remove(path);
    out := OutOpen(e);
    Agree(db, handles, Step(w, OpRemove(path), DEFAULT_BLOCK_SIZE).0);
  }

  /** One call of a history on the tables does what `Step` says. */
  method Perform(db: Database, handles: seq<File>, op: Op, now: int) returns (handles': seq<File>, out: Out)
    requires SessionOk(db, handles) && Fits(WorldOf(db, handles), op)
    modifies db, handles
    ensures SessionOk(db, handles') && fresh(set f | f in handles' && f !in handles)
    ensures (WorldOf(db, handles'), out) == Step(old(WorldOf(db, handles)), op, DEFAULT_BLOCK_SIZE)
  {
    handles', out := handles, NoHandle;
    match op {
      case OpOpen(path, flag) => handles', out := PerformOpen(db, handles, path, flag, now);
      case OpRemove(path) => out := PerformRemove(db, handles, path);
      case OpSeek(k, n, whence) => if k < |handles| { out := PerformSeek(db, handles, k, n, whence); }
      case OpWrite(k, p) => if k < |handles| { out := PerformWrite(db, handles, k, p, now); }
      case OpRead(k, len) => if k < |handles| { out := PerformRead(db, handles, k, len); }
    }
  }

  /**
   Any history of calls, through any number of handles on any files: what the block tables
   return, and the files they stand for afterwards, are those of the flat file system.
   */
  method Replay(db: Database, handles: seq<File>, ops: seq<Op>, now: int) returns (handles': seq<File>, outs: seq<Out>)
    requires SessionOk(db, handles) && AllFit(WorldOf(db, handles), ops, DEFAULT_BLOCK_SIZE)
    modifies db, handles
    ensures SessionOk(db, handles') && fresh(set f | f in handles' && f !in handles)
    ensures (WorldOf(db, handles'), outs) == Run(old(WorldOf(db, handles)), ops, DEFAULT_BLOCK_SIZE)
    decreases |ops|
  {
    if ops == [] {
      return handles, [];
    }
    var out, rest;
    handles', out := Perform(db, handles, ops[0], now);
    handles', rest := Replay(db, handles', ops[1..], now);
    outs := [out] + rest;
  }
}
