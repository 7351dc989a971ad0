/**
 The rows of the dbfs_data table (models/dbfs/dbfs.go:57-64) and the byte array they
 stand for: a missing row, and the part of a block past a short row, read as zeros.
 */
module DbfsBlocks {
  import opened Bytes
  import opened DbfsFlat

  datatype Row = Row(metaId: int, blobOffset: int, revision: int, blobData: seq<byte>)

  /** The first row of block `off` of file `id`, or -1. */
  function Find(rows: seq<Row>, id: int, off: int): (k: int)
    ensures -1 <= k < |rows|
    ensures k >= 0 ==> rows[k].metaId == id && rows[k].blobOffset == off
    ensures k == -1 ==> forall j :: 0 <= j < |rows| ==> !(rows[j].metaId == id && rows[j].blobOffset == off)
  {
    if rows == [] then -1
    else if rows[0].metaId == id && rows[0].blobOffset == off then 0
    else
      var k := Find(rows[1..], id, off);
      if k < 0 then -1 else k + 1
  }

  /** At most one row for each block of each file. */
  ghost predicate Unique(rows: seq<Row>) {
    forall j, k :: 0 <= j < k < |rows| ==>
      !(rows[j].metaId == rows[k].metaId && rows[j].blobOffset == rows[k].blobOffset)
  }

  /**
   The offset of the block that byte `i` belongs to. `BlockStartIsMod` says it is
   `i - i % bs`, the form the source computes; this form keeps `%` out of the proofs.
   */
  function BlockStart(bs: int, i: nat): (start: nat)
    requires bs > 0
    ensures start <= i < start + bs
  {
    if i < bs then 0 else bs + BlockStart(bs, i - bs)
  }

  predicate Aligned(bs: int, off: int)
    requires bs > 0
  {
    0 <= off && BlockStart(bs, off) == off
  }

  /** Rows of file `id` start at block boundaries, fit in a block and end within the file. */
  ghost predicate BlocksOk(rows: seq<Row>, id: int, bs: int, size: int)
    requires bs > 0
  {
    forall j :: 0 <= j < |rows| && rows[j].metaId == id ==>
      Aligned(bs, rows[j].blobOffset) && |rows[j].blobData| <= bs && rows[j].blobOffset + |rows[j].blobData| <= size
  }

  function BlockByte(rows: seq<Row>, id: int, off: int, j: nat): byte {
    var k := Find(rows, id, off);
    if k >= 0 && j < |rows[k].blobData| then rows[k].blobData[j] else 0
  }

  function ByteAt(rows: seq<Row>, id: int, bs: int, i: nat): byte
    requires bs > 0
  {
    BlockByte(rows, id, BlockStart(bs, i), i - BlockStart(bs, i))
  }

  /** The byte array that the rows of file `id` stand for, when the file is `size` long. */
  function Flat(rows: seq<Row>, id: int, bs: int, size: nat): (c: seq<byte>)
    requires bs > 0
    ensures |c| == size
  {
    seq(size, i requires 0 <= i < size => ByteAt(rows, id, bs, i))
  }

  /** The UPDATE statement of `Write`: every matching row gets the data and a new revision. */
  function UpdateRows(rows: seq<Row>, id: int, off: int, blob: seq<byte>): (r: seq<Row>)
    ensures |r| == |rows|
  {
    seq(|rows|, k requires 0 <= k < |rows| =>
      if rows[k].metaId == id && rows[k].blobOffset == off
      then Row(id, off, rows[k].revision + 1, blob) else rows[k])
  }

  /** UPDATE, and INSERT when the UPDATE matched nothing. */
  function Upsert(rows: seq<Row>, id: int, off: int, blob: seq<byte>): seq<Row> {
    if Find(rows, id, off) >= 0 then UpdateRows(rows, id, off, blob)
    else rows + [Row(id, off, 0, blob)]
  }

  function DeleteRows(rows: seq<Row>, id: int): (r: seq<Row>) {
    if rows == [] then []
    else if rows[0].metaId == id then DeleteRows(rows[1..], id)
    else [rows[0]] + DeleteRows(rows[1..], id)
  }

  // ----- block arithmetic

  /** A byte belongs to block `base` exactly when it lies in that block's range. */
  lemma {:induction false} BlockOf(bs: int, base: nat, i: nat)
    requires bs > 0 && Aligned(bs, base)
    ensures BlockStart(bs, i) == base <==> base <= i < base + bs
  {
    if base >= bs && i >= bs {
      BlockOf(bs, base - bs, i - bs);
    }
  }

  lemma {:induction false} StartAligned(bs: int, i: nat)
    requires bs > 0
    ensures Aligned(bs, BlockStart(bs, i))
  {
    if i >= bs {
      StartAligned(bs, i - bs);
    }
  }

  lemma {:induction false} MulMonotone(d: int, x: int, y: int)
    requires d > 0 && x < y
    ensures d * x + d <= d * y
    decreases y - x
  {
    assert d * (y - 1) + d == d * y;
    if x < y - 1 {
      MulMonotone(d, x, y - 1);
    }
  }

  lemma ModUnique(a: int, d: int, q: int, r: int)
    requires d > 0 && a == d * q + r && 0 <= r < d
    ensures a % d == r
  {
    var q', r' := a / d, a % d;
    assert a == d * q' + r' && 0 <= r' < d;
    if q' > q {
      MulMonotone(d, q, q');
    } else if q' < q {
      MulMonotone(d, q', q);
    }
  }

  /** Block starts are what the source computes with `%`. */
  lemma {:induction false} BlockStartIsMod(bs: int, i: nat)
    requires bs > 0
    ensures BlockStart(bs, i) == i - i % bs
  {
    if i < bs {
      ModUnique(i, bs, 0, i);
    } else {
      BlockStartIsMod(bs, i - bs);
      var q, r := (i - bs) / bs, (i - bs) % bs;
      assert i == bs * (q + 1) + r by { assert bs * (q + 1) == bs * q + bs; }
      ModUnique(i, bs, q + 1, r);
    }
  }

  /** The offsets `BlocksOk` allows are exactly the multiples of the block size. */
  lemma AlignedIsMultiple(bs: int, off: int)
    requires bs > 0
    ensures Aligned(bs, off) <==> 0 <= off && off % bs == 0
  {
    if 0 <= off {
      BlockStartIsMod(bs, off);
    }
  }

  // ----- what the table operations do to the byte array

  lemma {:induction false} FindIs(rows: seq<Row>, id: int, off: int, k: int)
    requires Unique(rows)
    requires 0 <= k < |rows| && rows[k].metaId == id && rows[k].blobOffset == off
    ensures Find(rows, id, off) == k
  {
    var f := Find(rows, id, off);
    assert f >= 0;
    if f < k { assert false; } else if k < f { assert false; }
  }

  lemma UpsertUnique(rows: seq<Row>, id: int, off: int, blob: seq<byte>)
    requires Unique(rows)
    ensures Unique(Upsert(rows, id, off, blob))
  {
  }

  lemma UpsertBlock(rows: seq<Row>, id: int, off: int, blob: seq<byte>, id': int, off': int, j: nat)
    requires Unique(rows)
    ensures BlockByte(Upsert(rows, id, off, blob), id', off', j) ==
      if id' == id && off' == off then (if j < |blob| then blob[j] else 0)
      else BlockByte(rows, id', off', j)
  {
    var rows' := Upsert(rows, id, off, blob);
    UpsertUnique(rows, id, off, blob);
    var k := Find(rows, id, off);
    if id' == id && off' == off {
      FindIs(rows', id, off, if k >= 0 then k else |rows|);
    } else {
      var m := Find(rows, id', off');
      if m >= 0 {
        FindIs(rows', id', off', m);
      } else {
        var m' := Find(rows', id', off');
        assert m' < 0;
      }
    }
  }

  /** How many bytes of the block at `base` lie within a file of `size` bytes. */
  function OldLen(size: nat, bs: int, base: nat): (n: int)
    requires bs > 0
  {
    if base >= size then 0 else Min(bs, size - base)
  }

  /**
   The row one iteration of the loop in `Write` stores for block `base`: the old bytes of
   that block, zeros where there were none, with `chunk` copied in at `pos`.
   */
  ghost predicate IsPatchedBlock(rows: seq<Row>, id: int, bs: int, size: nat,
                                 base: nat, pos: nat, chunk: seq<byte>, blob: seq<byte>)
    requires bs > 0
  {
    var old' := OldLen(size, bs, base);
    |blob| == (if pos + |chunk| > old' then pos + |chunk| else old')
    && forall j :: 0 <= j < |blob| ==>
      blob[j] == if pos <= j < pos + |chunk| then chunk[j - pos]
                 else if j < old' then BlockByte(rows, id, base, j) else 0
  }

  lemma PatchedInBlock(rows: seq<Row>, id: int, bs: int, size: nat,
                       base: nat, pos: nat, chunk: seq<byte>, blob: seq<byte>, j: nat)
    requires bs > 0 && BlocksOk(rows, id, bs, size) && j < bs && pos + |chunk| <= bs
    requires IsPatchedBlock(rows, id, bs, size, base, pos, chunk, blob)
    ensures (if j < |blob| then blob[j] else 0) ==
      if pos <= j < pos + |chunk| then chunk[j - pos]
      else if base + j < size then BlockByte(rows, id, base, j) else 0
  {
    if j >= |blob| {
      var k := Find(rows, id, base);
      assert k >= 0 ==> rows[k].metaId == id;
    }
  }

  /** The new value of byte `j` of the block at `off`. */
  lemma PatchedByte(rows: seq<Row>, id: int, bs: int, size: nat,
                    base: nat, pos: nat, chunk: seq<byte>, blob: seq<byte>, off: int, j: nat)
    requires bs > 0 && Unique(rows) && BlocksOk(rows, id, bs, size)
    requires j < bs && pos + |chunk| <= bs && (off == base <==> base <= off + j < base + bs)
    requires IsPatchedBlock(rows, id, bs, size, base, pos, chunk, blob)
    ensures BlockByte(Upsert(rows, id, base, blob), id, off, j) ==
      if base + pos <= off + j < base + pos + |chunk| then chunk[off + j - base - pos]
      else if off + j < size then BlockByte(rows, id, off, j) else 0
  {
    UpsertBlock(rows, id, base, blob, id, off, j);
    if off == base {
      PatchedInBlock(rows, id, bs, size, base, pos, chunk, blob, j);
    } else {
      var k := Find(rows, id, off);
      assert k >= 0 ==> rows[k].metaId == id;
    }
  }

  lemma PatchedAt(rows: seq<Row>, id: int, bs: int, size: nat,
                  base: nat, pos: nat, chunk: seq<byte>, blob: seq<byte>, i: nat)
    requires bs > 0 && Unique(rows) && BlocksOk(rows, id, bs, size)
    requires Aligned(bs, base) && pos + |chunk| <= bs
    requires IsPatchedBlock(rows, id, bs, size, base, pos, chunk, blob)
    ensures ByteAt(Upsert(rows, id, base, blob), id, bs, i) ==
      if base + pos <= i < base + pos + |chunk| then chunk[i - base - pos]
      else if i < size then ByteAt(rows, id, bs, i) else 0
  {
    BlockOf(bs, base, i);
    var off := BlockStart(bs, i);
    PatchedByte(rows, id, bs, size, base, pos, chunk, blob, off, i - off);
  }

  lemma PatchedBlocksOk(rows: seq<Row>, id: int, bs: int, size: nat,
                        base: nat, pos: nat, chunk: seq<byte>, blob: seq<byte>, size': nat)
    requires bs > 0 && BlocksOk(rows, id, bs, size)
    requires Aligned(bs, base) && pos + |chunk| <= bs
    requires IsPatchedBlock(rows, id, bs, size, base, pos, chunk, blob)
    requires size <= size' && base + pos + |chunk| <= size'
    ensures BlocksOk(Upsert(rows, id, base, blob), id, bs, size')
  {
  }

  lemma PatchedFlatAt(rows: seq<Row>, id: int, bs: int, size: nat,
                      base: nat, pos: nat, chunk: seq<byte>, blob: seq<byte>, i: nat)
    requires bs > 0 && Unique(rows) && BlocksOk(rows, id, bs, size)
    requires Aligned(bs, base) && chunk != [] && pos + |chunk| <= bs
    requires IsPatchedBlock(rows, id, bs, size, base, pos, chunk, blob)
    requires i < |Overwrite(Flat(rows, id, bs, size), base + pos, chunk)|
    ensures ByteAt(Upsert(rows, id, base, blob), id, bs, i) == Overwrite(Flat(rows, id, bs, size), base + pos, chunk)[i]
  {
    PatchedAt(rows, id, bs, size, base, pos, chunk, blob, i);
  }

  lemma FlatIs(rows: seq<Row>, id: int, bs: int, c: seq<byte>)
    requires bs > 0 && forall i :: 0 <= i < |c| ==> ByteAt(rows, id, bs, i) == c[i]
    ensures Flat(rows, id, bs, |c|) == c
  {
  }

  /** One iteration of the loop in `Write` overwrites the flat content with its chunk. */
  lemma WriteBlock(rows: seq<Row>, id: int, bs: int, size: nat,
                   base: nat, pos: nat, chunk: seq<byte>, blob: seq<byte>, size': nat)
    requires bs > 0 && Unique(rows) && BlocksOk(rows, id, bs, size)
    requires Aligned(bs, base) && chunk != [] && pos + |chunk| <= bs
    requires IsPatchedBlock(rows, id, bs, size, base, pos, chunk, blob)
    requires size' == if base + pos + |chunk| > size then base + pos + |chunk| else size
    ensures BlocksOk(Upsert(rows, id, base, blob), id, bs, size')
    ensures Flat(Upsert(rows, id, base, blob), id, bs, size') == Overwrite(Flat(rows, id, bs, size), base + pos, chunk)
  {
    PatchedBlocksOk(rows, id, bs, size, base, pos, chunk, blob, size');
    var rows' := Upsert(rows, id, base, blob);
    var c' := Overwrite(Flat(rows, id, bs, size), base + pos, chunk);
    forall i | 0 <= i < size'
      ensures ByteAt(rows', id, bs, i) == c'[i]
    {
      PatchedFlatAt(rows, id, bs, size, base, pos, chunk, blob, i);
    }
    FlatIs(rows', id, bs, c');
  }

  lemma UpsertOtherRows(rows: seq<Row>, id: int, off: int, blob: seq<byte>, id': int, bs: int, size: nat)
    requires id' != id && bs > 0 && BlocksOk(rows, id', bs, size)
    ensures BlocksOk(Upsert(rows, id, off, blob), id', bs, size)
  {
  }

  lemma UpsertOtherFile(rows: seq<Row>, id: int, off: int, blob: seq<byte>, id': int, bs: int, size: nat)
    requires Unique(rows) && id' != id && bs > 0 && BlocksOk(rows, id', bs, size)
    ensures BlocksOk(Upsert(rows, id, off, blob), id', bs, size)
    ensures Flat(Upsert(rows, id, off, blob), id', bs, size) == Flat(rows, id', bs, size)
  {
    UpsertOtherRows(rows, id, off, blob, id', bs, size);
    forall i | 0 <= i < size
      ensures ByteAt(Upsert(rows, id, off, blob), id', bs, i) == ByteAt(rows, id', bs, i)
    {
      UpsertBlock(rows, id, off, blob, id', BlockStart(bs, i), i - BlockStart(bs, i));
    }
  }

  lemma {:induction false} DeleteRemoves(rows: seq<Row>, id: int)
    ensures forall x :: x in DeleteRows(rows, id) <==> x in rows && x.metaId != id
  {
    if rows != [] {
      DeleteRemoves(rows[1..], id);
      assert rows == [rows[0]] + rows[1..];
    }
  }

  lemma {:induction false} DeleteUnique(rows: seq<Row>, id: int)
    requires Unique(rows)
    ensures Unique(DeleteRows(rows, id))
  {
    if rows != [] {
      DeleteUnique(rows[1..], id);
      DeleteRemoves(rows[1..], id);
    }
  }

  lemma FindFirst(first: Row, rest: seq<Row>, id: int, off: int)
    ensures Find([first] + rest, id, off) ==
      if first.metaId == id && first.blobOffset == off then 0
      else if Find(rest, id, off) < 0 then -1 else Find(rest, id, off) + 1
  {
    assert ([first] + rest)[1..] == rest;
  }

  lemma {:induction false} DeleteKeeps(rows: seq<Row>, id: int, id': int, off: int)
    requires id' != id
    ensures
      var k, k' := Find(rows, id', off), Find(DeleteRows(rows, id), id', off);
      (k < 0 <==> k' < 0) && (k >= 0 ==> rows[k] == DeleteRows(rows, id)[k'])
  {
    if rows != [] {
      var first, rest := rows[0], rows[1..];
      assert rows == [first] + rest;
      DeleteKeeps(rest, id, id', off);
      FindFirst(first, rest, id', off);
      FindFirst(first, DeleteRows(rest, id), id', off);
    }
  }

  lemma DeleteOtherFile(rows: seq<Row>, id: int, id': int, bs: int, size: nat)
    requires id' != id && bs > 0 && BlocksOk(rows, id', bs, size)
    ensures BlocksOk(DeleteRows(rows, id), id', bs, size)
    ensures Flat(DeleteRows(rows, id), id', bs, size) == Flat(rows, id', bs, size)
  {
    DeleteRemoves(rows, id);
    forall i | 0 <= i < size
      ensures ByteAt(DeleteRows(rows, id), id', bs, i) == ByteAt(rows, id', bs, i)
    {
      DeleteKeeps(rows, id, id', BlockStart(bs, i));
    }
  }
}
