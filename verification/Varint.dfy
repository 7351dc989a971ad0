/**
 The line index of an action log in the database (models/actions/utils.go:48-71): signed 64-bit
 integers, zigzag-mapped and written as base-128 varints, one after the other. The encoding is
 that of the Protocol Buffers specification, sections "Base 128 Varints" and "Signed Integers".
 */
module Varint {

  import opened Bytes

  const TWO64 := 0x1_0000_0000_0000_0000
  const MAX_VARINT_LEN64 := 10

  // ----- zigzag

  /** 0, -1, 1, -2, 2, ... become 0, 1, 2, 3, 4, ... */
  function ZigZag(x: int64): uint64 {
    if x >= 0 then 2 * x else -2 * x - 1
  }

  function UnZigZag(u: uint64): int64 {
    if u % 2 == 0 then u / 2 else -(u / 2) - 1
  }

  lemma UnZigZagInverse(x: int64)
    ensures UnZigZag(ZigZag(x)) == x
  {
    if x >= 0 {
      assert (2 * x) % 2 == 0 && (2 * x) / 2 == x;
    } else {
      var y := -1 - x;
      assert ZigZag(x) == 2 * y + 1 && (2 * y + 1) % 2 == 1 && (2 * y + 1) / 2 == y;
    }
  }

  /** The first lines of `binary.PutVarint`: a shift in 64 bits, complemented for negative numbers. */
  method ToUnsigned(x: int64) returns (ux: uint64)
    ensures ux == ZigZag(x)
  {
    ux := (2 * (if x >= 0 then x else x + TWO64)) % TWO64;
    if x < 0 {
      ux := TWO64 - 1 - ux;
    }
  }

  /** The last lines of `binary.ReadVarint`. */
  method ToSigned(ux: uint64) returns (x: int64)
    ensures x == UnZigZag(ux)
  {
    x := ux / 2;
    if ux % 2 != 0 {
      x := -1 - x;
    }
  }

  // ----- unsigned varints

  /** `x << 7*i`, before any truncation. */
  function Shift(x: nat, i: nat): nat {
    if i == 0 then x else 128 * Shift(x, i - 1)
  }

  lemma {:induction false} ShiftAdd(x: nat, y: nat, i: nat)
    ensures Shift(x + y, i) == Shift(x, i) + Shift(y, i)
  {
    if i > 0 {
      ShiftAdd(x, y, i - 1);
    }
  }

  lemma {:induction false} ShiftOnce(x: nat, i: nat)
    ensures Shift(128 * x, i) == Shift(x, i + 1)
  {
    if i > 0 {
      ShiftOnce(x, i - 1);
    }
  }

  lemma ShiftMonotone(x: nat, y: nat, i: nat)
    requires x <= y
    ensures Shift(x, i) <= Shift(y, i)
  {
    ShiftAdd(x, y - x, i);
  }

  lemma ShiftNine()
    ensures Shift(1, 9) == 0x8000_0000_0000_0000 && Shift(2, 9) == TWO64
  {
    assert Shift(1, 3) == 0x20_0000 && Shift(1, 6) == 0x400_0000_0000;
    assert Shift(2, 3) == 0x40_0000 && Shift(2, 6) == 0x800_0000_0000;
  }

  /** Seven bits a byte, lowest first; the high bit says that more follow. */
  function Encode(u: nat): (r: seq<byte>)
    ensures r != []
  {
    if u < 128 then [u] else [u % 128 + 128] + Encode(u / 128)
  }

  lemma {:induction false} EncodeLength(u: nat, n: nat)
    requires u < Shift(128, n)
    ensures |Encode(u)| <= n + 1
  {
    if u >= 128 {
      EncodeLength(u / 128, n - 1);
    }
  }

  lemma MaxLength(u: uint64)
    ensures |Encode(u)| <= MAX_VARINT_LEN64
  {
    ShiftNine();
    ShiftMonotone(2, 128, 9);
    EncodeLength(u, 9);
  }

  /** `binary.PutUvarint` at offset `at`; returns how many bytes it wrote. */
  method PutUvarint(buf: array<byte>, at: nat, x: uint64) returns (n: nat)
    requires at + |Encode(x)| <= buf.Length
    modifies buf
    ensures n == |Encode(x)| && buf[at..at + n] == Encode(x)
    ensures buf[..at] == old(buf[..at])
  {
    var u: nat := x;
    n := 0;
    while u >= 128
      invariant at + n + |Encode(u)| <= buf.Length
      invariant buf[at..at + n] + Encode(u) == Encode(x)
      invariant buf[..at] == old(buf[..at])
      decreases u
    {
      ghost var done := buf[at..at + n];
      buf[at + n] := u % 128 + 128;
      Extended(buf, at, n, done);
      u := u / 128;
      n := n + 1;
    }
    ghost var done := buf[at..at + n];
    buf[at + n] := u;
    Extended(buf, at, n, done);
    n := n + 1;
  }

  lemma Extended(buf: array<byte>, at: nat, n: nat, done: seq<byte>)
    requires at + n < buf.Length && buf[at..at + n] == done
    ensures buf[at..at + n + 1] == done + [buf[at + n]]
  {
  }

  datatype Read = Value(x: nat, rest: seq<byte>) | Eof | UnexpectedEof | Overflow

  /** `binary.ReadUvarint` after `i` bytes that gave `x`. */
  function ReadFrom(bs: seq<byte>, i: nat, x: nat): Read
    requires i <= 10
    decreases 10 - i
  {
    if i == 10 then Overflow
    else if bs == [] then (if i > 0 then UnexpectedEof else Eof)
    else if bs[0] < 128 then
      if i == 9 && bs[0] > 1 then Overflow else Value(x + Shift(bs[0], i), bs[1..])
    else ReadFrom(bs[1..], i + 1, x + Shift(bs[0] - 128, i))
  }

  lemma SplitDigit(u: nat, i: nat)
    ensures Shift(u, i) == Shift(u % 128, i) + Shift(u / 128, i + 1)
  {
    assert u == u % 128 + 128 * (u / 128);
    ShiftAdd(u % 128, 128 * (u / 128), i);
    ShiftOnce(u / 128, i);
  }

  /** The tenth byte of a 64-bit number is 0 or 1. */
  lemma LastDigit(u: nat)
    requires Shift(u, 9) < TWO64
    ensures u <= 1
  {
    ShiftNine();
    if u >= 2 {
      ShiftMonotone(2, u, 9);
    }
  }

  /** Reading gives back what was written, and stops right after it. */
  lemma {:induction false} ReadEncoded(u: nat, rest: seq<byte>, i: nat, x: nat)
    requires i <= 9 && Shift(u, i) < TWO64
    ensures ReadFrom(Encode(u) + rest, i, x) == Value(x + Shift(u, i), rest)
    decreases u
  {
    var bs := Encode(u) + rest;
    if i == 9 {
      LastDigit(u);
    }
    if u < 128 {
      assert bs[1..] == rest;
    } else {
      SplitDigit(u, i);
      assert bs[1..] == Encode(u / 128) + rest;
      ReadEncoded(u / 128, rest, i + 1, x + Shift(u % 128, i));
    }
  }

  // ----- the list of indexes

  lemma MiddleDigit(x: nat, d: nat, i: nat)
    requires x < Shift(1, i) && d < 128
    ensures x + Shift(d, i) < Shift(1, i + 1)
  {
    ShiftMonotone(d, 127, i);
    ShiftAdd(1, 127, i);
    ShiftOnce(1, i);
  }

  lemma {:induction false} ShiftsBelow(i: nat)
    requires i <= 9
    ensures Shift(1, i) <= Shift(1, 9) < TWO64
    decreases 9 - i
  {
    ShiftNine();
    if i < 9 {
      ShiftsBelow(i + 1);
    }
  }

  lemma {:induction false} ReadShrinks(bs: seq<byte>, i: nat, x: nat)
    requires i <= 10 && x < Shift(1, i)
    ensures ReadFrom(bs, i, x).Value? ==> |ReadFrom(bs, i, x).rest| < |bs| && ReadFrom(bs, i, x).x < TWO64
    decreases 10 - i
  {
    if i < 10 && bs != [] {
      if bs[0] >= 128 {
        MiddleDigit(x, bs[0] - 128, i);
        ReadShrinks(bs[1..], i + 1, x + Shift(bs[0] - 128, i));
      } else if i < 9 {
        MiddleDigit(x, bs[0], i);
        ShiftsBelow(i + 1);
      } else if bs[0] <= 1 {
        ShiftNine();
        ShiftMonotone(bs[0], 1, 9);
      }
    }
  }

  /** What `FromDB` decodes from `bs`, and whether it ends without an error. */
  function FromBytes(bs: seq<byte>): (r: (seq<int64>, bool)) {
    match ReadFrom(bs, 0, 0)
    case Eof => ([], true)
    case UnexpectedEof => ([], false)
    case Overflow => ([], false)
    case Value(u, rest) =>
      ReadShrinks(bs, 0, 0);
      var (xs, ok) := FromBytes(rest);
      ([UnZigZag(u)] + xs, ok)
  }

  function ToBytes(xs: seq<int64>): seq<byte> {
    if xs == [] then [] else Encode(ZigZag(xs[0])) + ToBytes(xs[1..])
  }

  /** Every list of 64-bit integers survives the database, whatever bytes follow it. */
  lemma {:induction false} RoundTrip(xs: seq<int64>, more: seq<byte>)
    ensures FromBytes(ToBytes(xs) + more) == (xs + FromBytes(more).0, FromBytes(more).1)
  {
    if xs == [] {
      assert [] + more == more;
      assert xs + FromBytes(more).0 == FromBytes(more).0;
    } else {
      var u := ZigZag(xs[0]);
      assert ToBytes(xs) + more == Encode(u) + (ToBytes(xs[1..]) + more);
      ReadEncoded(u, ToBytes(xs[1..]) + more, 0, 0);
      UnZigZagInverse(xs[0]);
      RoundTrip(xs[1..], more);
      assert [xs[0]] + (xs[1..] + FromBytes(more).0) == xs + FromBytes(more).0;
    }
  }

  /** Different lists are stored as different bytes. */
  lemma ToBytesInjective(xs: seq<int64>, ys: seq<int64>)
    requires ToBytes(xs) == ToBytes(ys)
    ensures xs == ys
  {
    RoundTrip(xs, []);
    RoundTrip(ys, []);
    assert FromBytes([]) == ([], true);
    assert xs + [] == xs && ys + [] == ys;
  }

  lemma {:induction false} ToBytesAppend(xs: seq<int64>, x: int64)
    ensures ToBytes(xs + [x]) == ToBytes(xs) + Encode(ZigZag(x))
  {
    if xs != [] {
      assert (xs + [x])[1..] == xs[1..] + [x];
      ToBytesAppend(xs[1..], x);
    }
  }

  /** `binary.ReadUvarint`: at most ten bytes. */
  method ReadUvarint(bs: seq<byte>) returns (r: Read)
    ensures r == ReadFrom(bs, 0, 0)
  {
    var x: nat, rest := 0, bs;
    ghost var whole := ReadFrom(bs, 0, 0);
    for i := 0 to MAX_VARINT_LEN64
      invariant whole == ReadFrom(rest, i, x)
    {
      if rest == [] {
        return if i > 0 then UnexpectedEof else Eof;
      }
      var b: nat := rest[0];
      if b < 128 {
        if i == MAX_VARINT_LEN64 - 1 && b > 1 {
          return Overflow;
        }
        return Value(x + Shift(b, i), rest[1..]);
      }
      x := x + Shift(b - 128, i);
      rest := rest[1..];
    }
    return Overflow;
  }

  // ----- the format itself

  /** The number that base-128 digits spell, lowest first, whatever their high bits. */
  function Number(bs: seq<byte>): nat {
    if bs == [] then 0 else bs[0] % 128 + 128 * Number(bs[1..])
  }

  /** How many bytes at the front have their high bit set. */
  function Leading(bs: seq<byte>): (n: nat)
    ensures n <= |bs| && (forall i :: 0 <= i < n ==> bs[i] >= 128) && (n < |bs| ==> bs[n] < 128)
  {
    if bs == [] || bs[0] < 128 then 0 else 1 + Leading(bs[1..])
  }

  /**
   What is written for a number: its base-128 digits, lowest first, the high bit set on all but
   the last, and no digit 0 at the end of more than one.
   */
  lemma {:induction false} EncodeFormat(u: nat)
    ensures Number(Encode(u)) == u && Leading(Encode(u)) == |Encode(u)| - 1
    ensures |Encode(u)| > 1 ==> Encode(u)[|Encode(u)| - 1] > 0
  {
    if u < 128 {
      OneDigit(u);
    } else {
      EncodeFormat(u / 128);
      var rest := Encode(u / 128);
      assert Encode(u)[1..] == rest;
      assert Encode(u)[0] % 128 == u % 128;
      if u / 128 < 128 {
        assert rest == [u / 128];
      }
    }
  }

  /** The zigzag numbers in order: 0, -1, 1, -2, 2 and so on get 0, 1, 2, 3, 4 and so on. */
  lemma ZigZagOrder(x: int64)
    requires x >= 0
    ensures ZigZag(0) == 0 && ZigZag(-x - 1) == ZigZag(x) + 1
    ensures x < 0x7fff_ffff_ffff_ffff ==> ZigZag(x + 1) == ZigZag(-x - 1) + 1
  {
  }

  lemma OneDigit(b: byte)
    ensures Number([b]) == b % 128
  {
    assert [b][1..] == [];
    assert Number([]) == 0;
  }

  lemma ShiftNumber(b: byte, bs: seq<byte>, i: nat)
    ensures Shift(Number([b] + bs), i) == Shift(b % 128, i) + Shift(Number(bs), i + 1)
  {
    assert ([b] + bs)[1..] == bs;
    ShiftAdd(b % 128, 128 * Number(bs), i);
    ShiftOnce(Number(bs), i);
  }

  /**
   What reading gives after `i` bytes that gave `x`, when the next `n` bytes have their high bit
   set and no more: an overflow when there are ten of them or the tenth byte is above 1, an end
   when no byte follows them, and otherwise the digits up to that byte and the bytes behind it.
   */
  function Outcome(bs: seq<byte>, n: nat, i: nat, x: nat): Read
    requires n <= |bs|
  {
    if n + i >= 10 then Overflow
    else if n == |bs| then (if n + i == 0 then Eof else UnexpectedEof)
    else if n + i == 9 && bs[n] > 1 then Overflow
    else Value(x + Shift(Number(bs[..n + 1]), i), bs[n + 1..])
  }

  lemma OutcomeNext(b: byte, bs: seq<byte>, n: nat, i: nat, x: nat)
    requires b >= 128 && n <= |bs|
    ensures Outcome([b] + bs, n + 1, i, x) == Outcome(bs, n, i + 1, x + Shift(b - 128, i))
  {
    if n < |bs| {
      assert ([b] + bs)[..n + 2] == [b] + bs[..n + 1];
      ShiftNumber(b, bs[..n + 1], i);
    }
  }

  lemma OutcomeLast(bs: seq<byte>, i: nat, x: nat)
    requires bs != [] && bs[0] < 128 && i < 10
    ensures Outcome(bs, 0, i, x) == ReadFrom(bs, i, x)
  {
    assert bs[..1] == [bs[0]];
    OneDigit(bs[0]);
  }

  lemma {:induction false} ReadOutcomeFrom(bs: seq<byte>, i: nat, x: nat)
    requires i <= 10
    ensures ReadFrom(bs, i, x) == Outcome(bs, Leading(bs), i, x)
    decreases 10 - i
  {
    if i < 10 && bs != [] {
      if bs[0] < 128 {
        OutcomeLast(bs, i, x);
      } else {
        ReadOutcomeFrom(bs[1..], i + 1, x + Shift(bs[0] - 128, i));
        assert bs == [bs[0]] + bs[1..];
        OutcomeNext(bs[0], bs[1..], Leading(bs[1..]), i, x);
      }
    }
  }

  lemma OutcomeFromStart(bs: seq<byte>, n: nat)
    requires n <= |bs|
    ensures Outcome(bs, n, 0, 0) ==
      if n >= 10 || (n == 9 && |bs| > 9 && bs[9] > 1) then Overflow
      else if n == |bs| then (if bs == [] then Eof else UnexpectedEof)
      else Value(Number(bs[..n + 1]), bs[n + 1..])
  {
  }

  /**
   Reading any bytes: ten with their high bit set, or a tenth above 1, are too many; they may end
   before a byte without it; otherwise the digits up to that byte are the number, and the rest
   is left.
   */
  lemma ReadOutcome(bs: seq<byte>, r: Read)
    requires r == ReadFrom(bs, 0, 0)
    ensures var n := Leading(bs);
      r == if n >= 10 || (n == 9 && |bs| > 9 && bs[9] > 1) then Overflow
           else if n == |bs| then (if bs == [] then Eof else UnexpectedEof)
           else Value(Number(bs[..n + 1]), bs[n + 1..])
  {
    ReadOutcomeFrom(bs, 0, 0);
    OutcomeFromStart(bs, Leading(bs));
  }

  /** 150 is the example of the specification; 75 is its zigzag preimage. */
  lemma SampleVarint()
    ensures ToBytes([75, -1]) == [150, 1, 1]
  {
    assert ZigZag(75) == 150 && ZigZag(-1) == 1;
    assert Encode(1) == [1];
    assert Encode(150) == [150] + Encode(1);
    assert [75, -1][1..] == [-1] && [-1][1..] == [];
    assert ToBytes([-1]) == Encode(1) + ToBytes([]);
    assert ToBytes([75, -1]) == Encode(150) + ToBytes([-1]);
  }

  class LogIndexes {
    var indexes: seq<int64>

    /** `ToDB`: ten bytes for each number are always enough for the running write position. */
    method ToDB() returns (b: seq<byte>)
      ensures b == ToBytes(indexes)
    {
      var buf := new byte[MAX_VARINT_LEN64 * |indexes|];
      var i := 0;
      for k := 0 to |indexes|
        invariant 0 <= i <= MAX_VARINT_LEN64 * k && buf[..i] == ToBytes(indexes[..k])
      {
        var ux := ToUnsigned(indexes[k]);
        MaxLength(ux);
        var n := PutUvarint(buf, i, ux);
        ToBytesAppend(indexes[..k], indexes[k]);
        assert indexes[..k + 1] == indexes[..k] + [indexes[k]];
        assert buf[..i + n] == buf[..i] + buf[i..i + n];
        i := i + n;
      }
      assert indexes[..|indexes|] == indexes;
      return buf[..i];
    }

    /** `FromDB`: appends what it decodes; on a malformed end it keeps what came before. */
    method FromDB(b: seq<byte>) returns (ok: bool)
      modifies this
      ensures indexes == old(indexes) + FromBytes(b).0 && ok == FromBytes(b).1
    {
      var rest := b;
      while true
        invariant old(indexes) + FromBytes(b).0 == indexes + FromBytes(rest).0
        invariant FromBytes(b).1 == FromBytes(rest).1
        decreases |rest|
      {
        var r := ReadUvarint(rest);
        match r
        case Eof => return true;
        case UnexpectedEof => return false;
        case Overflow => return false;
        case Value(u, next) =>
          ReadShrinks(rest, 0, 0);
          var x := ToSigned(u);
          assert indexes + ([x] + FromBytes(next).0) == (indexes + [x]) + FromBytes(next).0;
          indexes := indexes + [x];
          rest := next;
      }
    }
  }
}
