/**
 Git's pkt-line framing as the proc-receive hook speaks it (cmd/hook.go:602-633, 715-813; the
 format is that of gitprotocol-common(5), section "pkt-line Format").
 */
module PktLine {

  import opened Bytes

  datatype LineType = AnyLine | FlushLine | DataLine

  datatype Error = StdinError | ParseError | UnexpectedFlush | LengthError | DataError

  /** The outcome of reading one line: a line and the bytes after it, or why the hook fails. */
  datatype Line = Flush(rest: seq<byte>) | Data(data: seq<byte>, rest: seq<byte>) | Failed(why: Error)

  const MAX_LENGTH := 65520

  const FLUSH: seq<byte> := [48, 48, 48, 48]

  // ----- hexadecimal

  /** The digits the writer uses: 0-9 and a-f. */
  function HexDigit(n: nat): (d: byte) {
    var k := n % 16;
    if k < 10 then 48 + k else 87 + k
  }

  /** The digits `strconv.ParseUint` accepts: capitals too; -1 for anything else. */
  function HexValue(b: byte): (v: int)
    ensures -1 <= v < 16
  {
    if 48 <= b < 58 then b - 48 else if 97 <= b < 103 then b - 87 else if 65 <= b < 71 then b - 55 else -1
  }

  lemma HexInverse(n: nat)
    ensures HexValue(HexDigit(n)) == n % 16
  {
  }

  /** The four digits in front of a line of `n` bytes; more than four digits are cut off. */
  function Header(n: nat): seq<byte> {
    [HexDigit(n / 4096), HexDigit(n / 256), HexDigit(n / 16), HexDigit(n)]
  }

  /** The number four bytes spell, or -1. */
  function HexNumber(s: seq<byte>): int
    requires |s| == 4
  {
    if exists i :: 0 <= i < 4 && HexValue(s[i]) < 0 then -1
    else 4096 * HexValue(s[0]) + 256 * HexValue(s[1]) + 16 * HexValue(s[2]) + HexValue(s[3])
  }

  lemma HeaderNumber(n: nat)
    ensures HexNumber(Header(n)) == n % 0x10000
  {
    var h := Header(n);
    HexInverse(n / 4096);
    HexInverse(n / 256);
    HexInverse(n / 16);
    HexInverse(n);
    assert forall i :: 0 <= i < 4 ==> HexValue(h[i]) >= 0;
    FourDigits(n);
  }

  lemma LastOfFour(n: nat)
    ensures n % 0x10000 == 16 * (n / 16 % 4096) + n % 16
  {
  }

  lemma LastOfThree(n: nat)
    ensures n % 4096 == 16 * (n / 16 % 256) + n % 16
  {
  }

  lemma LastOfTwo(n: nat)
    ensures n % 256 == 16 * (n / 16 % 16) + n % 16
  {
  }

  lemma DivideTwice(n: nat)
    ensures n / 16 / 16 == n / 256
  {
  }

  lemma DivideThrice(n: nat)
    ensures n / 256 / 16 == n / 4096
  {
  }

  lemma FourDigits(n: nat)
    ensures 4096 * (n / 4096 % 16) + 256 * (n / 256 % 16) + 16 * (n / 16 % 16) + n % 16 == n % 0x10000
  {
    LastOfFour(n);
    LastOfThree(n / 16);
    DivideTwice(n);
    LastOfTwo(n / 256);
    DivideThrice(n);
  }

  // ----- lines

  function Packet(data: seq<byte>): seq<byte> {
    Header(|data| + 4) + data
  }

  /** `readPktLine` on the bytes still to come. */
  function ReadLine(input: seq<byte>, want: LineType): Line {
    if |input| < 4 then Failed(StdinError)
    else
      var n := HexNumber(input[..4]);
      if n < 0 then Failed(ParseError)
      else if n == 0 then (if want == DataLine then Failed(UnexpectedFlush) else Flush(input[4..]))
      else if n <= 4 || n > MAX_LENGTH || want == FlushLine then Failed(LengthError)
      else if |input| < n then Failed(DataError)
      else Data(input[4..n], input[n..])
  }

  /** What a line written for a payload of any length is read as: its header counts modulo 65536. */
  function Outcome(data: seq<byte>, rest: seq<byte>, want: LineType): Line {
    var m := (|data| + 4) % 0x10000;
    var more := data + rest;
    if m == 0 then (if want == DataLine then Failed(UnexpectedFlush) else Flush(more))
    else if m <= 4 || m > MAX_LENGTH || want == FlushLine then Failed(LengthError)
    else Data(more[..m - 4], more[m - 4..])
  }

  lemma CutHeader(head: seq<byte>, more: seq<byte>)
    requires |head| == 4
    ensures (head + more)[..4] == head && (head + more)[4..] == more
    ensures forall m :: 4 <= m <= 4 + |more| ==>
      (head + more)[4..m] == more[..m - 4] && (head + more)[m..] == more[m - 4..]
  {
  }

  lemma PacketOutcome(data: seq<byte>, rest: seq<byte>, want: LineType)
    ensures ReadLine(Packet(data) + rest, want) == Outcome(data, rest, want)
  {
    var head := Header(|data| + 4);
    assert Packet(data) + rest == head + (data + rest);
    CutHeader(head, data + rest);
    HeaderNumber(|data| + 4);
  }

  lemma OutcomeIff(data: seq<byte>, rest: seq<byte>, want: LineType)
    requires want != FlushLine
    ensures Outcome(data, rest, want) == Data(data, rest) <==> 1 <= |data| <= MAX_LENGTH - 4
  {
    var more := data + rest;
    assert more[..|data|] == data && more[|data|..] == rest;
  }

  /** A payload comes back as one data line exactly when it has 1 to 65516 bytes. */
  lemma PacketRoundTripIff(data: seq<byte>, rest: seq<byte>, want: LineType)
    requires want != FlushLine
    ensures ReadLine(Packet(data) + rest, want) == Data(data, rest) <==> 1 <= |data| <= MAX_LENGTH - 4
  {
    PacketOutcome(data, rest, want);
    OutcomeIff(data, rest, want);
  }

  /** A longer payload overflows the header, and what is read then has another length. */
  lemma WrappedHeader(data: seq<byte>, rest: seq<byte>, want: LineType)
    requires |data| + 4 >= 0x10000
    ensures var r := ReadLine(Packet(data) + rest, want); r.Data? ==> |r.data| < |data|
  {
    PacketOutcome(data, rest, want);
  }

  lemma FlushRead(rest: seq<byte>, want: LineType)
    requires want != DataLine
    ensures ReadLine(FLUSH + rest, want) == Flush(rest)
  {
    assert (FLUSH + rest)[..4] == FLUSH && (FLUSH + rest)[4..] == rest;
    assert Header(0) == FLUSH;
    HeaderNumber(0);
  }

  lemma ReadShrinks(input: seq<byte>, want: LineType)
    ensures var r := ReadLine(input, want); !r.Failed? ==> |r.rest| < |input|
  {
  }

  // ----- the format itself

  /** The character codes of 0 to 9 and a to f; the writer uses these, the reader takes A to F too. */
  lemma Digits(n: nat, b: byte)
    requires n < 16
    ensures HexDigit(n) == "0123456789abcdef"[n] as int
    ensures HexValue(b) == n <==> b == "0123456789abcdef"[n] as int || b == "0123456789ABCDEF"[n] as int
  {
  }

  /** Three packets of the format's description: a line of two bytes, of one, and of seven. */
  lemma SamplePackets(a: byte, b: byte, line: seq<byte>)
    requires |line| == 7
    ensures Packet([a, b]) == [48, 48, 48, 54, a, b]
    ensures Packet([a]) == [48, 48, 48, 53, a]
    ensures Packet(line) == [48, 48, 48, 98] + line
  {
  }

  lemma SplitInput(input: seq<byte>, n: nat)
    requires 4 <= n <= |input|
    ensures input == input[..4] + input[4..n] + input[n..]
  {
  }

  /**
   What is read as data, from any input: four digits that spell the length of themselves and the
   data, and 1 to 65516 bytes of data; everything behind them is left.
   */
  lemma DataIff(input: seq<byte>, want: LineType, data: seq<byte>, rest: seq<byte>)
    ensures ReadLine(input, want) == Data(data, rest) <==>
      && want != FlushLine && 1 <= |data| <= 65516 && |input| >= 4
      && HexNumber(input[..4]) == |data| + 4 && input == input[..4] + data + rest
  {
    if |input| >= 4 {
      var n := HexNumber(input[..4]);
      if 4 < n <= |input| {
        SplitInput(input, n);
      }
      if input == input[..4] + data + rest && n == |data| + 4 {
        assert input[4..n] == data && input[n..] == rest;
      }
    }
  }

  /** The other outcomes, by the first four bytes and what was asked for. */
  lemma ReadErrors(input: seq<byte>, want: LineType)
    ensures ReadLine(input, want) == Failed(StdinError) <==> |input| < 4
    ensures ReadLine(input, want) == Failed(ParseError) <==> |input| >= 4 && exists i :: 0 <= i < 4 && HexValue(input[i]) < 0
    ensures ReadLine(input, want) == Failed(UnexpectedFlush) <==> |input| >= 4 && input[..4] == FLUSH && want == DataLine
    ensures ReadLine(input, want).Flush? <==> |input| >= 4 && input[..4] == FLUSH && want != DataLine
    ensures ReadLine(input, want) == Failed(LengthError) <==>
      |input| >= 4 && HexNumber(input[..4]) > 0
      && (HexNumber(input[..4]) <= 4 || HexNumber(input[..4]) > 65520 || want == FlushLine)
    ensures ReadLine(input, want) == Failed(DataError) <==>
      want != FlushLine && |input| >= 4
      && 4 < HexNumber(input[..4]) <= 65520 && |input| < HexNumber(input[..4])
  {
    if |input| >= 4 {
      var head := input[..4];
      assert forall i :: 0 <= i < 4 ==> head[i] == input[i];
      ZeroIsFlush(head);
    }
  }

  lemma ZeroIsFlush(head: seq<byte>)
    requires |head| == 4
    ensures HexNumber(head) == 0 <==> head == FLUSH
    ensures HexNumber(head) < 0 <==> exists i :: 0 <= i < 4 && HexValue(head[i]) < 0
  {
    if HexNumber(head) == 0 {
      assert forall i :: 0 <= i < 4 ==> HexValue(head[i]) >= 0;
      assert forall i :: 0 <= i < 4 ==> head[i] == 48;
    }
  }

  // ----- runs of lines

  function Stream(lines: seq<seq<byte>>): seq<byte> {
    if lines == [] then FLUSH else Packet(lines[0]) + Stream(lines[1..])
  }

  datatype Run = Lines(lines: seq<seq<byte>>, rest: seq<byte>) | RunFailed(why: Error)

  /** The read loops of the hook: data lines up to a flush. */
  function ReadRun(input: seq<byte>): Run
    decreases |input|
  {
    match ReadLine(input, AnyLine)
    case Failed(why) => RunFailed(why)
    case Flush(rest) => Lines([], rest)
    case Data(data, rest) =>
      ReadShrinks(input, AnyLine);
      match ReadRun(rest)
      case RunFailed(why) => RunFailed(why)
      case Lines(lines, rest') => Lines([data] + lines, rest')
  }

  lemma RunNext(input: seq<byte>, data: seq<byte>, more: seq<byte>, lines: seq<seq<byte>>, rest: seq<byte>)
    requires ReadLine(input, AnyLine) == Data(data, more) && ReadRun(more) == Lines(lines, rest)
    ensures ReadRun(input) == Lines([data] + lines, rest)
  {
  }

  lemma Reassociate(a: seq<byte>, b: seq<byte>, c: seq<byte>)
    ensures (a + b) + c == a + (b + c)
  {
  }

  lemma StreamNext(lines: seq<seq<byte>>, rest: seq<byte>)
    requires lines != []
    ensures Stream(lines) + rest == Packet(lines[0]) + (Stream(lines[1..]) + rest)
    ensures lines == [lines[0]] + lines[1..]
  {
    Reassociate(Packet(lines[0]), Stream(lines[1..]), rest);
  }

  /** What was written as lines and a flush is read back, and nothing after the flush is touched. */
  lemma {:induction false} StreamRoundTrip(lines: seq<seq<byte>>, rest: seq<byte>)
    requires forall d :: d in lines ==> 1 <= |d| <= MAX_LENGTH - 4
    ensures ReadRun(Stream(lines) + rest) == Lines(lines, rest)
  {
    if lines == [] {
      FlushRead(rest, AnyLine);
    } else {
      assert lines[0] in lines;
      var more := Stream(lines[1..]) + rest;
      StreamNext(lines, rest);
      PacketRoundTripIff(lines[0], more, AnyLine);
      StreamRoundTrip(lines[1..], rest);
      RunNext(Stream(lines) + rest, lines[0], more, lines[1..], rest);
    }
  }

  /** If the data of a line comes back, it is within the limits and only the line was read. */
  lemma DataComesBack(data: seq<byte>, more: seq<byte>, r: Line)
    requires r == ReadLine(Packet(data) + more, AnyLine) && r.Data? && r.data == data
    ensures r.rest == more && 1 <= |data| <= MAX_LENGTH - 4
  {
    PacketOutcome(data, more, AnyLine);
    var m := (|data| + 4) % 0x10000;
    assert |data| == m - 4;
    assert (data + more)[|data|..] == more;
  }

  lemma RunStep(input: seq<byte>, r: Line, lines: seq<seq<byte>>, rest: seq<byte>)
    requires r == ReadLine(input, AnyLine)
    requires lines != [] && ReadRun(input) == Lines(lines, rest)
    ensures r.Data? && r.data == lines[0] && ReadRun(r.rest) == Lines(lines[1..], rest)
  {
  }

  /** And only such lists: one payload outside the limits and the list does not come back. */
  lemma {:induction false} StreamRoundTripOnlyIf(lines: seq<seq<byte>>, rest: seq<byte>)
    requires ReadRun(Stream(lines) + rest) == Lines(lines, rest)
    ensures forall d :: d in lines ==> 1 <= |d| <= MAX_LENGTH - 4
  {
    if lines != [] {
      var input, more := Stream(lines) + rest, Stream(lines[1..]) + rest;
      var r := ReadLine(input, AnyLine);
      StreamNext(lines, rest);
      RunStep(input, r, lines, rest);
      DataComesBack(lines[0], more, r);
      StreamRoundTripOnlyIf(lines[1..], rest);
    }
  }

  // ----- the code

  function Prepend(lines: seq<seq<byte>>, r: Run): Run {
    match r
    case RunFailed(why) => RunFailed(why)
    case Lines(more, rest) => Lines(lines + more, rest)
  }

  lemma PrependNext(lines: seq<seq<byte>>, data: seq<byte>, r: Run)
    ensures Prepend(lines, Prepend([data], r)) == Prepend(lines + [data], r)
  {
    if r.Lines? {
      assert lines + ([data] + r.lines) == (lines + [data]) + r.lines;
    }
  }

  /** The lines without the flush. */
  function Written(lines: seq<seq<byte>>): seq<byte> {
    if lines == [] then [] else Written(lines[..|lines| - 1]) + Packet(lines[|lines| - 1])
  }

  lemma WrittenNext(lines: seq<seq<byte>>, i: nat)
    requires i < |lines|
    ensures Written(lines[..i + 1]) == Written(lines[..i]) + Packet(lines[i])
  {
    assert lines[..i + 1][..i] == lines[..i];
  }

  lemma {:induction false} WrittenFirst(line: seq<byte>, lines: seq<seq<byte>>)
    ensures Written([line] + lines) == Packet(line) + Written(lines)
  {
    var all := [line] + lines;
    if lines == [] {
      assert all[..|all| - 1] == [];
      assert [] + Packet(line) == Packet(line) + [];
    } else {
      var last := lines[|lines| - 1];
      assert all[..|all| - 1] == [line] + lines[..|lines| - 1];
      WrittenFirst(line, lines[..|lines| - 1]);
      assert Packet(line) + Written(lines[..|lines| - 1]) + Packet(last)
          == Packet(line) + (Written(lines[..|lines| - 1]) + Packet(last));
    }
  }

  lemma {:induction false} WrittenStream(lines: seq<seq<byte>>)
    ensures Written(lines) + FLUSH == Stream(lines)
  {
    if lines == [] {
      assert [] + FLUSH == FLUSH;
    } else {
      assert lines == [lines[0]] + lines[1..];
      WrittenFirst(lines[0], lines[1..]);
      WrittenStream(lines[1..]);
      assert Packet(lines[0]) + Written(lines[1..]) + FLUSH == Packet(lines[0]) + (Written(lines[1..]) + FLUSH);
    }
  }

  class Reader {
    var input: seq<byte>

    constructor (input: seq<byte>)
      ensures this.input == input
    {
      this.input := input;
    }

    method ReadByte() returns (ok: bool, b: byte)
      modifies this
      ensures ok == (old(input) != [])
      ensures ok ==> b == old(input)[0] && input == old(input)[1..]
      ensures !ok ==> input == old(input)
    {
      if input == [] {
        return false, 0;
      }
      ok, b, input := true, input[0], input[1..];
    }

    /** The byte-by-byte loops: exactly `n` bytes, or failure when the input ends first. */
    method ReadBytes(n: nat) returns (ok: bool, bytes: seq<byte>)
      modifies this
      ensures ok == (|old(input)| >= n)
      ensures ok ==> bytes == old(input)[..n] && input == old(input)[n..]
    {
      bytes := [];
      for i := 0 to n
        invariant |bytes| == i <= |old(input)| && bytes == old(input)[..i] && input == old(input)[i..]
      {
        var more, b := ReadByte();
        if !more {
          return false, bytes;
        }
        bytes := bytes + [b];
      }
      return true, bytes;
    }

    /** `strconv.ParseUint(s, 16, 32)` on four bytes. */
    static method ParseHex(s: seq<byte>) returns (n: int)
      requires |s| == 4
      ensures n == HexNumber(s)
    {
      n := 0;
      for i := 0 to 4
        invariant forall k :: 0 <= k < i ==> HexValue(s[k]) >= 0
        invariant n == if i == 0 then 0 else if i == 1 then HexValue(s[0])
                       else if i == 2 then 16 * HexValue(s[0]) + HexValue(s[1])
                       else if i == 3 then 256 * HexValue(s[0]) + 16 * HexValue(s[1]) + HexValue(s[2])
                       else 4096 * HexValue(s[0]) + 256 * HexValue(s[1]) + 16 * HexValue(s[2]) + HexValue(s[3])
      {
        var v := HexValue(s[i]);
        if v < 0 {
          return -1;
        }
        n := 16 * n + v;
      }
    }

    /** `readPktLine`. */
    method ReadPktLine(want: LineType) returns (r: Line)
      modifies this
      ensures r == ReadLine(old(input), want)
      ensures !r.Failed? ==> input == r.rest
    {
      var ok, lengthBytes := ReadBytes(4);
      if !ok {
        return Failed(StdinError);
      }
      var length := ParseHex(lengthBytes);
      if length < 0 {
        return Failed(ParseError);
      }
      if length == 0 {
        if want == DataLine {
          return Failed(UnexpectedFlush);
        }
        return Flush(input);
      }
      if length <= 4 || length > MAX_LENGTH || want == FlushLine {
        return Failed(LengthError);
      }
      ghost var body := input;
      var data;
      ok, data := ReadBytes(length - 4);
      if !ok {
        return Failed(DataError);
      }
      assert body[..length - 4] == old(input)[4..length] && body[length - 4..] == old(input)[length..];
      return Data(data, input);
    }

    /** The loop of `runHookProcReceive` that collects lines until a flush. */
    method ReadUntilFlush() returns (r: Run)
      modifies this
      ensures r == ReadRun(old(input))
      ensures r.Lines? ==> input == r.rest
    {
      var lines := [];
      while true
        invariant ReadRun(old(input)) == Prepend(lines, ReadRun(input))
        decreases |input|
      {
        ReadShrinks(input, AnyLine);
        var line := ReadPktLine(AnyLine);
        if line.Failed? {
          return RunFailed(line.why);
        }
        if line.Flush? {
          assert lines + [] == lines;
          return Lines(lines, input);
        }
        PrependNext(lines, line.data, ReadRun(input));
        lines := lines + [line.data];
      }
    }
  }

  class Writer {
    var output: seq<byte>

    constructor ()
      ensures output == []
    {
      output := [];
    }

    /** `writeFlushPktLine`. */
    method WriteFlush()
      modifies this
      ensures output == old(output) + FLUSH
    {
      output := output + [48, 48, 48, 48];
    }

    /** `writeDataPktLine`: the header digits by shifting and masking, then the data. */
    method WriteData(data: seq<byte>)
      modifies this
      ensures output == old(output) + Packet(data)
    {
      var length := |data| + 4;
      var tmp := [HexDigit(length / 4096), HexDigit(length / 256), HexDigit(length / 16), HexDigit(length)];
      output := output + tmp;
      output := output + data;
      assert old(output) + tmp + data == old(output) + (tmp + data);
    }

    /** One data line after the other, and a flush at the end. */
    method WriteLines(lines: seq<seq<byte>>)
      modifies this
      ensures output == old(output) + Stream(lines)
    {
      assert old(output) + Written(lines[..0]) == old(output);
      for i := 0 to |lines|
        invariant output == old(output) + Written(lines[..i])
      {
        WrittenNext(lines, i);
        WriteData(lines[i]);
        assert old(output) + Written(lines[..i]) + Packet(lines[i])
            == old(output) + (Written(lines[..i]) + Packet(lines[i]));
      }
      assert lines[..|lines|] == lines;
      WrittenStream(lines);
      WriteFlush();
      assert old(output) + Written(lines) + FLUSH == old(output) + (Written(lines) + FLUSH);
    }
  }

  /** What one side writes, the other reads, whatever follows in the stream. */
  method Exchange(lines: seq<seq<byte>>, later: seq<byte>) returns (r: Run)
    requires forall d :: d in lines ==> 1 <= |d| <= MAX_LENGTH - 4
    ensures r == Lines(lines, later)
  {
    var w := new Writer();
    w.WriteLines(lines);
    var reader := new Reader(w.output + later);
    assert [] + Stream(lines) == Stream(lines);
    StreamRoundTrip(lines, later);
    r := reader.ReadUntilFlush();
  }
}
