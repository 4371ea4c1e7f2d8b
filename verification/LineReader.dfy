/** Reading newline-terminated protocol lines of bounded length from a chunked stream. */
module LineReader {
  import opened Bytes
  import opened Codecs

  const MAX_LINE: nat := 8 * 1024 * 1024
  const NEWLINE: byte := 10

  datatype InputLine = Eof | Line(bytes: seq<byte>) | TooLarge

  predicate NoNewline(s: seq<byte>) {
    forall j :: 0 <= j < |s| ==> s[j] != NEWLINE
  }

  /** Index of the first newline, or the length when there is none. */
  function LineEnd(s: seq<byte>): (n: nat)
    ensures n <= |s|
    ensures n < |s| ==> s[n] == NEWLINE
    ensures forall j :: 0 <= j < n ==> s[j] != NEWLINE
  {
    EndFrom(s, 0)
  }

  function EndFrom(s: seq<byte>, i: nat): (n: nat)
    requires i <= |s|
    ensures i <= n <= |s|
    ensures n < |s| ==> s[n] == NEWLINE
    ensures forall j :: i <= j < n ==> s[j] != NEWLINE
    decreases |s| - i
  {
    if i == |s| || s[i] == NEWLINE then i else EndFrom(s, i + 1)
  }

  /** What is left after the first line and its newline. */
  function AfterLine(s: seq<byte>): (r: seq<byte>)
    ensures s != [] ==> |r| < |s|
  {
    if LineEnd(s) < |s| then s[LineEnd(s) + 1..] else []
  }

  /** The next line of a stream, whatever its chunking. */
  function NextLine(s: seq<byte>): InputLine {
    if s == [] then Eof
    else if LineEnd(s) <= MAX_LINE then Line(s[..LineEnd(s)])
    else TooLarge
  }

  /** All lines up to the end of the stream. */
  function Lines(s: seq<byte>): seq<InputLine>
    decreases |s|
  {
    if s == [] then [] else [NextLine(s)] + Lines(AfterLine(s))
  }

  /** Where the first line ends when the stream starts with `head`, which has no newline. */
  lemma LineEndBehind(head: seq<byte>, tail: seq<byte>)
    requires NoNewline(head)
    ensures LineEnd(head + tail) == |head| + LineEnd(tail)
    ensures AfterLine(head + tail) == AfterLine(tail)
  {
    var s, n := head + tail, |head| + LineEnd(tail);
    forall j | 0 <= j < n ensures s[j] != NEWLINE { if j >= |head| { assert s[j] == tail[j - |head|]; } }
    assert n < |s| ==> s[n] == tail[n - |head|] == NEWLINE;
    if LineEnd(tail) < |tail| { assert s[n + 1..] == tail[n + 1 - |head|..]; }
  }

  /** A chunk that contains a newline settles the line. */
  lemma ChunkEndsLine(line: seq<byte>, available: seq<byte>, tail: seq<byte>)
    requires NoNewline(line) && LineEnd(available) < |available|
    ensures var stream, n := line + (available + tail), LineEnd(available);
            && NextLine(stream) == (if |line| + n <= MAX_LINE then Line(line + available[..n]) else TooLarge)
            && AfterLine(stream) == (available + tail)[n + 1..]
  {
    var n, s := LineEnd(available), available + tail;
    forall j | 0 <= j < n ensures s[j] != NEWLINE { assert s[j] == available[j]; }
    assert s[n] == available[n];
    assert LineEnd(s) == n;
    LineEndBehind(line, s);
    assert (line + s)[..|line| + n] == line + available[..n];
  }

  /** A chunk without newline only makes the line longer. */
  lemma ChunkContinuesLine(line: seq<byte>, available: seq<byte>, tail: seq<byte>)
    requires NoNewline(line) && LineEnd(available) == |available|
    ensures NoNewline(line + available)
    ensures |line| + |available| > MAX_LINE ==> NextLine(line + (available + tail)) == TooLarge
    ensures AfterLine(line + (available + tail)) == AfterLine(tail)
  {
    assert line + (available + tail) == (line + available) + tail;
    LineEndBehind(line + available, tail);
  }

  // ---------------------------------------------------------------------
  // Framing.
  // ---------------------------------------------------------------------

  /** `write_protocol_line`. */
  function Framed(m: seq<byte>): seq<byte> {
    m + [NEWLINE]
  }

  function Framing(): Printer<seq<byte>> { (m: seq<byte>) => Framed(m) }

  function Frame(ms: seq<seq<byte>>): seq<byte> {
    Flat(Framing(), ms)
  }

  /** A message one protocol line can carry. */
  predicate Frameable(m: seq<byte>) {
    NoNewline(m) && |m| <= MAX_LINE
  }

  lemma FramedReadsBack(m: seq<byte>, rest: seq<byte>)
    requires NoNewline(m)
    ensures NextLine(Framed(m) + rest) == (if |m| <= 8_388_608 then Line(m) else TooLarge)
    ensures AfterLine(Framed(m) + rest) == rest && Framed(m) == m + [10]
  {
    var s := Framed(m) + rest;
    assert s == m + ([NEWLINE] + rest);
    assert LineEnd([NEWLINE] + rest) == 0;
    LineEndBehind(m, [NEWLINE] + rest);
    assert s[..|m|] == m && s[|m| + 1..] == rest && s != [];
  }

  lemma LinesCons(s: seq<byte>)
    requires s != []
    ensures Lines(s) == [NextLine(s)] + Lines(AfterLine(s))
  {}

  lemma FramesCons(ms: seq<seq<byte>>)
    requires ms != [] && Frameable(ms[0])
    ensures Lines(Frame(ms)) == [Line(ms[0])] + Lines(Frame(ms[1..]))
  {
    var rest := Frame(ms[1..]);
    assert Frame(ms) == Framed(ms[0]) + rest;
    FramedReadsBack(ms[0], rest);
    LinesCons(Framed(ms[0]) + rest);
  }

  /** Writing messages as lines and reading the stream gives the messages back, in order. */
  lemma {:induction false} FrameReadsBack(ms: seq<seq<byte>>)
    requires forall m :: m in ms ==> Frameable(m)
    ensures Lines(Frame(ms)) == seq(|ms|, i requires 0 <= i < |ms| => Line(ms[i]))
  {
    if ms == [] {
    } else {
      FramesCons(ms);
      FrameReadsBack(ms[1..]);
    }
  }

  /** The end of the stream ends a last line without newline; 8 MiB are the limit, with or without newline. */
  lemma LastLineMeans(s: seq<byte>)
    requires NoNewline(s)
    ensures NextLine(s) == (if s == [] then Eof else if |s| <= 8_388_608 then Line(s) else TooLarge)
    ensures AfterLine(s) == []
  {
    assert s[..|s|] == s;
  }

  // ---------------------------------------------------------------------
  // The reader.
  // ---------------------------------------------------------------------

  /** A buffered stream that delivers its remaining bytes in arbitrary non-empty chunks. */
  class BufReader {
    var rest: seq<byte>

    constructor (bytes: seq<byte>)
      ensures rest == bytes
    {
      rest := bytes;
    }

    /** `fill_buf`: some non-empty prefix of what is left, empty only at the end. */
    method FillBuf() returns (available: seq<byte>)
      ensures available <= rest
      ensures available == [] <==> rest == []
    {
      if rest == [] {
        return [];
      }
      var n :| 1 <= n <= |rest|;
      available := rest[..n];
    }

    method Consume(n: nat)
      requires n <= |rest|
      modifies this
      ensures rest == old(rest)[n..]
    {
      rest := rest[n..];
    }
  }

  /** The chunk holds the end of the line. */
  method TakeEnd(reader: BufReader, line: seq<byte>, available: seq<byte>, newline: nat, ghost tail: seq<byte>)
      returns (r: InputLine)
    requires reader.rest == available + tail && newline == LineEnd(available) < |available|
    requires NoNewline(line) && |line| <= MAX_LINE
    modifies reader
    ensures r == NextLine(line + old(reader.rest)) && reader.rest == AfterLine(line + old(reader.rest))
  {
    ChunkEndsLine(line, available, tail);
    r := if |line| + newline > MAX_LINE then TooLarge else Line(line + available[..newline]);
    reader.Consume(newline + 1);
  }

  /** The chunk makes the line too long, and its end is still to come. */
  method DropOverlong(reader: BufReader, line: seq<byte>, available: seq<byte>, ghost tail: seq<byte>)
    requires reader.rest == available + tail && LineEnd(available) == |available|
    requires NoNewline(line) && |line| + |available| > MAX_LINE
    modifies reader
    ensures TooLarge == NextLine(line + old(reader.rest)) && reader.rest == AfterLine(line + old(reader.rest))
  {
    ChunkContinuesLine(line, available, tail);
    reader.Consume(|available|);
    SkipLine(reader);
  }

  /** The chunk only makes the line longer. */
  method KeepChunk(reader: BufReader, line: seq<byte>, available: seq<byte>, ghost tail: seq<byte>)
      returns (line': seq<byte>)
    requires reader.rest == available + tail && LineEnd(available) == |available|
    requires NoNewline(line)
    modifies reader
    ensures line' == line + available && NoNewline(line')
    ensures reader.rest == tail && line' + tail == line + old(reader.rest)
  {
    ChunkContinuesLine(line, available, tail);
    line' := line + available;
    reader.Consume(|available|);
  }

  /**
   `read_bounded_mcp_line`. `peak` is the greatest length the buffer `line` ever has; it stays
   within the limit, and a line that is returned is what the buffer held.
   */
  method ReadBoundedLine(reader: BufReader) returns (r: InputLine, ghost peak: nat)
    modifies reader
    ensures r == NextLine(old(reader.rest))
    ensures reader.rest == AfterLine(old(reader.rest))
    ensures peak <= 8_388_608 && (r.Line? ==> |r.bytes| <= peak)
  {
    var line: seq<byte> := [];
    peak := 0;
    ghost var stream := reader.rest;
    while true
      invariant stream == old(reader.rest) == line + reader.rest
      invariant NoNewline(line) && |line| <= peak <= MAX_LINE
      decreases |reader.rest|
    {
      var available := reader.FillBuf();
      if available == [] {
        assert stream == line;
        assert line[..|line|] == line;
        r := if line == [] then Eof else Line(line);
        return;
      }
      ghost var tail := reader.rest[|available|..];
      var newline := LineEnd(available);
      if newline < |available| {
        r := TakeEnd(reader, line, available, newline, tail);
        if r.Line? { peak := if peak < |r.bytes| then |r.bytes| else peak; }
        return;
      }
      if |line| + |available| > MAX_LINE {
        DropOverlong(reader, line, available, tail);
        r := TooLarge;
        return;
      }
      line := KeepChunk(reader, line, available, tail);
      peak := if peak < |line| then |line| else peak;
    }
  }

  /** The inner loop: drop chunks up to and including the next newline. */
  method SkipLine(reader: BufReader)
    modifies reader
    ensures reader.rest == AfterLine(old(reader.rest))
  {
    ghost var stream := reader.rest;
    while true
      invariant AfterLine(reader.rest) == AfterLine(stream)
      decreases |reader.rest|
    {
      var remaining := reader.FillBuf();
      ghost var tail := reader.rest[|remaining|..];
      assert reader.rest == remaining + tail == [] + (remaining + tail);
      if remaining == [] {
        return;
      }
      var newline := LineEnd(remaining);
      if newline < |remaining| {
        ChunkEndsLine([], remaining, tail);
        reader.Consume(newline + 1);
        return;
      }
      ChunkContinuesLine([], remaining, tail);
      reader.Consume(|remaining|);
    }
  }
}
