/**
 * The asyncio transport adapters of connection.py.
 *
 * AsyncioWritableConnection.writeline splits its text with str.splitlines(),
 * strips every piece, and for each piece that is not empty makes one write of
 * the piece followed by "\n" and then one drain on its StreamWriter.
 * AsyncioReadableConnection.readline fails with ConnectionClosedError when its
 * StreamReader is at end of stream, and otherwise returns one line read from
 * it with str.strip() applied.
 *
 * The StreamWriter and StreamReader are modelled by what the adapters see of
 * them: the sequence of calls made on the writer, and the reader's buffered
 * lines with its end-of-stream flag. Bytes and their UTF-8 coding are not
 * modelled; text is a string throughout.
 */
module Connection {
  import opened Text

  // ------------------------------------------------------------- framing

  /** One call the adapter makes on its StreamWriter. */
  datatype WriterCall = WriteCall(data: string) | DrainCall

  /**
   * [line_.strip() for line_ in pieces]: one stripped line per piece, empty
   * exactly for the blank pieces, which the `if line:` test then skips.
   */
  function StripAll(pieces: seq<string>): (r: seq<string>)
    ensures |r| == |pieces|
    ensures forall i :: 0 <= i < |r| ==> (r[i] == [] <==> AllWhitespace(pieces[i]))
  {
    seq(|pieces|, i requires 0 <= i < |pieces| => Strip(pieces[i]))
  }

  /**
   * What the emission loop sends for a list of stripped lines: the lines that
   * are not empty, in order, each followed by "\n".
   */
  function Chunks(lines: seq<string>): (r: seq<string>)
    ensures |r| <= |lines|
    decreases |lines|
  {
    if lines == [] then []
    else
      var last := lines[|lines| - 1];
      Chunks(lines[..|lines| - 1]) + (if last != [] then [last + "\n"] else [])
  }

  /** The chunks writeline(text) writes, one per write call. */
  function Frame(text: string): (r: seq<string>)
    ensures |r| <= |SplitLines(text)|
  {
    Chunks(StripAll(SplitLines(text)))
  }

  /** The calls made on the writer when the chunks are sent one by one. */
  function Transmission(chunks: seq<string>): (r: seq<WriterCall>)
    ensures |r| == 2 * |chunks|
    decreases |chunks|
  {
    if chunks == [] then []
    else Transmission(chunks[..|chunks| - 1]) + [WriteCall(chunks[|chunks| - 1]), DrainCall]
  }

  /**
   * The calls strictly alternate: the k-th chunk is written at position 2k and
   * drained at 2k + 1, so every write is drained before the next one begins.
   */
  lemma {:induction false} TransmissionShape(chunks: seq<string>)
    ensures |Transmission(chunks)| == 2 * |chunks|
    ensures forall k :: 0 <= k < |chunks| ==>
      Transmission(chunks)[2 * k] == WriteCall(chunks[k]) && Transmission(chunks)[2 * k + 1] == DrainCall
    decreases |chunks|
  {
    if chunks != [] {
      var init := chunks[..|chunks| - 1];
      TransmissionShape(init);
      var t := Transmission(chunks);
      assert t == Transmission(init) + [WriteCall(chunks[|chunks| - 1]), DrainCall];
      forall k | 0 <= k < |chunks|
        ensures t[2 * k] == WriteCall(chunks[k]) && t[2 * k + 1] == DrainCall
      {
        if k < |init| { assert chunks[k] == init[k]; }
      }
    }
  }

  /** A chunk as it reaches the wire: a non-empty line that is clean at both edges, then "\n". */
  predicate IsWireLine(c: string) {
    |c| >= 2 && c[|c| - 1] == '\n' && IsCleanLine(c[..|c| - 1]) && c[..|c| - 1] != []
  }

  /** No line break inside, and no whitespace at either end. */
  predicate IsCleanLine(l: string) {
    NoLineBreak(l) && (l != [] ==> !IsWhitespace(l[0]) && !IsWhitespace(l[|l| - 1]))
  }

  /** Chunking is compositional, so it keeps the order of its input. */
  lemma {:induction false} ChunksAppend(a: seq<string>, b: seq<string>)
    ensures Chunks(a + b) == Chunks(a) + Chunks(b)
    decreases |b|
  {
    if b == [] {
      assert a + b == a;
    } else {
      var b' := b[..|b| - 1];
      ChunksAppend(a, b');
      assert (a + b)[..|a + b| - 1] == a + b';
    }
  }

  /** A single line gives its chunk when it is not empty, and nothing otherwise. */
  lemma ChunksOfOne(l: string)
    ensures Chunks([l]) == if l != [] then [l + "\n"] else []
  {
    assert [l][..0] == [];
  }

  /** A chunk is made from exactly a non-empty line of the input. */
  lemma {:induction false} ChunksMembership(lines: seq<string>, c: string)
    ensures c in Chunks(lines) <==> exists i :: 0 <= i < |lines| && lines[i] != [] && c == lines[i] + "\n"
    decreases |lines|
  {
    if lines != [] {
      var init := lines[..|lines| - 1];
      var last := lines[|lines| - 1];
      ChunksMembership(init, c);
      if c in Chunks(lines) && c !in Chunks(init) {
        assert last != [] && c == last + "\n";
        assert lines[|lines| - 1] == last;
      }
      if exists i :: 0 <= i < |lines| && lines[i] != [] && c == lines[i] + "\n" {
        var i :| 0 <= i < |lines| && lines[i] != [] && c == lines[i] + "\n";
        if i < |lines| - 1 { assert init[i] == lines[i]; }
      }
    }
  }

  /** Every chunk of clean lines is a well-formed wire line. */
  lemma {:induction false} ChunksAreWireLines(lines: seq<string>)
    requires forall i :: 0 <= i < |lines| ==> IsCleanLine(lines[i])
    ensures forall k :: 0 <= k < |Chunks(lines)| ==> IsWireLine(Chunks(lines)[k])
    decreases |lines|
  {
    if lines != [] {
      var init := lines[..|lines| - 1];
      var last := lines[|lines| - 1];
      ChunksAreWireLines(init);
      if last != [] {
        var c := last + "\n";
        assert c[..|c| - 1] == last;
        assert IsWireLine(c);
      }
    }
  }

  /** No chunks at all exactly when every line is empty. */
  lemma {:induction false} ChunksEmptyIffAllEmpty(lines: seq<string>)
    ensures Chunks(lines) == [] <==> forall i :: 0 <= i < |lines| ==> lines[i] == []
    decreases |lines|
  {
    if lines != [] {
      var init := lines[..|lines| - 1];
      ChunksEmptyIffAllEmpty(init);
      if forall i :: 0 <= i < |lines| ==> lines[i] == [] {
        assert forall i :: 0 <= i < |init| ==> init[i] == lines[i];
      }
      if Chunks(lines) == [] {
        forall i | 0 <= i < |lines| ensures lines[i] == [] {
          if i < |init| { assert lines[i] == init[i]; }
        }
      }
    }
  }

  // ----------------------------------------------- properties of writeline

  /** Every chunk writeline sends is one non-empty, stripped line without breaks, then "\n". */
  lemma FrameChunksAreWireLines(text: string)
    ensures forall k :: 0 <= k < |Frame(text)| ==> IsWireLine(Frame(text)[k])
  {
    var lines := StripAll(SplitLines(text));
    forall i | 0 <= i < |lines| ensures IsCleanLine(lines[i]) {
      StripKeepsNoLineBreak(SplitLines(text)[i]);
    }
    ChunksAreWireLines(lines);
  }

  /** writeline sends the non-empty stripped pieces of the line split, and only them. */
  lemma FrameMembership(text: string, c: string)
    ensures c in Frame(text) <==>
      exists i :: 0 <= i < |SplitLines(text)| && Strip(SplitLines(text)[i]) != [] && c == Strip(SplitLines(text)[i]) + "\n"
  {
    StrippedChunkMembership(SplitLines(text), c);
  }

  lemma StrippedChunkMembership(pieces: seq<string>, c: string)
    ensures c in Chunks(StripAll(pieces)) <==>
      exists i :: 0 <= i < |pieces| && Strip(pieces[i]) != [] && c == Strip(pieces[i]) + "\n"
  {
    var lines := StripAll(pieces);
    ChunksMembership(lines, c);
    assert forall i :: 0 <= i < |pieces| ==> lines[i] == Strip(pieces[i]);
  }

  /** writeline sends nothing exactly when the text is empty or all whitespace. */
  lemma FrameEmptyIffBlank(text: string)
    ensures Frame(text) == [] <==> AllWhitespace(text)
  {
    BlankIffBlankLines(text);
    NoChunksIffBlankPieces(SplitLines(text));
  }

  /** No chunks come from a list of pieces exactly when every piece is blank. */
  lemma NoChunksIffBlankPieces(pieces: seq<string>)
    ensures Chunks(StripAll(pieces)) == [] <==> AllBlank(pieces)
  {
    var lines := StripAll(pieces);
    ChunksEmptyIffAllEmpty(lines);
    assert forall i :: 0 <= i < |lines| ==> (lines[i] == [] <==> AllWhitespace(pieces[i]));
  }

  lemma StripAllAppend(a: seq<string>, b: seq<string>)
    ensures StripAll(a + b) == StripAll(a) + StripAll(b)
  {
    var l, r := StripAll(a + b), StripAll(a) + StripAll(b);
    forall i | 0 <= i < |a + b| ensures l[i] == r[i] {
      if i < |a| { assert (a + b)[i] == a[i]; } else { assert (a + b)[i] == b[i - |a|]; }
    }
  }

  /** A text without line breaks is sent as its stripped self, or not at all when that is empty. */
  lemma FrameOfLine(body: string)
    requires NoLineBreak(body)
    ensures Frame(body) == if Strip(body) != [] then [Strip(body) + "\n"] else []
  {
    SplitLinesOfUnbroken(body);
    if body != [] {
      assert StripAll([body]) == [Strip(body)];
      ChunksOfOne(Strip(body));
    }
  }

  /** A blank text without line breaks (the empty text among them) sends nothing. */
  lemma FrameOfBlankLine(body: string)
    requires NoLineBreak(body) && AllWhitespace(body)
    ensures Frame(body) == []
  {
    FrameOfLine(body);
  }

  /** A clean, non-empty text is sent as itself followed by "\n". */
  lemma FrameOfCleanLine(body: string)
    requires IsCleanLine(body) && body != []
    ensures Frame(body) == [body + "\n"]
  {
    FrameOfLine(body);
    assert body + [] == body;
    StripRemovesEnding(body, []);
  }

  /**
   * writeline of a text is writeline of its first line followed by writeline of
   * the rest, at a one-character boundary ...
   */
  lemma FrameAtBreak(body: string, c: char, rest: string)
    requires NoLineBreak(body) && IsLineBreak(c)
    requires c == '\r' ==> rest == [] || rest[0] != '\n'
    ensures Frame(body + [c] + rest) == Frame(body) + Frame(rest)
  {
    SplitLinesAtBreak(body, c, rest);
    FrameCons(body, SplitLines(rest));
  }

  /** ... and at a "\r\n" boundary. */
  lemma FrameAtCrLf(body: string, rest: string)
    requires NoLineBreak(body)
    ensures Frame(body + "\r\n" + rest) == Frame(body) + Frame(rest)
  {
    SplitLinesAtCrLf(body, rest);
    FrameCons(body, SplitLines(rest));
  }

  lemma FrameCons(body: string, pieces: seq<string>)
    requires NoLineBreak(body)
    ensures Chunks(StripAll([body] + pieces)) == Frame(body) + Chunks(StripAll(pieces))
  {
    assert StripAll([body] + pieces) == [Strip(body)] + StripAll(pieces);
    ChunksAppend([Strip(body)], StripAll(pieces));
    assert Chunks([Strip(body)]) == Frame(body) by {
      ChunksOfOne(Strip(body));
      FrameOfLine(body);
    }
  }

  /** Lines each followed by "\n": the shape of a text made of whole lines. */
  function Terminated(ls: seq<string>): string {
    if ls == [] then [] else ls[0] + "\n" + Terminated(ls[1..])
  }

  lemma FrameFirstLine(body: string, rest: string)
    requires NoLineBreak(body)
    ensures Frame(body + "\n" + rest) == Frame(body) + Frame(rest)
  {
    assert body + "\n" + rest == body + ['\n'] + rest;
    FrameAtBreak(body, '\n', rest);
  }

  /** writeline of whole lines sends the chunks of those lines, stripped, in order. */
  lemma {:induction false} FrameOfTerminated(ls: seq<string>)
    requires forall i :: 0 <= i < |ls| ==> NoLineBreak(ls[i])
    ensures Frame(Terminated(ls)) == Chunks(StripAll(ls))
    decreases |ls|
  {
    if ls == [] {
      FrameOfBlankLine([]);
    } else {
      var rest := ls[1..];
      assert forall i :: 0 <= i < |rest| ==> rest[i] == ls[i + 1];
      FrameOfTerminated(rest);
      TerminatedStep(ls);
      ChunksStep(ls);
    }
  }

  /** The first whole line of a text of whole lines is sent first. */
  lemma TerminatedStep(ls: seq<string>)
    requires ls != [] && NoLineBreak(ls[0])
    ensures Frame(Terminated(ls)) == Frame(ls[0]) + Frame(Terminated(ls[1..]))
  {
    var t := Terminated(ls[1..]);
    assert Terminated(ls) == ls[0] + "\n" + t;
    FrameFirstLine(ls[0], t);
  }

  /** The chunks of a list of lines start with the first line's frame. */
  lemma ChunksStep(ls: seq<string>)
    requires ls != [] && NoLineBreak(ls[0])
    ensures Chunks(StripAll(ls)) == Frame(ls[0]) + Chunks(StripAll(ls[1..]))
  {
    assert ls == [ls[0]] + ls[1..];
    FrameCons(ls[0], ls[1..]);
  }

  /** Three clean lines without a final "\n" are sent as three chunks, in order. */
  lemma FrameOfThreeLines(a: string, b: string, c: string)
    requires IsCleanLine(a) && a != [] && IsCleanLine(b) && b != [] && IsCleanLine(c) && c != []
    ensures Frame(a + "\n" + b + "\n" + c) == [a + "\n", b + "\n", c + "\n"]
  {
    var tail := b + "\n" + c;
    assert a + "\n" + b + "\n" + c == a + "\n" + tail;
    assert Frame(a + "\n" + tail) == [a + "\n", b + "\n", c + "\n"] by {
      FrameOfTwoLines(b, c);
      FramePrependClean(a, tail);
    }
  }

  lemma FrameOfTwoLines(b: string, c: string)
    requires IsCleanLine(b) && b != [] && IsCleanLine(c) && c != []
    ensures Frame(b + "\n" + c) == [b + "\n", c + "\n"]
  {
    FramePrependClean(b, c);
    FrameOfCleanLine(c);
  }

  /** A clean first line is sent as the first chunk, ahead of whatever the rest sends. */
  lemma FramePrependClean(a: string, rest: string)
    requires IsCleanLine(a) && a != []
    ensures Frame(a + "\n" + rest) == [a + "\n"] + Frame(rest)
  {
    FrameOfCleanLine(a);
    FrameFirstLine(a, rest);
  }

  /** Blank lines before and after a clean line are dropped; the line is sent alone. */
  lemma FrameSkipsBlankLines(before: seq<string>, a: string, after: seq<string>)
    requires forall i :: 0 <= i < |before| ==> NoLineBreak(before[i]) && AllWhitespace(before[i])
    requires forall i :: 0 <= i < |after| ==> NoLineBreak(after[i]) && AllWhitespace(after[i])
    requires IsCleanLine(a) && a != []
    ensures Frame(Terminated(before + [a] + after)) == [a + "\n"]
  {
    var ls := before + [a] + after;
    forall i | 0 <= i < |ls| ensures NoLineBreak(ls[i]) {
      if i < |before| { assert ls[i] == before[i]; }
      else if i > |before| { assert ls[i] == after[i - |before| - 1]; }
    }
    assert Frame(Terminated(ls)) == Chunks(StripAll(ls)) by {
      FrameOfTerminated(ls);
    }
    assert AllBlank(before) && AllBlank(after);
    ChunksSkipBlankPieces(before, a, after);
  }

  lemma ChunksSkipBlankPieces(before: seq<string>, a: string, after: seq<string>)
    requires AllBlank(before) && AllBlank(after)
    requires IsCleanLine(a) && a != []
    ensures Chunks(StripAll(before + [a] + after)) == [a + "\n"]
  {
    var sb, sa := StripAll(before), StripAll(after);
    assert Strip(a) == a by {
      assert a + [] == a;
      StripRemovesEnding(a, []);
    }
    assert StripAll(before + [a] + after) == sb + [a] + sa by {
      StripAllAppend(before + [a], after);
      StripAllAppend(before, [a]);
      assert StripAll([a]) == [a];
    }
    assert Chunks(sb + [a] + sa) == Chunks(sb) + Chunks([a]) + Chunks(sa) by {
      ChunksAppend(sb + [a], sa);
      ChunksAppend(sb, [a]);
    }
    assert Chunks(sb) == [] && Chunks(sa) == [] by {
      NoChunksIffBlankPieces(before);
      NoChunksIffBlankPieces(after);
    }
    ChunksOfOne(a);
  }

  /** The calls the emission loop has made after its first n stripped lines. */
  function Emitted(lines: seq<string>, n: nat): seq<WriterCall>
    requires n <= |lines|
  {
    if n == 0 then []
    else Emitted(lines, n - 1) + (if lines[n - 1] != [] then [WriteCall(lines[n - 1] + "\n"), DrainCall] else [])
  }

  /** Line by line emission makes exactly the transmission of the chunks of the lines so far. */
  lemma {:induction false} EmittedIsTransmission(lines: seq<string>, n: nat)
    requires n <= |lines|
    ensures Emitted(lines, n) == Transmission(Chunks(lines[..n]))
  {
    if n > 0 {
      EmittedIsTransmission(lines, n - 1);
      assert lines[..n][..n - 1] == lines[..n - 1];
      var sent := Chunks(lines[..n - 1]);
      if lines[n - 1] != [] {
        var c := lines[n - 1] + "\n";
        assert Chunks(lines[..n]) == sent + [c];
        assert (sent + [c])[..|sent|] == sent;
      } else {
        assert Chunks(lines[..n]) == sent;
      }
    }
  }

  // ------------------------------------------------------------- writer

  /** The asyncio StreamWriter, modelled by the calls made on it. */
  class StreamWriter {
    var calls: seq<WriterCall>

    constructor ()
      ensures calls == []
    {
      calls := [];
    }

    method Write(data: string)
      modifies this
      ensures calls == old(calls) + [WriteCall(data)]
    {
      calls := calls + [WriteCall(data)];
    }

    method Drain()
      modifies this
      ensures calls == old(calls) + [DrainCall]
    {
      calls := calls + [DrainCall];
    }
  }

  /** A writable connection wrapping a StreamWriter. */
  class AsyncioWritableConnection {
    const writer: StreamWriter

    constructor (writer: StreamWriter)
      ensures this.writer == writer
    {
      this.writer := writer;
    }

    /** Sends each non-empty stripped line of the text, each write drained before the next. */
    method WriteLine(line: string)
      modifies writer
      ensures writer.calls == old(writer.calls) + Transmission(Frame(line))
    {
      var lines := StripAll(SplitLines(line));
      SendLines(lines);
    }

    /**
     * The for-loop of writeline over its stripped lines: a write and a drain for
     * each line that is not empty, nothing for the others.
     */
    method SendLines(lines: seq<string>)
      modifies writer
      ensures writer.calls == old(writer.calls) + Transmission(Chunks(lines))
    {
      var i := 0;
      while i < |lines|
        invariant 0 <= i <= |lines|
        invariant writer.calls == old(writer.calls) + Emitted(lines, i)
      {
        assert Emitted(lines, i + 1) == Emitted(lines, i) + (if lines[i] != [] then [WriteCall(lines[i] + "\n"), DrainCall] else []);
        if lines[i] != [] {
          writer.Write(lines[i] + "\n");
          writer.Drain();
        }
        i := i + 1;
      }
      EmittedIsTransmission(lines, |lines|);
      assert lines[..|lines|] == lines;
    }
  }

  // ------------------------------------------------------------- reader

  /** What AsyncioReadableConnection.readline produces: a line, or ConnectionClosedError. */
  datatype ReadResult = Line(text: string) | Closed

  /**
   * The asyncio StreamReader, modelled by the lines it will hand out (each with
   * its ending, as received) and whether the end of the stream has been fed.
   * Data that arrives while a readline waits is modelled as already buffered.
   */
  class StreamReader {
    var buffer: seq<string>
    var eof: bool

    constructor (lines: seq<string>, eof: bool)
      ensures buffer == lines && this.eof == eof
    {
      buffer := lines;
      this.eof := eof;
    }

    /** StreamReader.at_eof(): the end was fed and nothing is left to read. */
    predicate AtEof()
      reads this
      ensures AtEof() ==> buffer == []
    {
      eof && buffer == []
    }

    /**
     * StreamReader.readline(): the next buffered line; with nothing buffered the
     * wait ends at the end of the stream, and the result is empty.
     */
    method ReadLine() returns (raw: string)
      modifies this
      ensures old(buffer) != [] ==> raw == old(buffer)[0] && buffer == old(buffer)[1..] && eof == old(eof)
      ensures old(buffer) == [] ==> raw == [] && buffer == [] && eof
    {
      if buffer != [] {
        raw := buffer[0];
        buffer := buffer[1..];
      } else {
        raw := [];
        eof := true;
      }
    }
  }

  /** A readable connection wrapping a StreamReader. */
  class AsyncioReadableConnection {
    const reader: StreamReader

    constructor (reader: StreamReader)
      ensures this.reader == reader
    {
      this.reader := reader;
    }

    /** Fails when the stream is at its end, without reading; otherwise reads one line and strips it. */
    method ReadLine() returns (r: ReadResult)
      modifies reader
      ensures old(reader.AtEof()) ==> r == Closed && unchanged(reader)
      ensures !old(reader.AtEof()) && old(reader.buffer) != [] ==>
        r == Line(Strip(old(reader.buffer)[0])) && reader.buffer == old(reader.buffer)[1..] && reader.eof == old(reader.eof)
      ensures !old(reader.AtEof()) && old(reader.buffer) == [] ==>
        r == Line([]) && reader.AtEof()
    {
      if reader.AtEof() {
        return Closed;
      }
      var raw := reader.ReadLine();
      r := Line(Strip(raw));
    }
  }

  /** A received line whose text is clean comes back from readline as that text, without its ending. */
  lemma ReceivedLineIsStripped(body: string, ending: string)
    requires IsCleanLine(body) && (IsLineEnding(ending) || ending == [])
    ensures Strip(body + ending) == body
  {
    LineEndingIsBlank(ending);
    StripRemovesEnding(body, ending);
  }

  // ------------------------------------------------------------ scenarios

  /** writeline of one clean line on a fresh writer: exactly one write of the line and "\n", then one drain. */
  method WriteOneLine(a: string) returns (calls: seq<WriterCall>)
    requires IsCleanLine(a) && a != []
    ensures calls == [WriteCall(a + "\n"), DrainCall]
  {
    var writer := new StreamWriter();
    var connection := new AsyncioWritableConnection(writer);
    connection.WriteLine(a);
    FrameOfCleanLine(a);
    calls := writer.calls;
  }

  /**
   * A stream holding one line and its ending, then its end: the first readline
   * gives the line stripped, the second fails with ConnectionClosedError.
   */
  method ReadOneLineThenClosed(a: string, ending: string) returns (first: ReadResult, second: ReadResult)
    requires IsCleanLine(a) && IsLineEnding(ending)
    ensures first == Line(a) && second == Closed
  {
    var reader := new StreamReader([a + ending], true);
    var connection := new AsyncioReadableConnection(reader);
    first := connection.ReadLine();
    ReceivedLineIsStripped(a, ending);
    second := connection.ReadLine();
  }
}
