/** Lines read from a stream that arrives in pieces: a bounded first request, then bounded lines. What is
    read depends on the bytes sent, never on how they were cut. */
module Framing {
  import opened Common

  const MAX_REQUEST: nat := 1024
  const MAX_LINE: nat := 4096
  const NEWLINE: Byte := 10

  // ---- the lines of a stream ---------------------------------------------------------------------

  /** Where the first newline is; the length when there is none. */
  function LineLength(s: seq<Byte>): (n: nat)
    ensures n <= |s| && NEWLINE !in s[..n] && (n < |s| ==> s[n] == NEWLINE)
  {
    if s == [] || s[0] == NEWLINE then 0
    else
      var n := LineLength(s[1..]);
      assert s[..1 + n] == [s[0]] + s[1..][..n];
      1 + n
  }

  predicate HasLine(s: seq<Byte>) {
    LineLength(s) < |s|
  }

  /** The complete lines of a stream, and what follows the last of them. */
  function Lines(s: seq<Byte>): seq<seq<Byte>> {
    if !HasLine(s) then [] else [s[..LineLength(s)]] + Lines(s[LineLength(s) + 1..])
  }

  function Tail(s: seq<Byte>): seq<Byte> {
    if !HasLine(s) then s else Tail(s[LineLength(s) + 1..])
  }

  function Unlines(lines: seq<seq<Byte>>): seq<Byte> {
    if lines == [] then [] else lines[0] + [NEWLINE] + Unlines(lines[1..])
  }

  predicate AllPlain(lines: seq<seq<Byte>>) {
    lines == [] || (NEWLINE !in lines[0] && AllPlain(lines[1..]))
  }

  lemma {:induction false} LineLengthOf(line: seq<Byte>, rest: seq<Byte>)
    requires NEWLINE !in line
    ensures LineLength(line + ([NEWLINE] + rest)) == |line|
  {
    var s := line + ([NEWLINE] + rest);
    if line != [] {
      assert s[1..] == line[1..] + ([NEWLINE] + rest);
      LineLengthOf(line[1..], rest);
    }
  }

  lemma {:induction false} NoLineLength(s: seq<Byte>)
    requires NEWLINE !in s
    ensures LineLength(s) == |s|
  {
    if s != [] {
      NoLineLength(s[1..]);
    }
  }

  lemma LineAndRest(s: seq<Byte>)
    requires HasLine(s)
    ensures s == s[..LineLength(s)] + ([NEWLINE] + s[LineLength(s) + 1..])
  {
  }

  lemma UnlinesCons(line: seq<Byte>, lines: seq<seq<Byte>>, tail: seq<Byte>)
    ensures Unlines([line] + lines) + tail == line + ([NEWLINE] + (Unlines(lines) + tail))
  {
    assert ([line] + lines)[1..] == lines;
  }

  lemma {:induction false} LinesOf(s: seq<Byte>)
    ensures s == Unlines(Lines(s)) + Tail(s) && NEWLINE !in Tail(s) && AllPlain(Lines(s))
  {
    var n := LineLength(s);
    if HasLine(s) {
      LinesOf(s[n + 1..]);
      LineAndRest(s);
      UnlinesCons(s[..n], Lines(s[n + 1..]), Tail(s[n + 1..]));
      assert Lines(s)[1..] == Lines(s[n + 1..]);
    } else {
      assert s[..n] == s;
    }
  }

  /** The only way to cut a stream into lines and a tail without a newline. */
  lemma {:induction false} LinesUnique(lines: seq<seq<Byte>>, tail: seq<Byte>)
    requires AllPlain(lines) && NEWLINE !in tail
    ensures Lines(Unlines(lines) + tail) == lines && Tail(Unlines(lines) + tail) == tail
  {
    if lines == [] {
      assert Unlines(lines) + tail == tail;
      NoLineLength(tail);
    } else {
      var rest := Unlines(lines[1..]) + tail;
      assert [lines[0]] + lines[1..] == lines;
      UnlinesCons(lines[0], lines[1..], tail);
      LineLengthOf(lines[0], rest);
      LinesUnique(lines[1..], tail);
      SkipLine(lines[0], rest);
    }
  }

  // ---- one bounded line --------------------------------------------------------------------------

  datatype Outcome = Line(line: seq<Byte>) | TooLarge | NoLine

  /** What a reader bounded by `max` gives for everything still to come. */
  function FirstLine(s: seq<Byte>, max: nat): Outcome {
    if LineLength(s) > max then TooLarge
    else if HasLine(s) then Line(s[..LineLength(s)])
    else NoLine
  }

  /** What is left after a line was read. */
  function AfterLine(s: seq<Byte>): seq<Byte>
    requires HasLine(s)
  {
    s[LineLength(s) + 1..]
  }

  lemma SkipLine(line: seq<Byte>, rest: seq<Byte>)
    ensures (line + ([NEWLINE] + rest))[..|line|] == line && (line + ([NEWLINE] + rest))[|line| + 1..] == rest
  {
  }

  lemma Longer(line: seq<Byte>, rest: seq<Byte>, more: seq<Byte>)
    ensures line + ([NEWLINE] + rest) + more == line + ([NEWLINE] + (rest + more))
  {
  }

  /** A newline that has arrived is the first one. */
  lemma LineArrived(buf: seq<Byte>, more: seq<Byte>)
    requires HasLine(buf)
    ensures LineLength(buf + more) == LineLength(buf) && HasLine(buf + more)
    ensures (buf + more)[..LineLength(buf)] == buf[..LineLength(buf)] && AfterLine(buf + more) == AfterLine(buf) + more
  {
    var line, rest := buf[..LineLength(buf)], AfterLine(buf);
    LineAndRest(buf);
    Longer(line, rest, more);
    LineLengthOf(line, rest + more);
    SkipLine(line, rest + more);
  }

  /** Without one, the line goes on. */
  lemma {:induction false} LineGoesOn(buf: seq<Byte>, more: seq<Byte>)
    requires NEWLINE !in buf
    ensures LineLength(buf + more) == |buf| + LineLength(more)
  {
    if buf == [] {
      assert buf + more == more;
    } else {
      assert (buf + more)[1..] == buf[1..] + more;
      LineGoesOn(buf[1..], more);
    }
  }

  // ---- the stream --------------------------------------------------------------------------------

  /** What a peer sends. A read takes some of it, at most the size of the buffer, and nothing only at the
      end. */
  class Stream {
    var unread: seq<Byte>

    constructor (sent: seq<Byte>)
      ensures unread == sent
    {
      unread := sent;
    }

    method Read(size: nat) returns (chunk: seq<Byte>)
      requires size > 0
      modifies this
      ensures |chunk| <= size && old(unread) == chunk + unread
      ensures chunk == [] <==> old(unread) == []
    {
      if unread == [] {
        return [];
      }
      var n: nat :| 0 < n <= |unread| && n <= size;
      chunk := unread[..n];
      unread := unread[n..];
    }
  }

  /** How reading a request ended. */
  datatype Request = Got(line: seq<Byte>, rest: seq<Byte>) | Silent | Malformed | RequestTooLarge

  /** What the bytes of a stream make of it. */
  function RequestOf(s: seq<Byte>): Request {
    match FirstLine(s, MAX_REQUEST)
    case Line(line) => Got(line, AfterLine(s))
    case TooLarge => RequestTooLarge
    case NoLine => if s == [] then Silent else Malformed
  }

  /** The newline has arrived in `data`, and `more` has not been read. */
  lemma RequestArrived(data: seq<Byte>, more: seq<Byte>)
    requires HasLine(data)
    ensures var n := LineLength(data);
            RequestOf(data + more) == if n > MAX_REQUEST then RequestTooLarge else Got(data[..n], data[n + 1..] + more)
  {
    LineArrived(data, more);
  }

  lemma RequestOver(data: seq<Byte>, more: seq<Byte>)
    requires NEWLINE !in data && |data| > MAX_REQUEST
    ensures RequestOf(data + more) == RequestTooLarge
  {
    LineGoesOn(data, more);
  }

  lemma RequestUnfinished(data: seq<Byte>)
    requires NEWLINE !in data && |data| <= MAX_REQUEST
    ensures RequestOf(data) == if data == [] then Silent else Malformed
  {
    NoLineLength(data);
  }

  /** The first line of a connection, and what came after it in the same reads. */
  method ReadRequest(stream: Stream) returns (r: Request)
    modifies stream
    ensures r.Got? ==> RequestOf(old(stream.unread)) == Got(r.line, r.rest + stream.unread)
    ensures !r.Got? ==> RequestOf(old(stream.unread)) == r
  {
    var data: seq<Byte> := [];
    ghost var all := stream.unread;
    while true
      invariant all == data + stream.unread && NEWLINE !in data && |data| <= MAX_REQUEST
      decreases |stream.unread|
    {
      var chunk := stream.Read(256);
      if chunk == [] {
        RequestUnfinished(data);
        assert all == data;
        return if data == [] then Silent else Malformed;
      }
      data := data + chunk;
      assert all == data + stream.unread;
      var n := LineLength(data);
      if n < |data| {
        RequestArrived(data, stream.unread);
        return if n > MAX_REQUEST then RequestTooLarge else Got(data[..n], data[n + 1..]);
      }
      assert data[..n] == data;
      if |data| > MAX_REQUEST {
        RequestOver(data, stream.unread);
        return RequestTooLarge;
      }
    }
  }

  datatype LineEnd = GotLine(line: seq<Byte>) | Gone | LineTooLarge

  function LineOf(s: seq<Byte>): LineEnd {
    match FirstLine(s, MAX_LINE)
    case Line(line) => GotLine(line)
    case TooLarge => LineTooLarge
    case NoLine => Gone
  }

  /** The reader of a connection's later lines: it keeps what follows a line for the next. */
  class LineReader {
    var buf: seq<Byte>

    constructor (rest: seq<Byte>)
      ensures buf == rest
    {
      buf := rest;
    }

    method Read(stream: Stream) returns (r: LineEnd)
      modifies this, stream
      ensures r == LineOf(old(buf) + old(stream.unread))
      ensures r.GotLine? ==> buf + stream.unread == AfterLine(old(buf) + old(stream.unread))
      ensures !r.GotLine? ==> buf + stream.unread == old(buf) + old(stream.unread)
    {
      ghost var all := buf + stream.unread;
      while true
        invariant all == buf + stream.unread
        decreases |stream.unread|
      {
        var n := LineLength(buf);
        if n < |buf| {
          LineArrived(buf, stream.unread);
          if n > MAX_LINE {
            return LineTooLarge;
          }
          r := GotLine(buf[..n]);
          buf := buf[n + 1..];
          return;
        }
        assert buf[..n] == buf;
        LineGoesOn(buf, stream.unread);
        if |buf| > MAX_LINE {
          return LineTooLarge;
        }
        var chunk := stream.Read(1024);
        if chunk == [] {
          assert all == buf;
          return Gone;
        }
        buf := buf + chunk;
        assert all == buf + stream.unread;
      }
    }
  }

  // ---- a whole connection ------------------------------------------------------------------------

  /** The lines read until one is refused or the stream ends, how it ends, and what is not read. */
  function Framed(s: seq<Byte>): seq<seq<Byte>> {
    match LineOf(s)
    case GotLine(line) => [line] + Framed(AfterLine(s))
    case _ => []
  }

  function Unframed(s: seq<Byte>): seq<Byte> {
    if LineOf(s).GotLine? then Unframed(AfterLine(s)) else s
  }

  method ReadLines(reader: LineReader, stream: Stream) returns (lines: seq<seq<Byte>>, end: LineEnd)
    modifies reader, stream
    ensures lines == Framed(old(reader.buf) + old(stream.unread))
    ensures reader.buf + stream.unread == Unframed(old(reader.buf) + old(stream.unread))
    ensures end == LineOf(reader.buf + stream.unread) && !end.GotLine?
  {
    lines := [];
    ghost var all := reader.buf + stream.unread;
    while true
      invariant Framed(all) == lines + Framed(reader.buf + stream.unread)
      invariant Unframed(all) == Unframed(reader.buf + stream.unread)
      decreases |reader.buf| + |stream.unread|
    {
      ghost var before := reader.buf + stream.unread;
      end := reader.Read(stream);
      if !end.GotLine? {
        return;
      }
      assert |reader.buf + stream.unread| < |before|;
      assert lines + ([end.line] + Framed(reader.buf + stream.unread))
          == lines + [end.line] + Framed(reader.buf + stream.unread);
      lines := lines + [end.line];
    }
  }

  /** The request and the lines of a connection, whatever the cuts: a function of the bytes sent. */
  method ReadConnection(stream: Stream) returns (request: Request, lines: seq<seq<Byte>>, end: LineEnd)
    modifies stream
    ensures !request.Got? ==> request == RequestOf(old(stream.unread))
    ensures request.Got? ==> RequestOf(old(stream.unread)).Got? && request.line == RequestOf(old(stream.unread)).line
    ensures request.Got? ==> lines == Framed(RequestOf(old(stream.unread)).rest)
    ensures request.Got? ==> end == LineOf(Unframed(RequestOf(old(stream.unread)).rest))
  {
    lines, end := [], Gone;
    request := ReadRequest(stream);
    if request.Got? {
      var reader := new LineReader(request.rest);
      lines, end := ReadLines(reader, stream);
    }
  }

  /** Within the bound of a line. */
  predicate Fits(line: seq<Byte>) {
    |line| <= MAX_LINE
  }

  lemma {:induction false} FramedIsPrefix(s: seq<Byte>)
    ensures Framed(s) <= Lines(s) && s == Unlines(Framed(s)) + Unframed(s)
  {
    if LineOf(s).GotLine? {
      FramedIsPrefix(AfterLine(s));
      LineAndRest(s);
      UnlinesCons(s[..LineLength(s)], Framed(AfterLine(s)), Unframed(AfterLine(s)));
    } else {
      assert Unlines([]) + s == s;
    }
  }

  lemma {:induction false} FramedFits(s: seq<Byte>)
    ensures forall i :: 0 <= i < |Framed(s)| ==> Fits(Framed(s)[i])
  {
    if LineOf(s).GotLine? {
      FramedFits(AfterLine(s));
      assert Framed(s)[1..] == Framed(AfterLine(s));
    }
  }

  /** Reading stops at the first line over its bound, at a tail over it, or at the end. */
  lemma {:induction false} FramedStops(s: seq<Byte>)
    ensures |Framed(s)| < |Lines(s)| ==> !Fits(Lines(s)[|Framed(s)|]) && LineOf(Unframed(s)) == LineTooLarge
    ensures |Framed(s)| == |Lines(s)| ==> LineOf(Unframed(s)) == if Fits(Tail(s)) then Gone else LineTooLarge
  {
    if LineOf(s).GotLine? {
      FramedStops(AfterLine(s));
    } else {
      assert !HasLine(s) ==> LineLength(s) == |s|;
    }
  }

  lemma FramedLines(s: seq<Byte>)
    ensures Framed(s) <= Lines(s) && s == Unlines(Framed(s)) + Unframed(s)
    ensures forall i :: 0 <= i < |Framed(s)| ==> Fits(Framed(s)[i])
    ensures |Framed(s)| < |Lines(s)| ==> !Fits(Lines(s)[|Framed(s)|]) && LineOf(Unframed(s)) == LineTooLarge
    ensures |Framed(s)| == |Lines(s)| ==> LineOf(Unframed(s)) == if Fits(Tail(s)) then Gone else LineTooLarge
  {
    FramedIsPrefix(s);
    FramedFits(s);
    FramedStops(s);
  }

  /** The request is the stream's first line and is refused exactly when that line is over its bound. The
      lines that follow are the stream's own, in order and each once, up to the first over its bound; every
      byte is in them or still unread. */
  lemma ConnectionReadsTheLines(s: seq<Byte>)
    ensures RequestOf(s).RequestTooLarge? <==> LineLength(s) > MAX_REQUEST
    ensures RequestOf(s).Got? <==> Lines(s) != [] && |Lines(s)[0]| <= MAX_REQUEST
    ensures RequestOf(s).Got? ==>
              var (first, rest) := (RequestOf(s).line, RequestOf(s).rest);
              && [first] + Framed(rest) <= Lines(s) && Tail(rest) == Tail(s)
              && s == Unlines([first] + Framed(rest)) + Unframed(rest)
  {
    if RequestOf(s).Got? {
      var rest := AfterLine(s);
      FramedLines(rest);
      LineAndRest(s);
      UnlinesCons(s[..LineLength(s)], Framed(rest), Unframed(rest));
    }
  }
}
