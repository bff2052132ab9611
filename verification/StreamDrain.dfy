/** The bounded reader of a subprocess's output. */
module StreamDrain {
  import opened Common

  type Byte = bv8

  /** A bytes literal. */
  function BytesOf(s: string): (bytes: seq<Byte>)
    ensures |bytes| == |s|
  {
    seq(|s|, i requires 0 <= i < |s| => (s[i] as int % 256) as Byte)
  }

  function Marker(): seq<Byte> {
    BytesOf("\n[truncated: stream cap reached]\n")
  }

  lemma ConcatAppend(chunks: seq<seq<Byte>>, chunk: seq<Byte>)
    ensures Concat(chunks + [chunk]) == Concat(chunks) + chunk
  {
    ConcatSplit(chunks, [chunk]);
    assert [chunk][1..] == [] && chunk + [] == chunk;
  }

  /** A line without the newline that ends it. */
  function Body(line: seq<Byte>): seq<Byte> {
    if line != [] && line[|line| - 1] == 10 then line[..|line| - 1] else line
  }

  /** A stream as `readline` sees it: the lines not yet read, none empty, and the reader's limit.
      asyncio raises ValueError for a line whose body is longer than that. */
  class LineReader {
    var lines: seq<seq<Byte>>
    const limit: nat

    ghost predicate Valid()
      reads this
    {
      [] !in lines
    }

    constructor (lines: seq<seq<Byte>>, limit: nat)
      requires [] !in lines
      ensures Valid() && this.lines == lines && this.limit == limit
    {
      this.lines, this.limit := lines, limit;
    }

    /** The next line, or nothing at the end of the stream. What is left of the stream after an
        exception is not described. */
    method ReadLine() returns (line: Option<seq<Byte>>)
      requires Valid()
      modifies this
      ensures Valid()
      ensures old(lines) == [] ==> line == Some([]) && lines == []
      ensures old(lines) != [] ==> lines == old(lines)[1..]
      ensures old(lines) != [] ==>
        line == if |Body(old(lines)[0])| > limit then None else Some(old(lines)[0])
    {
      if lines == [] {
        return Some([]);
      }
      line := if |Body(lines[0])| > limit then None else Some(lines[0]);
      lines := lines[1..];
    }
  }

  /** A line has more than `limit` bytes, its newline not counted. */
  predicate TooLong(line: seq<Byte>, limit: nat) {
    |line| > limit && !(|line| == limit + 1 && line[limit] == 10)
  }

  /** Some line is longer than the reader allows. */
  predicate SomeTooLong(lines: seq<seq<Byte>>, limit: nat) {
    exists k :: 0 <= k < |lines| && TooLong(lines[k], limit)
  }

  /** What is kept of a byte stream: all of it, or its head and one marker. */
  function Capped(stream: seq<Byte>, capBytes: int): seq<Byte> {
    if |stream| <= Room(capBytes) then stream else stream[..Room(capBytes)] + Marker()
  }

  /** A cap that is not positive keeps nothing but the marker. */
  function Room(capBytes: int): nat {
    if capBytes > 0 then capBytes else 0
  }

  /** `_drain_stream`. It raises exactly when some line is longer than the reader's limit, before or
      after the cap. Otherwise the whole stream is consumed, and the result depends on its bytes
      only, not on where its lines end. */
  method DrainStream(stream: LineReader, capBytes: int) returns (output: Option<seq<Byte>>)
    requires stream.Valid()
    modifies stream
    ensures output.None? <==> SomeTooLong(old(stream.lines), stream.limit)
    ensures output.Some? ==>
      stream.lines == [] && output.value == Capped(Concat(old(stream.lines)), capBytes)
  {
    var chunks: seq<seq<Byte>> := [];
    var used, overflow := 0, false;
    ghost var total, read := Concat(stream.lines), [];
    while true
      invariant stream.Valid()
      invariant SomeTooLong(old(stream.lines), stream.limit) <==> SomeTooLong(stream.lines, stream.limit)
      invariant total == read + Concat(stream.lines)
      invariant !overflow ==> Concat(chunks) == read && used == |read| && (used == 0 || used <= capBytes)
      invariant overflow ==> Concat(chunks) == Capped(total, capBytes)
      decreases |stream.lines|
    {
      TooLongFirst(stream.lines, stream.limit);
      var next := stream.ReadLine();
      if next.None? {
        return None;
      }
      var line := next.value;
      if line == [] {
        break;
      }
      ghost var head, rest := read, Concat(stream.lines);
      assert head + (line + rest) == head + line + rest;
      read := head + line;
      if overflow {
        continue;
      }
      var room := capBytes - used;
      if |line| > room {
        if room > 0 {
          ConcatAppend(chunks, line[..room]);
          chunks := chunks + [line[..room]];
          used := used + room;
        }
        ConcatAppend(chunks, Marker());
        chunks := chunks + [Marker()];
        CutInsideLine(head, line, rest, capBytes);
        overflow := true;
        continue;
      }
      ConcatAppend(chunks, line);
      chunks := chunks + [line];
      used := used + |line|;
    }
    return Some(Concat(chunks));
  }

  lemma TooLongFirst(lines: seq<seq<Byte>>, limit: nat)
    ensures SomeTooLong(lines, limit)
      <==> lines != [] && (TooLong(lines[0], limit) || SomeTooLong(lines[1..], limit))
  {
    if lines != [] {
      var rest := lines[1..];
      if k :| 0 <= k < |lines| && TooLong(lines[k], limit) {
        assert k > 0 ==> rest[k - 1] == lines[k];
      }
      if k :| 0 <= k < |rest| && TooLong(rest[k], limit) {
        assert lines[k + 1] == rest[k];
      }
    }
  }

  /** The line that crosses the cap is where the stream is cut. */
  lemma CutInsideLine(head: seq<Byte>, line: seq<Byte>, rest: seq<Byte>, capBytes: int)
    requires (head == [] || |head| <= capBytes) && |line| > capBytes - |head|
    requires line != []
    ensures var room := capBytes - |head|;
      Capped(head + (line + rest), capBytes)
      == (if room > 0 then head + line[..room] else head) + Marker()
  {
    var stream, room := head + (line + rest), capBytes - |head|;
    if room > 0 {
      assert stream[..capBytes] == head + line[..room];
    } else if capBytes > 0 {
      assert stream[..capBytes] == head;
    } else {
      assert stream[..0] == head == [];
    }
  }

  /** A stream comes out changed exactly when it is over the cap, unless what is cut off is the
      marker itself; and at most the cap and one marker are kept. */
  lemma CutExactlyOverCap(stream: seq<Byte>, capBytes: int)
    ensures Capped(stream, capBytes) == stream
      <==> |stream| <= Room(capBytes) || stream[Room(capBytes)..] == Marker()
    ensures |Capped(stream, capBytes)| <= Room(capBytes) + |Marker()|
  {
    var room := Room(capBytes);
    if |stream| > room {
      assert stream == stream[..room] + stream[room..];
      if Capped(stream, capBytes) == stream {
        assert stream[room..] == (stream[..room] + Marker())[room..] == Marker();
      }
    }
  }
}
