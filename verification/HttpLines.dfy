/**
 get_line of myhttp/http/httpd.c and Tinyhttp: lines cut from a byte stream one byte at a
 time, with CR, LF and CRLF all read as one LF. Bytes are chars.
 */
module HttpLines {
  import opened Wrappers

  // The read side of a connection: what the peer still sends before it closes.
  class Socket {
    var rest: string

    constructor (stream: string)
      ensures rest == stream
    {
      rest := stream;
    }

    // recv of one byte; None is a result of 0 or less.
    method Recv() returns (c: Option<char>)
      modifies this
      ensures c == (if old(rest) == "" then None else Some(old(rest)[0]))
      ensures rest == if old(rest) == "" then "" else old(rest)[1..]
    {
      if rest == "" {
        return None;
      }
      c, rest := Some(rest[0]), rest[1..];
    }

    // recv of one byte with MSG_PEEK.
    method Peek() returns (c: Option<char>)
      ensures c == if rest == "" then None else Some(rest[0])
    {
      c := if rest == "" then None else Some(rest[0]);
    }
  }

  datatype Cut = Cut(line: string, rest: string)

  // What is left of a stream that starts with a line terminator.
  function AfterTerminator(s: string): string
    requires s != "" && (s[0] == '\r' || s[0] == '\n')
  {
    if s[0] == '\r' && |s| > 1 && s[1] == '\n' then s[2..] else s[1..]
  }

  // One call of get_line with room for `room` bytes before the NUL.
  function Line(s: string, room: nat): Cut
    decreases |s|
  {
    if room == 0 || s == "" then Cut("", s)
    else if s[0] == '\r' || s[0] == '\n' then Cut("\n", AfterTerminator(s))
    else
      var cut := Line(s[1..], room - 1);
      Cut([s[0]] + cut.line, cut.rest)
  }

  // The two or three recv calls for one byte of a line: a CR is turned into LF, and an LF that
  // follows it is seen by peeking and taken with it.
  method RecvByte(sock: Socket) returns (n: Option<char>)
    modifies sock
    ensures n.None? <==> old(sock.rest) == ""
    ensures n.None? ==> sock.rest == ""
    ensures n.Some? ==> n.value == if old(sock.rest)[0] == '\r' then '\n' else old(sock.rest)[0]
    ensures n.Some? ==> sock.rest == if "\r\n" <= old(sock.rest) then old(sock.rest)[2..] else old(sock.rest)[1..]
  {
    n := sock.Recv();
    if n == Some('\r') {
      var c := '\r';
      var tmp := sock.Peek();
      if tmp.Some? {
        c := tmp.value;
      }
      if tmp.Some? && c == '\n' {
        var _ := sock.Recv();
      } else {
        c := '\n';
      }
      n := Some(c);
    }
  }

  method GetLine(sock: Socket, buf: array<char>, size: nat) returns (i: nat)
    requires 1 <= size <= buf.Length
    modifies sock, buf
    ensures var cut := Line(old(sock.rest), size - 1);
            i == |cut.line| < size && buf[..i] == cut.line && sock.rest == cut.rest
    ensures buf[i] == '\0'
    ensures forall k | i < k < buf.Length :: buf[k] == old(buf[k])
  {
    i := 0;
    var c := '\0';
    ghost var cut := Line(sock.rest, size - 1);
    while i < size - 1 && c != '\n'
      invariant i <= size - 1
      invariant var left := if c == '\n' then Cut("", sock.rest) else Line(sock.rest, size - 1 - i);
                cut.line == buf[..i] + left.line && cut.rest == left.rest
      invariant forall k | i <= k < buf.Length :: buf[k] == old(buf[k])
      decreases size - 1 - i, c != '\n'
    {
      var n := RecvByte(sock);
      if n.Some? {
        c := n.value;
        buf[i] := c;
        i := i + 1;
        assert buf[..i] == buf[..i - 1] + [c];
      } else {
        c := '\n';
      }
    }
    buf[i] := '\0';
  }

  // Every CR, LF and CRLF turned into one LF: Appendix B of RFC 1945.
  function Normalize(s: string): string
    decreases |s|
  {
    if s == "" then ""
    else if s[0] == '\r' || s[0] == '\n' then "\n" + Normalize(AfterTerminator(s))
    else [s[0]] + Normalize(s[1..])
  }

  // The lines of a normalised stream: up to and with the first LF, at most `room` bytes.
  function FirstPiece(s: string, room: nat): string {
    if room == 0 || s == "" then ""
    else if s[0] == '\n' then "\n"
    else [s[0]] + FirstPiece(s[1..], room - 1)
  }

  // A call takes a prefix of the stream, and stops inside no CRLF.
  ghost predicate CutsCleanly(s: string, rest: string) {
    && |rest| <= |s| && s[|s| - |rest|..] == rest
    && (0 < |rest| < |s| ==> !(s[|s| - |rest| - 1] == '\r' && rest[0] == '\n'))
  }

  /** What one call returns is decided by the normalised stream alone, and leaves the rest of it. */
  lemma {:induction false} LineOfNormalized(s: string, room: nat)
    ensures var cut := Line(s, room);
            cut.line == FirstPiece(Normalize(s), room) && Normalize(s) == cut.line + Normalize(cut.rest)
    decreases |s|
  {
    if room > 0 && s != "" && s[0] != '\r' && s[0] != '\n' {
      LineOfNormalized(s[1..], room - 1);
      assert Normalize(s)[1..] == Normalize(s[1..]);
    }
  }

  lemma {:induction false} LineCutsCleanly(s: string, room: nat)
    ensures CutsCleanly(s, Line(s, room).rest)
    decreases |s|
  {
    if room > 0 && s != "" && s[0] != '\r' && s[0] != '\n' {
      LineCutsCleanly(s[1..], room - 1);
    }
  }

  // The shape of a returned line: LF is at most its last byte, and only a full buffer or the
  // end of the stream ends it otherwise.
  lemma {:induction false} LineShape(s: string, room: nat)
    ensures var cut := Line(s, room);
            && |cut.line| <= room
            && (forall i | 0 <= i < |cut.line| - 1 :: cut.line[i] != '\n')
            && '\r' !in cut.line
            && (cut.line == "" <==> room == 0 || s == "")
            && (cut.line == "" || cut.line[|cut.line| - 1] == '\n' || |cut.line| == room || cut.rest == "")
            && (cut.line != "" ==> |cut.rest| < |s|)
    decreases |s|
  {
    if room > 0 && s != "" && s[0] != '\r' && s[0] != '\n' {
      LineShape(s[1..], room - 1);
    }
  }

  predicate AllAtLeast(sizes: seq<nat>, least: nat) {
    forall i | 0 <= i < |sizes| :: sizes[i] >= least
  }

  // What successive calls return, run together, one call for each buffer size.
  function ReadAll(s: string, sizes: seq<nat>): Cut
    requires AllAtLeast(sizes, 1)
    decreases |sizes|
  {
    if sizes == [] then Cut("", s) else
    var cut := Line(s, sizes[0] - 1);
    var later := ReadAll(cut.rest, sizes[1..]);
    Cut(cut.line + later.line, later.rest)
  }

  /** Chunking does not matter: whatever the buffer sizes, the calls together return the
      normalised stream, up to what they have not read yet. */
  lemma {:induction false} ChunkingDoesNotMatter(s: string, sizes: seq<nat>)
    requires AllAtLeast(sizes, 1)
    ensures var all := ReadAll(s, sizes); all.line + Normalize(all.rest) == Normalize(s)
    decreases |sizes|
  {
    if sizes != [] {
      var cut := Line(s, sizes[0] - 1);
      var later := ReadAll(cut.rest, sizes[1..]);
      LineOfNormalized(s, sizes[0] - 1);
      ChunkingDoesNotMatter(cut.rest, sizes[1..]);
      assert (cut.line + later.line) + Normalize(later.rest) == cut.line + (later.line + Normalize(later.rest));
      assert ReadAll(s, sizes) == Cut(cut.line + later.line, later.rest);
    }
  }

  /** With room for a byte in every buffer, enough calls reach the end of the stream. */
  lemma {:induction false} EnoughCalls(s: string, sizes: seq<nat>)
    requires AllAtLeast(sizes, 2) && |sizes| >= |s|
    ensures ReadAll(s, sizes) == Cut(Normalize(s), "")
    decreases |sizes|
  {
    ChunkingDoesNotMatter(s, sizes);
    if sizes != [] {
      var cut := Line(s, sizes[0] - 1);
      LineShape(s, sizes[0] - 1);
      EnoughCalls(cut.rest, sizes[1..]);
    }
    assert ReadAll(s, sizes).line + "" == ReadAll(s, sizes).line;
  }

  /** Normalising is done once and for all. */
  lemma {:induction false} NormalizeIdempotent(s: string)
    ensures '\r' !in Normalize(s) && Normalize(Normalize(s)) == Normalize(s)
    decreases |s|
  {
    if s != "" {
      if s[0] == '\r' || s[0] == '\n' {
        NormalizeIdempotent(AfterTerminator(s));
        assert Normalize(s)[1..] == Normalize(AfterTerminator(s));
      } else {
        NormalizeIdempotent(s[1..]);
        assert Normalize(s)[1..] == Normalize(s[1..]);
      }
    }
  }

  // --- The same by bytes: what no call of get_line defines ---

  // Byte by byte, with one bit of memory: was the last byte a CR? A CR becomes an LF at once, and
  // an LF behind it is dropped.
  function OneLf(s: string, afterCr: bool): string {
    if s == "" then ""
    else if s[0] == '\n' && afterCr then OneLf(s[1..], false)
    else [if s[0] == '\r' then '\n' else s[0]] + OneLf(s[1..], s[0] == '\r')
  }

  lemma {:induction false} NormalizeByBytes(s: string)
    ensures Normalize(s) == OneLf(s, false)
    decreases |s|
  {
    if s != "" {
      if s[0] == '\r' || s[0] == '\n' {
        NormalizeByBytes(AfterTerminator(s));
        AfterCr(s[1..]);
      } else {
        NormalizeByBytes(s[1..]);
      }
    }
  }

  // Behind a CR, an LF is dropped and nothing else.
  lemma AfterCr(s: string)
    ensures OneLf(s, true) == if s != "" && s[0] == '\n' then OneLf(s[1..], false) else OneLf(s, false)
  {
  }

  // A place of the stream that is not inside a CRLF.
  predicate CleanAt(s: string, i: nat) {
    i <= |s| && !(0 < i < |s| && s[i - 1] == '\r' && s[i] == '\n')
  }

  // Between two such places there is at least one byte of the normalised stream.
  lemma {:induction false} CleanPlacesDiffer(s: string, i: nat, j: nat)
    requires i < j && CleanAt(s, i) && CleanAt(s, j)
    ensures |OneLf(s[j..], false)| < |OneLf(s[i..], false)|
    decreases j - i
  {
    var next := if s[i] == '\r' && i + 1 < |s| && s[i + 1] == '\n' then i + 2 else i + 1;
    assert s[i..][1..] == s[i + 1..];
    AfterCr(s[i + 1..]);
    if next == i + 2 {
      assert s[i + 1..][1..] == s[i + 2..];
    }
    assert |OneLf(s[next..], false)| < |OneLf(s[i..], false)|;
    if next < j {
      CleanPlacesDiffer(s, next, j);
    }
  }

  /** Where a stream may be cut behind its first n normalised bytes: at one place only. */
  lemma CutIsUnique(s: string, i: nat, rest: string)
    requires CleanAt(s, i) && CutsCleanly(s, rest) && |OneLf(s[i..], false)| == |OneLf(rest, false)|
    ensures s[i..] == rest
  {
    var j := |s| - |rest|;
    assert CleanAt(s, j);
    if i < j {
      CleanPlacesDiffer(s, i, j);
    } else if j < i {
      CleanPlacesDiffer(s, j, i);
    }
  }

  /** One call against the bytes: it returns the first piece of the stream with every CR, LF and
      CRLF made one LF, and it leaves the stream at the one place outside a CRLF with that many
      normalised bytes before it. */
  lemma LineByBytes(s: string, room: nat, i: nat)
    requires CleanAt(s, i)
    ensures Line(s, room).line == FirstPiece(OneLf(s, false), room)
    ensures Line(s, room).rest == s[i..] <==> OneLf(s, false) == Line(s, room).line + OneLf(s[i..], false)
  {
    var cut := Line(s, room);
    LineOfNormalized(s, room);
    LineCutsCleanly(s, room);
    NormalizeByBytes(s);
    NormalizeByBytes(cut.rest);
    if OneLf(s, false) == cut.line + OneLf(s[i..], false) {
      CutIsUnique(s, i, cut.rest);
    }
  }
}
