/** What stands on get_line in myhttp/http/httpd.c: a header in whole lines, and clear_header. */
module HttpHeader {
  import opened CStrings
  import opened HttpLines

  const BUFFER: nat := 1024
  const ROOM: nat := 1023

  // --- The header as the sender sees it: whole lines, however long ---

  datatype Split = Split(content: string, ended: bool, rest: string)

  // The first line of a stream without its terminator, and what follows it.
  function SplitLine(s: string): (p: Split)
    ensures p.ended ==> |p.rest| + |p.content| < |s|
    ensures !p.ended ==> p.content == s && p.rest == ""
  {
    if s == "" then Split("", false, "")
    else if s[0] == '\r' || s[0] == '\n' then Split("", true, AfterTerminator(s))
    else
      var p := SplitLine(s[1..]);
      Split([s[0]] + p.content, p.ended, p.rest)
  }

  // The bytes after the first empty line; none if there is no empty line.
  function Body(s: string): string
    decreases |s|
  {
    var p := SplitLine(s);
    if !p.ended then "" else if p.content == "" then p.rest else Body(p.rest)
  }

  // The lines before the first empty one.
  function HeaderLines(s: string): seq<string>
    decreases |s|
  {
    var p := SplitLine(s);
    if p.content == "" then [] else if !p.ended then [p.content] else [p.content] + HeaderLines(p.rest)
  }

  // One call of get_line on a line that does not fit.
  lemma {:induction false} LineTooLong(s: string, room: nat)
    requires |SplitLine(s).content| >= room
    ensures room <= |s| && Line(s, room) == Cut(s[..room], s[room..])
  {
    if room > 0 {
      LineTooLong(s[1..], room - 1);
    }
  }

  // The line that is left then.
  lemma {:induction false} SplitRest(s: string, n: nat)
    requires |SplitLine(s).content| >= n
    ensures var p := SplitLine(s);
            n <= |s| && SplitLine(s[n..]) == Split(p.content[n..], p.ended, p.rest)
  {
    if n > 0 {
      SplitRest(s[1..], n - 1);
      assert s[1..][n - 1..] == s[n..];
    }
  }

  lemma {:induction false} ContentIsPrefix(s: string)
    ensures SplitLine(s).content <= s
  {
    if s != "" && s[0] != '\r' && s[0] != '\n' {
      ContentIsPrefix(s[1..]);
    }
  }

  // One call of get_line on a line that fits.
  lemma {:induction false} LineThatFits(s: string, room: nat)
    requires |SplitLine(s).content| < room
    ensures var p := SplitLine(s); Line(s, room) == Cut(p.content + (if p.ended then "\n" else ""), p.rest)
  {
    if s != "" && s[0] != '\r' && s[0] != '\n' {
      LineThatFits(s[1..], room - 1);
    }
  }

  predicate PlainLine(line: string) {
    '\r' !in line && '\n' !in line
  }

  lemma {:induction false} PlainContent(s: string)
    ensures PlainLine(SplitLine(s).content)
  {
    if s != "" && s[0] != '\r' && s[0] != '\n' {
      PlainContent(s[1..]);
    }
  }

  // --- Header and body by bytes ---

  // Each line with an LF behind it.
  function TextOf(lines: seq<string>): string {
    if lines == [] then "" else lines[0] + "\n" + TextOf(lines[1..])
  }

  lemma {:induction false} SplitCutsCleanly(s: string)
    ensures CutsCleanly(s, SplitLine(s).rest)
  {
    if s != "" && s[0] != '\r' && s[0] != '\n' {
      SplitCutsCleanly(s[1..]);
    }
  }

  lemma {:induction false} SplitNormalized(s: string)
    ensures var p := SplitLine(s);
            Normalize(s) == p.content + ((if p.ended then "\n" else "") + Normalize(p.rest))
  {
    if s != "" && s[0] != '\r' && s[0] != '\n' {
      SplitNormalized(s[1..]);
      assert Normalize(s)[1..] == Normalize(s[1..]);
    }
  }

  lemma CutsAgain(s: string, t: string, u: string)
    requires CutsCleanly(s, t) && CutsCleanly(t, u)
    ensures CutsCleanly(s, u)
  {
    assert s[|s| - |t|..][|t| - |u|..] == s[|s| - |u|..];
    if 0 < |u| < |t| {
      assert t[|t| - |u| - 1] == s[|s| - |u| - 1];
    }
  }

  // What a text with LF line ends is made of: its header lines, an empty line, and the text of
  // its body; or, if no line is empty, its lines alone, the last with or without its end.
  predicate MadeOf(text: string, lines: seq<string>, body: string) {
    || text == TextOf(lines) + "\n" + body
    || (body == "" && (text == TextOf(lines) || text + "\n" == TextOf(lines)))
  }

  predicate AllLines(lines: seq<string>) {
    forall i | 0 <= i < |lines| :: lines[i] != "" && PlainLine(lines[i])
  }

  lemma LongerHeader(line: string, text: string, lines: seq<string>, body: string)
    requires MadeOf(text, lines, body)
    ensures MadeOf(line + ("\n" + text), [line] + lines, body)
  {
    var head := line + "\n";
    assert ([line] + lines)[1..] == lines;
    assert line + ("\n" + text) == head + text;
    if text == TextOf(lines) + "\n" + body {
      assert head + text == head + TextOf(lines) + "\n" + body;
    } else if text != TextOf(lines) {
      assert head + text + "\n" == head + (text + "\n");
    }
  }

  lemma {:induction false} HeaderLinesArePlain(s: string)
    ensures AllLines(HeaderLines(s))
    decreases |s|
  {
    var p := SplitLine(s);
    PlainContent(s);
    if p.ended && p.content != "" {
      HeaderLinesArePlain(p.rest);
    }
  }

  lemma {:induction false} BodyCutsCleanly(s: string)
    ensures CutsCleanly(s, Body(s))
    decreases |s|
  {
    var p := SplitLine(s);
    SplitCutsCleanly(s);
    if p.ended && p.content != "" {
      BodyCutsCleanly(p.rest);
      CutsAgain(s, p.rest, Body(p.rest));
    }
  }

  lemma {:induction false} MadeOfHeaderAndBody(s: string)
    ensures MadeOf(Normalize(s), HeaderLines(s), Normalize(Body(s)))
    decreases |s|
  {
    var p := SplitLine(s);
    SplitNormalized(s);
    if p.ended && p.content != "" {
      MadeOfHeaderAndBody(p.rest);
      LongerHeader(p.content, Normalize(p.rest), HeaderLines(p.rest), Normalize(Body(p.rest)));
    } else if !p.ended && p.content != "" {
      assert [p.content][1..] == [];
      assert TextOf([p.content]) == p.content + "\n" + "";
    }
  }

  lemma SameFirstLine(a: string, x: string, b: string, y: string)
    requires PlainLine(a) && PlainLine(b) && a + "\n" + x == b + "\n" + y
    ensures a == b && x == y
  {
    var s := a + "\n" + x;
    assert s[|a|] == '\n' && s[|b|] == '\n';
    assert forall k | 0 <= k < |a| :: s[k] == a[k];
    assert forall k | 0 <= k < |b| :: s[k] == b[k];
    assert a == s[..|a|] && b == s[..|b|];
    assert x == s[|a| + 1..] && y == s[|b| + 1..];
  }

  // A text is read as lines up to the first empty one in one way only.
  lemma {:induction false} SameLines(a: seq<string>, x: string, b: seq<string>, y: string)
    requires AllLines(a) && AllLines(b) && TextOf(a) + ("\n" + x) == TextOf(b) + ("\n" + y)
    ensures a == b && x == y
  {
    var s := TextOf(a) + ("\n" + x);
    assert a != [] ==> s[0] == a[0][0];
    assert b != [] ==> s[0] == b[0][0];
    assert a == [] || b == [] ==> s[0] == '\n';
    if a == [] || b == [] {
      assert x == s[1..] && y == s[1..];
    } else {
      var x', y' := TextOf(a[1..]) + ("\n" + x), TextOf(b[1..]) + ("\n" + y);
      assert s == a[0] + "\n" + x' == b[0] + "\n" + y';
      SameFirstLine(a[0], x', b[0], y');
      SameLines(a[1..], x, b[1..], y);
      assert a == [a[0]] + a[1..] && b == [b[0]] + b[1..];
    }
  }

  // What follows the header's text and one LF when the text gets two more LFs at its end.
  function Padded(text: string, lines: seq<string>, body: string): string {
    if text == TextOf(lines) + "\n" + body then body + "\n\n" else if text == TextOf(lines) then "\n" else ""
  }

  lemma PaddedText(text: string, lines: seq<string>, body: string)
    requires MadeOf(text, lines, body)
    ensures text + "\n\n" == TextOf(lines) + ("\n" + Padded(text, lines, body))
  {
    if text != TextOf(lines) + "\n" + body && text != TextOf(lines) {
      assert text + "\n\n" == (text + "\n") + "\n";
    }
  }

  lemma MadeOneWay(text: string, lines: seq<string>, body: string, lines': seq<string>, body': string)
    requires MadeOf(text, lines, body) && MadeOf(text, lines', body') && AllLines(lines) && AllLines(lines')
    ensures lines == lines' && |body| == |body'|
  {
    PaddedText(text, lines, body);
    PaddedText(text, lines', body');
    SameLines(lines, Padded(text, lines, body), lines', Padded(text, lines', body'));
  }

  /** Header and body against the bytes: in the stream with every CR, LF and CRLF made one LF, the
      header lines stand first, each with its LF, then the empty line, then the body; and this is
      the only way to read the stream like that, if the body may not start inside a CRLF. */
  lemma HeaderAndBodyIff(s: string, lines: seq<string>, body: string)
    requires AllLines(lines) && CutsCleanly(s, body)
    ensures MadeOf(OneLf(s, false), lines, OneLf(body, false)) <==> lines == HeaderLines(s) && body == Body(s)
  {
    MadeOfHeaderAndBody(s);
    HeaderLinesArePlain(s);
    BodyCutsCleanly(s);
    NormalizeByBytes(s);
    NormalizeByBytes(body);
    NormalizeByBytes(Body(s));
    if MadeOf(OneLf(s, false), lines, OneLf(body, false)) {
      MadeOneWay(Normalize(s), lines, Normalize(body), HeaderLines(s), Normalize(Body(s)));
      CutIsUnique(s, |s| - |body|, Body(s));
    }
  }

  // --- Lines as a client prints them ---

  lemma {:induction false} SplitOfRender(line: string, tail: string)
    requires PlainLine(line)
    ensures SplitLine(line + "\r\n" + tail) == Split(line, true, tail)
  {
    var s := line + "\r\n" + tail;
    if line != "" {
      assert s[1..] == line[1..] + "\r\n" + tail;
      SplitOfRender(line[1..], tail);
    }
  }

  // --- clear_header ---

  // What clear_header leaves in the socket.
  function Drain(s: string): string
    decreases |s|
  {
    var cut := Line(s, ROOM);
    LineShape(s, ROOM);
    if cut.line == "" || cut.line == "\n" then cut.rest else Drain(cut.rest)
  }

  // strcmp("\n", buf) == 0
  predicate IsEmptyLine(memory: string) {
    CStr(memory) == "\n"
  }

  lemma EmptyLineInBuffer(line: string, memory: string)
    requires |line| < |memory| && memory[..|line|] == line && memory[|line|] == '\0'
    requires forall i | 0 <= i < |line| - 1 :: line[i] != '\n'
    ensures IsEmptyLine(memory) <==> line == "\n"
  {
    if line == "\n" {
      assert memory == line + "\0" + memory[2..];
      CStrStops(line, memory[2..]);
    } else if line != "" {
      assert memory[0] == memory[..|line|][0] == line[0];
      assert |line| == 1 ==> line == [line[0]];
      assert CStr(memory) == "" || CStr(memory)[0] == memory[0];
    }
  }

  method ClearHeader(sock: Socket)
    modifies sock
    ensures sock.rest == Drain(old(sock.rest))
  {
    var buf := new char[BUFFER](_ => '\0');
    var ret := GetLine(sock, buf, BUFFER);
    ghost var line := buf[..ret];
    LineShape(old(sock.rest), ROOM);
    EmptyLineInBuffer(line, buf[..]);
    while ret > 0 && !IsEmptyLine(buf[..])
      invariant ret == |line| && (IsEmptyLine(buf[..]) <==> line == "\n")
      invariant Drain(old(sock.rest)) == if line == "" || line == "\n" then sock.rest else Drain(sock.rest)
      invariant line == "" ==> sock.rest == ""
      decreases |sock.rest|, |line|
    {
      LineShape(sock.rest, ROOM);
      ret := GetLine(sock, buf, BUFFER);
      line := buf[..ret];
      EmptyLineInBuffer(line, buf[..]);
    }
  }

  // No line before the first empty one has a length that is a multiple of 1023, unless its end
  // is the end of the stream.
  predicate NoFalseEmptyLine(s: string)
    decreases |s|
  {
    var p := SplitLine(s);
    if !p.ended || p.content == "" then true
    else if |p.content| % ROOM == 0 then p.rest == ""
    else NoFalseEmptyLine(p.rest)
  }

  lemma DrainLongLine(s: string)
    requires |SplitLine(s).content| >= ROOM
    ensures |s| >= ROOM && Drain(s) == Drain(s[ROOM..])
    ensures var p := SplitLine(s); SplitLine(s[ROOM..]) == Split(p.content[ROOM..], p.ended, p.rest)
  {
    LineTooLong(s, ROOM);
    SplitRest(s, ROOM);
    assert |Line(s, ROOM).line| == ROOM;
  }

  lemma DrainShortLine(s: string)
    requires |SplitLine(s).content| < ROOM
    ensures var p := SplitLine(s);
            Drain(s) == if !p.ended then "" else if p.content == "" then p.rest else Drain(p.rest)
  {
    var p := SplitLine(s);
    LineThatFits(s, ROOM);
    if !p.ended {
      assert Line("", ROOM) == Cut("", "");
      assert Drain("") == "";
      assert Line(s, ROOM) == Cut(p.content, "");
      PlainContent(s);
    } else {
      assert Line(s, ROOM) == Cut(p.content + "\n", p.rest);
    }
  }

  function DrainedTo(p: Split, drained: string): string {
    if !p.ended then "" else if |p.content| % ROOM == 0 then p.rest else drained
  }

  // clear_header in terms of whole lines: it stops after the first line whose length is a
  // multiple of 1023, 0 included.
  lemma {:induction false} DrainByLines(s: string)
    ensures var p := SplitLine(s); Drain(s) == DrainedTo(p, Drain(p.rest))
    decreases |s|
  {
    var p := SplitLine(s);
    if |p.content| >= ROOM {
      DrainLongLine(s);
      var tail := s[ROOM..];
      DrainByLines(tail);
      DrainedToTail(p, p.content[ROOM..], Drain(p.rest));
    } else {
      DrainShortLine(s);
      assert |p.content| % ROOM == |p.content|;
    }
  }

  lemma DrainedToTail(p: Split, tail: string, drained: string)
    requires |p.content| == ROOM + |tail|
    ensures DrainedTo(p, drained) == DrainedTo(Split(tail, p.ended, p.rest), drained)
  {
  }

  lemma {:induction false} BodyIsShorter(s: string)
    ensures |Body(s)| <= |s| && (s != "" ==> |Body(s)| < |s|)
    decreases |s|
  {
    var p := SplitLine(s);
    if p.ended && p.content != "" {
      BodyIsShorter(p.rest);
    }
  }

  /** clear_header leaves exactly the bytes after the first empty line, for every mix of
      terminators, if and only if no earlier line fakes an empty one. */
  lemma {:induction false} ClearHeaderLeavesBody(s: string)
    ensures Drain(s) == Body(s) <==> NoFalseEmptyLine(s)
    decreases |s|
  {
    var p := SplitLine(s);
    DrainByLines(s);
    if p.ended && p.content != "" {
      if |p.content| % ROOM == 0 {
        BodyIsShorter(p.rest);
      } else {
        ClearHeaderLeavesBody(p.rest);
      }
    }
  }

  /** The condition is not void: a header line of exactly 1023 bytes ends the drain early, and
      the rest of the header is left in the socket. */
  lemma FalseEmptyLine(header: string, body: string)
    requires PlainLine(header) && header != ""
    ensures var filler := seq(ROOM, _ => 'x');
            var left := header + "\r\n" + ("" + "\r\n" + body);
            Drain(filler + "\r\n" + left) == left && Body(filler + "\r\n" + left) == body && left != body
  {
    var filler := seq(ROOM, _ => 'x');
    var left := header + "\r\n" + ("" + "\r\n" + body);
    SplitOfRender(filler, left);
    DrainByLines(filler + "\r\n" + left);
    SplitOfRender(header, "" + "\r\n" + body);
    SplitOfRender("", body);
    assert |left| > |body|;
    assert Body(left) == Body("" + "\r\n" + body) == body;
    assert |filler| % ROOM == 0;
  }
}
