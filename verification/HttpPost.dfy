/**
 POST in echo_cgi of myhttp/http/httpd.c up to the relay: the header loop that looks for the
 length, and the pump that hands the body to the program.
 */
module HttpPost {
  import opened Wrappers
  import opened CStrings
  import opened HttpLines
  import opened HttpHeader

  const CONTENT_LENGTH: string := "Content-Length: "

  // strncmp("Content-Length: ", buf, 16) == 0
  predicate IsLengthLine(line: string) {
    CONTENT_LENGTH <= line
  }

  // `len` after a line.
  function LengthOf(line: string, len: int): int {
    if IsLengthLine(line) then Atoi(line[|CONTENT_LENGTH|..]) else len
  }

  datatype Framing = Framing(len: int, rest: string)

  // The header loop of echo_cgi: `len` after it, and what is left in the socket.
  function ReadFraming(s: string, len: int): Framing
    decreases |s|
  {
    var cut := Line(s, ROOM);
    LineShape(s, ROOM);
    var len' := LengthOf(cut.line, len);
    if |cut.line| > 1 && cut.line != "\n" then ReadFraming(cut.rest, len') else Framing(len', cut.rest)
  }

  lemma LengthLineInBuffer(line: string, memory: string)
    requires |line| < |memory| && memory[..|line|] == line && memory[|line|] == '\0' && |memory| >= 16
    ensures memory[..16] == CONTENT_LENGTH <==> IsLengthLine(line)
    ensures IsLengthLine(line) ==> Atoi(memory[16..]) == Atoi(line[16..])
  {
    if memory[..16] == CONTENT_LENGTH && |line| >= 16 {
      assert line[..16] == memory[..16];
    }
    if IsLengthLine(line) {
      assert memory[..16] == line[..16];
      assert memory[16..] == line[16..] + ['\0'] + memory[|line| + 1..];
      AtoiStops(line[16..], '\0', memory[|line| + 1..]);
    }
  }

  // One turn of the do-while loop: the new length, and whether the loop goes on.
  method ReadHeaderLine(sock: Socket, buf: array<char>, len: int) returns (len': int, more: bool)
    requires buf.Length == BUFFER
    modifies sock, buf
    ensures var cut := Line(old(sock.rest), ROOM);
            && sock.rest == cut.rest
            && len' == LengthOf(cut.line, len)
            && more == (|cut.line| > 1 && cut.line != "\n")
  {
    LineShape(sock.rest, ROOM);
    ghost var cut := Line(sock.rest, ROOM);
    var ret := GetLine(sock, buf, BUFFER);
    LengthLineInBuffer(cut.line, buf[..]);
    EmptyLineInBuffer(cut.line, buf[..]);
    len' := if buf[..16] == CONTENT_LENGTH then Atoi(buf[16..]) else len;
    more := ret > 1 && !IsEmptyLine(buf[..]);
  }

  // The do-while loop that looks for the length.
  method ReadPostHeader(sock: Socket) returns (len: int)
    modifies sock
    ensures Framing(len, sock.rest) == ReadFraming(old(sock.rest), 0)
  {
    var buf := new char[BUFFER](_ => '\0');
    len := 0;
    var more := true;
    while more
      invariant ReadFraming(old(sock.rest), 0)
                == if more then ReadFraming(sock.rest, len) else Framing(len, sock.rest)
      decreases |sock.rest|, more
    {
      LineShape(sock.rest, ROOM);
      len, more := ReadHeaderLine(sock, buf, len);
    }
  }

  // The LF that get_line leaves on a line changes neither the test nor the number.
  lemma LengthLineEnd(content: string)
    ensures IsLengthLine(content + "\n") <==> IsLengthLine(content)
    ensures IsLengthLine(content) ==> Atoi((content + "\n")[16..]) == Atoi(content[16..])
  {
    var line := content + "\n";
    if IsLengthLine(line) {
      assert CONTENT_LENGTH[15] == ' ';
      assert |content| >= 16;
      assert content[..16] == line[..16];
    }
    if IsLengthLine(content) {
      assert line[..16] == content[..16];
      assert line[16..] == content[16..] + ['\n'] + "";
      AtoiStops(content[16..], '\n', "");
    }
  }

  // --- The header as the loop reads it ---

  // The lines the loop's calls of get_line return, in order.
  function HeaderReads(s: string): seq<string>
    decreases |s|
  {
    var cut := Line(s, ROOM);
    LineShape(s, ROOM);
    [cut.line] + if |cut.line| > 1 && cut.line != "\n" then HeaderReads(cut.rest) else []
  }

  // What a sequence of lines declares: the last length in it, `len` if there is none.
  function Declared(lines: seq<string>, len: int): int {
    if lines == [] then len else Declared(lines[1..], LengthOf(lines[0], len))
  }

  /** For every stream, the loop stops where clear_header would, with the last length among its
      reads. */
  lemma {:induction false} FramingByReads(s: string, len: int)
    ensures ReadFraming(s, len) == Framing(Declared(HeaderReads(s), len), Drain(s))
    decreases |s|
  {
    var cut := Line(s, ROOM);
    LineShape(s, ROOM);
    var all := HeaderReads(s);
    assert all[0] == cut.line;
    if |cut.line| > 1 && cut.line != "\n" {
      assert all[1..] == HeaderReads(cut.rest);
      FramingByReads(cut.rest, LengthOf(cut.line, len));
    } else {
      assert all[1..] == [];
      assert Line("", ROOM) == Cut("", "");
    }
  }

  // --- The reads against the lines ---

  // The reads that one line of the header takes, without the LF of the last.
  function Pieces(content: string): seq<string> {
    if |content| < ROOM then [content] else [content[..ROOM]] + Pieces(content[ROOM..])
  }

  // What the loop makes of whole lines: their pieces, one line after the other.
  function DeclaredInPieces(lines: seq<string>, len: int): int {
    if lines == [] then len else DeclaredInPieces(lines[1..], Declared(Pieces(lines[0]), len))
  }

  // The header lines the loop reads: up to the first whose length is a multiple of 1023.
  function LinesRead(s: string): seq<string>
    decreases |s|
  {
    var p := SplitLine(s);
    if p.content == "" then []
    else if !p.ended || |p.content| % ROOM == 0 then [p.content]
    else [p.content] + LinesRead(p.rest)
  }

  // The header lines that come after those.
  function LinesMissed(s: string): seq<string>
    decreases |s|
  {
    var p := SplitLine(s);
    if p.content == "" || !p.ended then []
    else if |p.content| % ROOM == 0 then HeaderLines(p.rest)
    else LinesMissed(p.rest)
  }

  lemma {:induction false} ReadAndMissed(s: string)
    ensures HeaderLines(s) == LinesRead(s) + LinesMissed(s)
    ensures NoFalseEmptyLine(s) ==> LinesMissed(s) == []
    decreases |s|
  {
    var p := SplitLine(s);
    if p.content != "" && p.ended && |p.content| % ROOM != 0 {
      ReadAndMissed(p.rest);
    }
  }

  lemma FramingAtEnd(len: int)
    ensures ReadFraming("", len) == Framing(len, "")
  {
    assert Line("", ROOM) == Cut("", "");
  }

  // The first read of a line that does not fit.
  lemma FramingOfLongLine(s: string, len: int)
    requires |SplitLine(s).content| >= ROOM
    ensures var content := SplitLine(s).content; var len' := LengthOf(content[..ROOM], len);
            && |s| >= ROOM && ReadFraming(s, len) == ReadFraming(s[ROOM..], len')
            && Declared(Pieces(content), len) == Declared(Pieces(content[ROOM..]), len')
  {
    var content := SplitLine(s).content;
    LineTooLong(s, ROOM);
    ContentIsPrefix(s);
    assert s[..ROOM] == content[..ROOM];
    assert |Line(s, ROOM).line| == ROOM;
    assert Pieces(content)[0] == content[..ROOM];
    assert Pieces(content)[1..] == Pieces(content[ROOM..]);
  }

  // A whole line of the header, however long.
  lemma {:induction false} FramingOfLine(s: string, len: int)
    ensures var p := SplitLine(s); var len' := Declared(Pieces(p.content), len);
            ReadFraming(s, len) ==
              if !p.ended then Framing(len', "")
              else if |p.content| % ROOM == 0 then Framing(len', p.rest)
              else ReadFraming(p.rest, len')
    decreases |s|
  {
    var p := SplitLine(s);
    if |p.content| >= ROOM {
      FramingOfLongLine(s, len);
      SplitRest(s, ROOM);
      FramingOfLine(s[ROOM..], LengthOf(p.content[..ROOM], len));
      ModRoom(p.content);
    } else {
      FramingOfShortLine(s, len);
      assert Pieces(p.content) == [p.content] && [p.content][1..] == [];
      assert |p.content| % ROOM == |p.content|;
    }
  }

  lemma ModRoom(content: string)
    requires |content| >= ROOM
    ensures |content[ROOM..]| % ROOM == |content| % ROOM
  {
  }

  lemma FramingOfShortLine(s: string, len: int)
    requires |SplitLine(s).content| < ROOM
    ensures var p := SplitLine(s); var len' := LengthOf(p.content, len);
            ReadFraming(s, len) ==
              if !p.ended then Framing(len', "")
              else if p.content == "" then Framing(len', p.rest)
              else ReadFraming(p.rest, len')
  {
    var p := SplitLine(s);
    LineThatFits(s, ROOM);
    LengthLineEnd(p.content);
    if !p.ended {
      assert Line(s, ROOM) == Cut(p.content, "");
      PlainContent(s);
      FramingAtEnd(LengthOf(p.content, len));
    }
  }

  /** The length the loop finds, in whole lines. */
  lemma {:induction false} FramingByLines(s: string, len: int)
    ensures ReadFraming(s, len).len == DeclaredInPieces(LinesRead(s), len)
    decreases |s|
  {
    var p := SplitLine(s);
    FramingOfLine(s, len);
    if p.content != "" {
      var lines := LinesRead(s);
      assert lines[0] == p.content;
      if p.ended && |p.content| % ROOM != 0 {
        assert lines[1..] == LinesRead(p.rest);
        FramingByLines(p.rest, Declared(Pieces(p.content), len));
      } else {
        assert lines[1..] == [];
      }
    } else {
      assert Pieces("") == [""];
    }
  }

  // --- When the loop finds the declared length and the body ---

  // The last length in a sequence of lines.
  function LastLength(lines: seq<string>): Option<int> {
    if lines == [] then None
    else
      match LastLength(lines[1..])
      case Some(v) => Some(v)
      case None => if IsLengthLine(lines[0]) then Some(LengthOf(lines[0], 0)) else None
  }

  function OrElse(o: Option<int>, len: int): int {
    match o case Some(v) => v case None => len
  }

  lemma {:induction false} DeclaredIsLast(lines: seq<string>, len: int)
    ensures Declared(lines, len) == OrElse(LastLength(lines), len)
  {
    if lines != [] {
      DeclaredIsLast(lines[1..], LengthOf(lines[0], len));
    }
  }

  // A length at the head of any 1023-byte piece of a header line is the one that is declared
  // there: the line's own, or the one that the lines before it declare already.
  predicate LengthSurvives(lines: seq<string>, len: int) {
    lines == [] ||
    var line, before := lines[|lines| - 1], lines[..|lines| - 1];
    match LastLength(Pieces(line))
    case None => LengthSurvives(before, len)
    case Some(v) => v == LengthOf(line, Declared(before, len))
  }

  lemma {:induction false} DeclaredLastLine(lines: seq<string>, len: int)
    requires lines != []
    ensures var n := |lines| - 1;
            && Declared(lines, len) == LengthOf(lines[n], Declared(lines[..n], len))
            && DeclaredInPieces(lines, len) == Declared(Pieces(lines[n]), DeclaredInPieces(lines[..n], len))
  {
    var n := |lines| - 1;
    if n > 0 {
      DeclaredLastLine(lines[1..], LengthOf(lines[0], len));
      DeclaredLastLine(lines[1..], Declared(Pieces(lines[0]), len));
      assert lines[1..][..n - 1] == lines[..n][1..];
    }
  }

  // The first piece of a length line starts like the line.
  lemma LengthLineHasPiece(line: string)
    requires IsLengthLine(line)
    ensures LastLength(Pieces(line)).Some?
  {
    assert IsLengthLine(Pieces(line)[0]) by {
      if |line| >= ROOM {
        assert Pieces(line)[0] == line[..ROOM];
      }
    }
  }

  lemma {:induction false} SurvivesIff(lines: seq<string>, len: int)
    ensures DeclaredInPieces(lines, len) == Declared(lines, len) <==> LengthSurvives(lines, len)
    decreases |lines|
  {
    if lines != [] {
      var line, before := lines[|lines| - 1], lines[..|lines| - 1];
      DeclaredLastLine(lines, len);
      DeclaredIsLast(Pieces(line), DeclaredInPieces(before, len));
      SurvivesIff(before, len);
      if IsLengthLine(line) {
        LengthLineHasPiece(line);
      }
    }
  }

  /** The loop finds the declared length and stops exactly before the body if and only if no
      header line fakes an empty one and none hides a length at the head of a later piece. */
  lemma FramingIff(s: string, len: int)
    ensures ReadFraming(s, len) == Framing(Declared(HeaderLines(s), len), Body(s))
            <==> NoFalseEmptyLine(s) && LengthSurvives(HeaderLines(s), len)
    ensures ReadFraming(s, len).rest == Body(s) <==> NoFalseEmptyLine(s)
  {
    FramingByReads(s, len);
    ClearHeaderLeavesBody(s);
    FramingByLines(s, len);
    ReadAndMissed(s);
    SurvivesIff(HeaderLines(s), len);
    assert LinesRead(s) + [] == LinesRead(s);
  }

  // The same for the length alone, when a false empty line may end the loop early.
  predicate LengthFound(s: string, len: int) {
    match LastLength(LinesMissed(s))
    case None => LengthSurvives(LinesRead(s), len)
    case Some(v) => DeclaredInPieces(LinesRead(s), len) == v
  }

  lemma {:induction false} DeclaredConcat(a: seq<string>, b: seq<string>, len: int)
    ensures Declared(a + b, len) == Declared(b, Declared(a, len))
  {
    if a == [] {
      assert a + b == b;
    } else {
      assert (a + b)[1..] == a[1..] + b;
      DeclaredConcat(a[1..], b, LengthOf(a[0], len));
    }
  }

  /** The length is the declared one exactly when it survives in the lines read and the lines
      missed declare nothing, or nothing else. */
  lemma LengthIff(s: string, len: int)
    ensures ReadFraming(s, len).len == Declared(HeaderLines(s), len) <==> LengthFound(s, len)
  {
    FramingByLines(s, len);
    ReadAndMissed(s);
    DeclaredConcat(LinesRead(s), LinesMissed(s), len);
    DeclaredIsLast(LinesMissed(s), Declared(LinesRead(s), len));
    SurvivesIff(LinesRead(s), len);
  }

  // Lines that fit one read are never cut.
  lemma {:induction false} ShortLinesSurvive(lines: seq<string>, len: int)
    requires forall i | 0 <= i < |lines| :: |lines[i]| < ROOM
    ensures LengthSurvives(lines, len)
  {
    if lines != [] {
      var line := lines[|lines| - 1];
      assert Pieces(line) == [line];
      ShortLinesSurvive(lines[..|lines| - 1], len);
    }
  }

  // --- The body of a POST ---

  // What the pump writes to the program: recv's result is not looked at, so `ch` is written
  // again when the stream has ended.
  function Pumped(s: string, len: nat, ch: char): string {
    if len == 0 then ""
    else if s == "" then [ch] + Pumped(s, len - 1, ch)
    else [s[0]] + Pumped(s[1..], len - 1, s[0])
  }

  function Skip(s: string, n: nat): string {
    if n < |s| then s[n..] else ""
  }

  // `ch`, or the last byte of s.
  function LastByte(s: string, ch: char): char {
    if s == "" then ch else s[|s| - 1]
  }

  /** The pump writes the first `len` bytes of the stream, and past its end the last byte as
      often as bytes are missing. */
  lemma {:induction false} PumpedMeaning(s: string, len: nat, ch: char)
    ensures Pumped(s, len, ch) ==
              if len <= |s| then s[..len] else s + seq(len - |s|, _ => LastByte(s, ch))
    decreases len
  {
    if len > 0 {
      if s == "" {
        PumpedMeaning("", len - 1, ch);
      } else {
        PumpedMeaning(s[1..], len - 1, s[0]);
        assert LastByte(s[1..], s[0]) == LastByte(s, ch);
      }
    }
  }

  /** So the program's input is a prefix of the stream exactly when the stream is long enough. */
  lemma PumpedIsPrefixIff(s: string, len: nat, ch: char)
    ensures |Pumped(s, len, ch)| == len
    ensures Pumped(s, len, ch) <= s <==> len <= |s|
  {
    PumpedMeaning(s, len, ch);
  }

  lemma PumpedStep(input: string, s: string, len: nat, ch: char)
    requires len > 0
    ensures var c := if s == "" then ch else s[0];
            input + Pumped(s, len, ch) == input + [c] + Pumped(Skip(s, 1), len - 1, c)
  {
    var c := if s == "" then ch else s[0];
    assert Pumped(s, len, ch) == [c] + Pumped(Skip(s, 1), len - 1, c);
  }

  lemma SkipStep(s: string, i: nat)
    ensures Skip(Skip(s, i), 1) == Skip(s, i + 1)
  {
  }

  // The for loop of the parent; `input` collects the writes to input[1].
  method PumpBody(sock: Socket, len: nat) returns (input: string)
    modifies sock
    ensures input == Pumped(old(sock.rest), len, '\0')
    ensures sock.rest == Skip(old(sock.rest), len)
  {
    var ch := '\0';
    input := "";
    for i := 0 to len
      invariant input + Pumped(sock.rest, len - i, ch) == Pumped(old(sock.rest), len, '\0')
      invariant sock.rest == Skip(old(sock.rest), i)
    {
      PumpedStep(input, sock.rest, len - i, ch);
      SkipStep(old(sock.rest), i);
      var c := sock.Recv();
      if c.Some? {
        ch := c.value;
      }
      input := input + [ch];
    }
  }

  // --- echo_cgi up to the relay ---

  // BadLength: echo_error(500) and exit. Run: the program runs with this standard input.
  datatype Outcome = BadLength | Run(input: string)

  /** POST framing end to end, for every stream that declares a positive length: the length is
      found, the socket is at the body and the program's input is a prefix of it, if and only if
      no header line is misread and the body is that long. */
  lemma PostFraming(s: string)
    requires Declared(HeaderLines(s), 0) > 0
    ensures var n := Declared(HeaderLines(s), 0); var framing := ReadFraming(s, 0);
            && (framing == Framing(n, Body(s)) && Pumped(Body(s), n, '\0') <= Body(s)
                <==> NoFalseEmptyLine(s) && LengthSurvives(HeaderLines(s), 0) && n <= |Body(s)|)
            && (n <= |Body(s)| ==> Pumped(Body(s), n, '\0') == Body(s)[..n])
  {
    var n := Declared(HeaderLines(s), 0);
    FramingIff(s, 0);
    PumpedIsPrefixIff(Body(s), n, '\0');
    PumpedMeaning(Body(s), n, '\0');
  }

  // A positive length is declared, no header line is misread, and the body has that length.
  predicate WellFramed(s: string) {
    && NoFalseEmptyLine(s) && LengthSurvives(HeaderLines(s), 0)
    && 0 < Declared(HeaderLines(s), 0) <= |Body(s)|
  }

  lemma PostGivesBody(s: string)
    requires WellFramed(s)
    ensures var n, framing := Declared(HeaderLines(s), 0), ReadFraming(s, 0);
            && framing == Framing(n, Body(s))
            && Pumped(framing.rest, n, '\0') == Body(s)[..n] && Skip(framing.rest, n) == Body(s)[n..]
  {
    PostFraming(s);
  }

  /** The method is compared in two ways: for GET exactly, for POST with the case of letters
      ignored. Any other method needs a length, too, and gives the program no input. */
  method EchoCgi(sock: Socket, httpMethod: string) returns (outcome: Outcome)
    modifies sock
    ensures httpMethod == "GET" ==>
              && outcome == Run("") && sock.rest == Drain(old(sock.rest))
              && (sock.rest == Body(old(sock.rest)) <==> NoFalseEmptyLine(old(sock.rest)))
    ensures httpMethod != "GET" ==>
              var framing := ReadFraming(old(sock.rest), 0);
              if framing.len <= 0 then
                outcome == BadLength && sock.rest == framing.rest
              else if SpelledAlike(httpMethod, "POST") then
                outcome == Run(Pumped(framing.rest, framing.len, '\0')) && sock.rest == Skip(framing.rest, framing.len)
              else
                outcome == Run("") && sock.rest == framing.rest
    ensures SpelledAlike(httpMethod, "POST") && WellFramed(old(sock.rest)) ==>
              var body, n := Body(old(sock.rest)), Declared(HeaderLines(old(sock.rest)), 0);
              outcome == Run(body[..n]) && sock.rest == body[n..]
  {
    CaseOnly("POST", httpMethod);
    if WellFramed(sock.rest) {
      PostGivesBody(sock.rest);
    }
    ClearHeaderLeavesBody(sock.rest);
    var len := 0;
    if httpMethod != "GET" {
      len := ReadPostHeader(sock);
      if len <= 0 {
        return BadLength;
      }
    } else {
      ClearHeader(sock);
    }
    var input := "";
    if SameIgnoringCase("POST", httpMethod) {
      input := PumpBody(sock, len);
    }
    outcome := Run(input);
  }

  // --- A request as a client prints it ---

  lemma {:induction false} DecimalDigits(n: nat)
    ensures PlainLine(Decimal(n))
  {
    if n >= 10 {
      DecimalDigits(n / 10);
    }
  }

  function LengthLine(n: nat): string {
    CONTENT_LENGTH + Decimal(n)
  }

  lemma LengthLineDeclares(n: nat, len: int)
    ensures IsLengthLine(LengthLine(n)) && LengthOf(LengthLine(n), len) == n && PlainLine(LengthLine(n))
  {
    assert LengthLine(n)[..16] == CONTENT_LENGTH && LengthLine(n)[16..] == Decimal(n);
    AtoiOfDecimal(n);
    DecimalDigits(n);
  }

  function RenderLines(lines: seq<string>): string {
    if lines == [] then "" else lines[0] + "\r\n" + RenderLines(lines[1..])
  }

  lemma {:induction false} RenderRoundTrip(lines: seq<string>, body: string)
    requires forall i | 0 <= i < |lines| :: PlainLine(lines[i]) && lines[i] != ""
    ensures var s := RenderLines(lines) + "\r\n" + body; HeaderLines(s) == lines && Body(s) == body
    decreases |lines|
  {
    var s := RenderLines(lines) + "\r\n" + body;
    if lines == [] {
      assert s == "" + "\r\n" + body;
      SplitOfRender("", body);
    } else {
      var s' := RenderLines(lines[1..]) + "\r\n" + body;
      RenderRoundTrip(lines[1..], body);
      assert s == lines[0] + "\r\n" + s';
      SplitOfRender(lines[0], s');
    }
  }

  lemma {:induction false} DeclaredLast(before: seq<string>, line: string, after: seq<string>, len: int)
    requires IsLengthLine(line) && forall i | 0 <= i < |after| :: !IsLengthLine(after[i])
    ensures Declared(before + [line] + after, len) == Atoi(line[16..])
    decreases |before|, |after|
  {
    var all := before + [line] + after;
    if before != [] {
      assert all[1..] == before[1..] + [line] + after;
      DeclaredLast(before[1..], line, after, if IsLengthLine(all[0]) then Atoi(all[0][16..]) else len);
    } else {
      assert all[0] == line && all[1..] == after;
      DeclaredNone(after, Atoi(line[16..]));
    }
  }

  lemma {:induction false} DeclaredNone(lines: seq<string>, len: int)
    requires forall i | 0 <= i < |lines| :: !IsLengthLine(lines[i])
    ensures Declared(lines, len) == len
  {
    if lines != [] {
      DeclaredNone(lines[1..], len);
    }
  }

  lemma {:induction false} RenderedFalseEmptyLine(lines: seq<string>, body: string)
    requires forall i | 0 <= i < |lines| :: PlainLine(lines[i]) && lines[i] != ""
    ensures NoFalseEmptyLine(RenderLines(lines) + "\r\n" + body)
            <==> forall i | 0 <= i < |lines| :: |lines[i]| % ROOM != 0
    decreases |lines|
  {
    var s := RenderLines(lines) + "\r\n" + body;
    if lines == [] {
      assert s == "" + "\r\n" + body;
      SplitOfRender("", body);
    } else {
      var s' := RenderLines(lines[1..]) + "\r\n" + body;
      RenderedFalseEmptyLine(lines[1..], body);
      assert s == lines[0] + "\r\n" + s';
      SplitOfRender(lines[0], s');
      assert |s'| >= 2;
      assert forall i | 1 <= i < |lines| :: lines[i] == lines[1..][i - 1];
    }
  }

  /** A POST printed with its length in decimal and CRLF line ends: the length and the body come
      back if and only if no line is as long as a multiple of 1023 bytes or hides a length. */
  lemma PrintedPost(before: seq<string>, n: nat, after: seq<string>, body: string)
    requires var lines := before + [LengthLine(n)] + after;
             forall i | 0 <= i < |lines| :: PlainLine(lines[i]) && lines[i] != ""
    requires forall i | 0 <= i < |after| :: !IsLengthLine(after[i])
    ensures var lines := before + [LengthLine(n)] + after;
            ReadFraming(RenderLines(lines) + "\r\n" + body, 0) == Framing(n, body)
            <==> (forall i | 0 <= i < |lines| :: |lines[i]| % ROOM != 0) && LengthSurvives(lines, 0)
  {
    var line := LengthLine(n);
    var lines := before + [line] + after;
    LengthLineDeclares(n, 0);
    DeclaredLast(before, line, after, 0);
    RenderRoundTrip(lines, body);
    RenderedFalseEmptyLine(lines, body);
    FramingIff(RenderLines(lines) + "\r\n" + body, 0);
  }

  // --- Inputs on which the loop goes wrong ---

  // A header line that fills one read exactly.
  predicate IsFiller(line: string) {
    |line| == ROOM && PlainLine(line) && !IsLengthLine(line)
  }

  lemma FillerExists()
    ensures IsFiller(seq(ROOM, _ => 'x'))
  {
    assert seq(ROOM, _ => 'x')[0] != CONTENT_LENGTH[0];
  }

  // A line that starts with a filler is read in two pieces, and is no length line itself.
  lemma FillerPieces(filler: string, rest: string, len: int)
    requires IsFiller(filler) && |rest| < ROOM
    ensures Declared(Pieces(filler + rest), len) == LengthOf(rest, len)
    ensures !IsLengthLine(filler + rest)
  {
    var line := filler + rest;
    assert line[..ROOM] == filler && line[ROOM..] == rest;
    assert Pieces(line) == [filler] + Pieces(rest);
    assert Pieces(line)[1..] == [rest] && [rest][1..] == [];
    assert Declared([rest], len) == LengthOf(rest, len);
  }

  lemma FramingOfOnlyLine(line: string, body: string, len: int)
    requires PlainLine(line) && |line| % ROOM != 0
    ensures ReadFraming(line + "\r\n" + ("" + "\r\n" + body), len) == Framing(Declared(Pieces(line), len), body)
  {
    var left := "" + "\r\n" + body;
    SplitOfRender(line, left);
    FramingOfLine(line + "\r\n" + left, len);
    SplitOfRender("", body);
    FramingOfShortLine(left, Declared(Pieces(line), len));
  }

  /** A header line of 1023 bytes ends the loop: the length behind it is not found, and the rest
      of the header is taken for the body. */
  lemma FalseEmptyLineInPost(filler: string, n: nat, body: string)
    requires IsFiller(filler)
    ensures var s := RenderLines([filler, LengthLine(n)]) + "\r\n" + body;
            Declared(HeaderLines(s), 0) == n && Body(s) == body
    ensures ReadFraming(RenderLines([filler, LengthLine(n)]) + "\r\n" + body, 0)
            == Framing(0, RenderLines([LengthLine(n)]) + "\r\n" + body)
  {
    var left := RenderLines([LengthLine(n)]) + "\r\n" + body;
    var lines := [filler, LengthLine(n)];
    var s := RenderLines(lines) + "\r\n" + body;
    LengthLineDeclares(n, 0);
    RenderRoundTrip(lines, body);
    DeclaredLast([filler], LengthLine(n), [], 0);
    assert [filler] + [LengthLine(n)] + [] == lines;
    assert lines[1..] == [LengthLine(n)];
    assert s == filler + "\r\n" + left;
    SplitOfRender(filler, left);
    FramingOfLine(s, 0);
    FillerPieces(filler, "", 0);
    assert filler + "" == filler;
  }

  lemma RenderOneLine(line: string, body: string)
    ensures RenderLines([line]) + "\r\n" + body == line + "\r\n" + ("" + "\r\n" + body)
  {
    assert [line][1..] == [];
  }

  /** A length 1023 bytes into a header line is taken for a declaration. */
  lemma HiddenLength(filler: string, hidden: string, body: string)
    requires IsFiller(filler) && IsLengthLine(hidden) && PlainLine(hidden) && |hidden| < ROOM
    ensures var s := RenderLines([filler + hidden]) + "\r\n" + body;
            Declared(HeaderLines(s), 0) == 0 && ReadFraming(s, 0) == Framing(LengthOf(hidden, 0), body)
  {
    var line := filler + hidden;
    RenderRoundTrip([line], body);
    FillerPieces(filler, hidden, 0);
    DeclaredNone([line], 0);
    assert |line| % ROOM == |hidden|;
    FramingOfOnlyLine(line, body, 0);
    RenderOneLine(line, body);
  }

  /** A body of two bytes announced as four reaches the program with its last byte repeated. */
  lemma ShortBody()
    ensures ReadFraming(RenderLines([LengthLine(4)]) + "\r\n" + "ab", 0) == Framing(4, "ab")
    ensures Pumped("ab", 4, '\0') == "abbb"
  {
    var lines := [LengthLine(4)];
    LengthLineDeclares(4, 0);
    assert |Decimal(4)| == 1;
    RenderRoundTrip(lines, "ab");
    RenderedFalseEmptyLine(lines, "ab");
    ShortLinesSurvive(lines, 0);
    assert lines[1..] == [];
    FramingIff(RenderLines(lines) + "\r\n" + "ab", 0);
    PumpedMeaning("ab", 4, '\0');
  }
}
