/**
 The request-line parser at the head of accept_request in Tinyhttp: method and URL are copied
 out of the line buffer, and the URL of a GET is cut at its first '?' in place.
 */
module RequestLine {
  import opened CStrings
  import opened HttpLines
  import opened HttpHeader

  const WORD: nat := 255  // sizeof(method) and sizeof(url)

  // Longest run of non-blank bytes, at most `room` of them.
  function TakeWord(memory: string, room: nat): (w: string)
    ensures |w| <= |memory| && |w| <= room && memory[..|w|] == w
    decreases |memory|
  {
    if room == 0 || memory == "" || IsSpace(memory[0]) then ""
    else [memory[0]] + TakeWord(memory[1..], room - 1)
  }

  function SkipSpaces(memory: string): (rest: string)
    ensures |rest| <= |memory| && memory[|memory| - |rest|..] == rest
  {
    if memory != "" && IsSpace(memory[0]) then SkipSpaces(memory[1..]) else memory
  }

  // Unimplemented: the 501 answer. Otherwise the requested path, the query string (none for a
  // POST, where the pointer stays NULL) and whether a CGI program is asked for.
  datatype Request =
    | Unimplemented
    | Get(path: string, query: string, cgi: bool)
    | Post(path: string)

  // The first loop that walks to '?' or the end.
  function BeforeQuestion(url: string): (p: string)
    ensures |p| <= |url| && url[..|p|] == p
  {
    if url == "" || url[0] == '?' then "" else [url[0]] + BeforeQuestion(url[1..])
  }

  function NameIn(memory: string): string {
    CStr(TakeWord(memory, WORD - 1))
  }

  function UrlIn(memory: string): string {
    CStr(TakeWord(SkipSpaces(memory[|TakeWord(memory, WORD - 1)|..]), WORD - 1))
  }

  function GetRequest(url: string): Request {
    var path := BeforeQuestion(url);
    Get(path, if path == url then "" else url[|path| + 1..], path != url)
  }

  function Parse(memory: string): Request {
    if SameIgnoringCase(NameIn(memory), "GET") then GetRequest(UrlIn(memory))
    else if SameIgnoringCase(NameIn(memory), "POST") then Post(UrlIn(memory))
    else Unimplemented
  }

  lemma {:induction false} TakeWordIs(memory: string, n: nat, room: nat)
    requires n <= |memory| && n <= room
    requires forall k | 0 <= k < n :: !IsSpace(memory[k])
    requires n == room || n == |memory| || IsSpace(memory[n])
    ensures TakeWord(memory, room) == memory[..n]
  {
    if n > 0 {
      TakeWordIs(memory[1..], n - 1, room - 1);
      assert memory[..n] == [memory[0]] + memory[1..][..n - 1];
    }
  }

  lemma {:induction false} SkipSpacesIs(memory: string, n: nat)
    requires n <= |memory| && forall k | 0 <= k < n :: IsSpace(memory[k])
    requires n == |memory| || !IsSpace(memory[n])
    ensures SkipSpaces(memory) == memory[n..]
  {
    if n > 0 {
      SkipSpacesIs(memory[1..], n - 1);
      assert memory[1..][n - 1..] == memory[n..];
    }
  }

  lemma {:induction false} BeforeQuestionIs(url: string, n: nat)
    requires n <= |url|
    requires forall k | 0 <= k < n :: url[k] != '?'
    requires n == |url| || url[n] == '?'
    ensures BeforeQuestion(url) == url[..n]
  {
    if n > 0 {
      BeforeQuestionIs(url[1..], n - 1);
      assert url[..n] == [url[0]] + url[1..][..n - 1];
    }
  }

  // Copies bytes of buf from start on into dest until a blank, the end of buf, or dest is full
  // but for the NUL.
  method CopyWord(buf: array<char>, start: nat, dest: array<char>) returns (i: nat)
    requires start <= buf.Length && dest.Length == WORD && buf != dest
    modifies dest
    ensures i == |TakeWord(buf[start..], WORD - 1)|
    ensures CStr(dest[..]) == CStr(TakeWord(buf[start..], WORD - 1)) && |CStr(dest[..])| < WORD
  {
    i := 0;
    while start + i < buf.Length && !IsSpace(buf[start + i]) && i < WORD - 1
      invariant i <= WORD - 1 && start + i <= buf.Length
      invariant forall k | start <= k < start + i :: !IsSpace(buf[k]) && dest[k - start] == buf[k]
    {
      dest[i] := buf[start + i];
      i := i + 1;
    }
    dest[i] := '\0';
    TakeWordIs(buf[start..], i, WORD - 1);
    assert dest[..i] == buf[start..][..i];
    CStrOfMemory(dest[..], i);
    CStrPrefix(dest[..i]);
  }

  // The position behind the blanks. The source reads a byte before it looks at its index, so it
  // reads one past the buffer exactly when j is the buffer's length.
  method SkipBlanks(buf: array<char>, start: nat) returns (j: nat)
    requires start <= buf.Length
    ensures start <= j <= buf.Length && buf[j..] == SkipSpaces(buf[start..])
    ensures forall k | start <= k < j :: IsSpace(buf[k])
    ensures j < buf.Length ==> !IsSpace(buf[j])
  {
    j := start;
    while j < buf.Length && IsSpace(buf[j])
      invariant start <= j <= buf.Length
      invariant forall k | start <= k < j :: IsSpace(buf[k])
    {
      j := j + 1;
    }
    SkipSpacesIs(buf[start..], j - start);
    assert buf[start..][j - start..] == buf[j..];
  }

  lemma CStrOfMemory(memory: string, n: nat)
    requires n < |memory| && memory[n] == '\0'
    ensures CStr(memory) == CStr(memory[..n])
  {
    if n > 0 && memory[0] != '\0' {
      assert memory[1..][..n - 1] == memory[..n][1..];
      CStrOfMemory(memory[1..], n - 1);
    }
  }

  lemma {:induction false} CStrPrefix(memory: string)
    ensures var n := |CStr(memory)|;
            && n <= |memory| && memory[..n] == CStr(memory) && '\0' !in CStr(memory)
            && (n < |memory| ==> memory[n] == '\0')
  {
    if memory != "" && memory[0] != '\0' {
      CStrPrefix(memory[1..]);
    }
  }

  // The buffer after a NUL is written over byte `at` of its string.
  lemma CutString(memory: string, at: nat)
    requires at < |CStr(memory)| < |memory|
    ensures CStr(memory[at := '\0']) == CStr(memory)[..at]
    ensures CStr(memory[at := '\0'][at + 1..]) == CStr(memory)[at + 1..]
  {
    CStrPrefix(memory);
    var text := CStr(memory);
    var cut := memory[at := '\0'];
    assert cut == text[..at] + "\0" + memory[at + 1..];
    CStrStops(text[..at], memory[at + 1..]);
    assert cut[at + 1..] == text[at + 1..] + "\0" + memory[|text| + 1..];
    CStrStops(text[at + 1..], memory[|text| + 1..]);
  }

  // Cuts the URL at its first '?': a NUL goes over it, and the query starts behind it.
  method SplitQuery(url: array<char>) returns (cgi: bool, q: nat)
    requires |CStr(url[..])| < url.Length
    modifies url
    ensures var text := CStr(old(url[..])); var path := BeforeQuestion(text);
            && q < url.Length && CStr(url[..]) == path && cgi == (path != text)
            && CStr(url[q..]) == if cgi then text[|path| + 1..] else ""
  {
    ghost var text := CStr(url[..]);
    CStrPrefix(url[..]);
    assert forall k | 0 <= k < |text| :: url[k] == url[..|text|][k];
    q := 0;
    while url[q] != '?' && url[q] != '\0'
      invariant q <= |text| && forall k | 0 <= k < q :: text[k] != '?'
      decreases |text| - q
    {
      q := q + 1;
    }
    BeforeQuestionIs(text, q);
    cgi := url[q] == '?';
    if cgi {
      CutString(url[..], q);
      ghost var was := url[..];
      url[q] := '\0';
      assert url[..] == was[q := '\0'];
      q := q + 1;
    } else {
      assert url[q..][0] == '\0';
    }
  }

  // The method is the first word, the URL the word after the blanks behind it.
  method CopyWords(buf: array<char>, name: array<char>, url: array<char>)
    requires buf.Length == BUFFER && name.Length == WORD == url.Length && buf != url && buf != name && name != url
    modifies name, url
    ensures CStr(name[..]) == NameIn(buf[..])
    ensures CStr(url[..]) == UrlIn(buf[..]) && |CStr(url[..])| < WORD
  {
    assert buf[0..] == buf[..];
    var i := CopyWord(buf, 0, name);
    var j := SkipBlanks(buf, i);
    assert buf[..][i..] == buf[i..];
    var _ := CopyWord(buf, j, url);
  }

  method ParseRequest(buf: array<char>) returns (r: Request)
    requires buf.Length == BUFFER
    ensures r == Parse(buf[..])
  {
    var name := new char[WORD](_ => '\0');
    var url := new char[WORD](_ => '\0');
    CopyWords(buf, name, url);
    if SameIgnoringCase(CStr(name[..]), "GET") {
      var cgi, q := SplitQuery(url);
      r := Get(CStr(url[..]), CStr(url[q..]), cgi);
    } else if SameIgnoringCase(CStr(name[..]), "POST") {
      r := Post(CStr(url[..]));
    } else {
      r := Unimplemented;
    }
  }

  // --- Round trip ---

  predicate IsWord(w: string) {
    forall i | 0 <= i < |w| :: !IsSpace(w[i]) && w[i] != '\0'
  }

  // What fits the url array.
  function Kept(url: string): string {
    if |url| < WORD then url else url[..WORD - 1]
  }

  lemma CStrOfWord(w: string)
    requires IsWord(w)
    ensures CStr(w) == w
  {
    CStrStops(w, "");
    CStrOfMemory(w + "\0" + "", |w|);
    assert (w + "\0" + "")[..|w|] == w;
  }

  lemma TakeWordOf(w: string, tail: string)
    requires IsWord(w) && (tail == "" || IsSpace(tail[0]))
    ensures TakeWord(w + tail, WORD - 1) == Kept(w) == CStr(Kept(w))
  {
    TakeWordIs(w + tail, |Kept(w)|, WORD - 1);
    assert (w + tail)[..|Kept(w)|] == Kept(w);
    CStrOfWord(Kept(w));
  }

  // A buffer that starts with a method and a URL, with blanks between and behind them.
  lemma ParseOfWords(name: string, gap: string, url: string, tail: string)
    requires IsWord(name) && IsWord(url) && url != "" && |name| < WORD
    requires gap != "" && AllSpaces(gap) && (tail == "" || IsSpace(tail[0]))
    ensures var memory := name + (gap + (url + tail)); NameIn(memory) == name && UrlIn(memory) == Kept(url)
  {
    var after := gap + (url + tail);
    var memory := name + after;
    TakeWordOf(name, after);
    assert memory[|name|..] == after;
    SkipSpacesIs(after, |gap|);
    assert after[|gap|..] == url + tail;
    TakeWordOf(url, tail);
  }

  /** The first word decides: whatever follows it, a request is one for GET or POST exactly if the
      word is, but for the case of its letters; any other method is not implemented. */
  lemma MethodDecides(name: string, tail: string)
    requires IsWord(name) && (tail == "" || IsSpace(tail[0]))
    ensures Parse(name + tail) == if SpelledAlike(name, "GET") then GetRequest(UrlIn(name + tail))
                                  else if SpelledAlike(name, "POST") then Post(UrlIn(name + tail))
                                  else Unimplemented
  {
    TakeWordOf(name, tail);
    CaseOnly(Kept(name), "GET");
    CaseOnly(Kept(name), "POST");
  }

  lemma {:induction false} QuestionSplit(url: string)
    ensures var p := BeforeQuestion(url);
            && '?' !in p
            && (if '?' in url then |p| < |url| && url == p + "?" + url[|p| + 1..] else p == url)
  {
    if url != "" && url[0] != '?' {
      QuestionSplit(url[1..]);
    }
  }

  // get_line keeps the method and the URL whole, whatever the version text is.
  lemma LineKeepsWords(head: string, version: string, rest: string)
    requires PlainLine(head) && PlainLine(version) && |head| < ROOM
    ensures head <= Line(head + version + "\r\n" + rest, ROOM).line
  {
    var content := head + version;
    var s := content + "\r\n" + rest;
    assert PlainLine(content);
    SplitOfRender(content, rest);
    if |content| >= ROOM {
      LineTooLong(s, ROOM);
      assert s[..ROOM] == content[..ROOM];
    } else {
      LineThatFits(s, ROOM);
    }
  }

  // A parsed request is the one for this method and this URL, as far as the url array keeps it.
  predicate Recovers(r: Request, name: string, url: string) {
    if SpelledAlike(name, "POST") then
      r == Post(Kept(url))
    else if SpelledAlike(name, "GET") then
      && r.Get? && '?' !in r.path && (r.cgi <==> '?' in Kept(url))
      && Kept(url) == r.path + (if r.cgi then "?" else "") + r.query && (!r.cgi ==> r.query == "")
    else
      r == Unimplemented
  }

  lemma GetRecovers(name: string, url: string)
    requires SpelledAlike(name, "GET")
    ensures Recovers(GetRequest(Kept(url)), name, url)
  {
    QuestionSplit(Kept(url));
    assert !SpelledAlike(name, "POST");
  }

  lemma ParseRecovers(name: string, gap: string, url: string, tail: string)
    requires IsWord(name) && IsWord(url) && url != ""
    requires gap != "" && AllSpaces(gap) && (tail == "" || IsSpace(tail[0]))
    ensures Recovers(Parse(name + (gap + (url + tail))), name, url)
  {
    MethodDecides(name, gap + (url + tail));
    if SpelledAlike(name, "GET") {
      ParseOfWords(name, gap, url, tail);
      GetRecovers(name, url);
    } else if SpelledAlike(name, "POST") {
      ParseOfWords(name, gap, url, tail);
    }
  }

  /** Reading and parsing a printed request line recovers the method and the URL, of a URL
      longer than 254 bytes the first 254: what get_line leaves in the 1024-byte buffer parses
      to them, whatever the version text and whatever else the buffer holds. A method other than
      GET and POST is answered as not implemented. */
  lemma RequestRoundTrip(name: string, gap: string, url: string, version: string, rest: string, memory: string)
    requires IsWord(name) && IsWord(url) && url != "" && gap != "" && AllSpaces(gap)
    requires PlainLine(gap) && PlainLine(version) && |name + gap + url + " "| < ROOM
    requires |memory| == BUFFER && Line(name + gap + url + " " + version + "\r\n" + rest, ROOM).line <= memory
    ensures Recovers(Parse(memory), name, url)
    ensures Kept(url) == url <==> |url| <= 254
  {
    var head := name + gap + url + " ";
    assert PlainLine(head);
    LineKeepsWords(head, version, rest);
    var tail := " " + memory[|head|..];
    assert memory == head + memory[|head|..];
    assert head + memory[|head|..] == name + (gap + (url + tail));
    ParseRecovers(name, gap, url, tail);
  }
}
