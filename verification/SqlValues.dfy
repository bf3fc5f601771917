/**
 get_data of myhttp/http/sql_cgi/sql_insert_cgi.cpp: the query string of a form turned into
 the value list of an SQL insert.
 */
module SqlValues {
  import opened Wrappers

  // --- The reference: '&'-separated segments ---

  function Split(q: string): (parts: seq<string>)
    ensures parts != []
  {
    if q == "" then [""]
    else if q[0] == '&' then [""] + Split(q[1..])
    else var parts := Split(q[1..]); [[q[0]] + parts[0]] + parts[1..]
  }

  // The text after a segment's first '='.
  function ValueOf(segment: string): Option<string> {
    if segment == "" then None
    else if segment[0] == '=' then Some(segment[1..])
    else ValueOf(segment[1..])
  }

  // Each value in quotes, followed by a comma exactly when its segment is not the last.
  function ValueList(parts: seq<string>): string {
    if parts == [] then "" else
    (match ValueOf(parts[0])
     case None => ""
     case Some(v) => "'" + v + "'" + if |parts| > 1 then "," else "")
    + ValueList(parts[1..])
  }

  // --- The code ---

  // The text up to the next '&' or the end.
  function UpToAmp(q: string): (v: string)
    ensures |v| <= |q| && q[..|v|] == v
  {
    if q == "" || q[0] == '&' then "" else [q[0]] + UpToAmp(q[1..])
  }

  lemma {:induction false} SplitAtAmp(q: string)
    ensures var v := UpToAmp(q);
            Split(q) == if |v| < |q| then [v] + Split(q[|v| + 1..]) else [v]
  {
    if q != "" && q[0] != '&' {
      SplitAtAmp(q[1..]);
    }
  }

  lemma {:induction false} UpToAmpIs(q: string, n: nat)
    requires n <= |q| && (forall k | 0 <= k < n :: q[k] != '&') && (n == |q| || q[n] == '&')
    ensures UpToAmp(q) == q[..n]
  {
    if n > 0 {
      UpToAmpIs(q[1..], n - 1);
      assert q[..n] == [q[0]] + q[1..][..n - 1];
    }
  }

  // What the outer loop appends from a point where no '=' of the current segment has been read.
  function Scan(q: string): string {
    ValueList(Split(q))
  }

  lemma ScanSkips(q: string)
    requires q != "" && q[0] != '='
    ensures Scan(q) == Scan(q[1..])
  {
    if q[0] != '&' {
      var parts := Split(q[1..]);
      assert Split(q) == [[q[0]] + parts[0]] + parts[1..];
      assert ([q[0]] + parts[0])[1..] == parts[0];
    } else {
      assert ([""] + Split(q[1..]))[1..] == Split(q[1..]);
    }
  }

  lemma ScanValue(q: string)
    requires q != "" && q[0] == '='
    ensures var v := UpToAmp(q[1..]);
            Scan(q) == if 1 + |v| < |q| then "'" + v + "'" + "," + Scan(q[|v| + 2..]) else "'" + v + "'"
  {
    var rest := q[1..];
    var v := UpToAmp(rest);
    var parts := Split(rest);
    SplitAtAmp(rest);
    assert parts[0] == v;
    assert Split(q) == [['='] + v] + parts[1..];
    assert (['='] + v)[1..] == v;
    assert Split(q)[1..] == parts[1..];
    if |v| < |rest| {
      assert rest[|v| + 1..] == q[|v| + 2..];
      assert parts[1..] == Split(q[|v| + 2..]);
    } else {
      assert ValueList(parts[1..]) == "";
    }
  }

  lemma ScanValueAt(query: string, start: nat)
    requires start < |query| && query[start] == '='
    ensures var v := UpToAmp(query[start + 1..]); var end := start + 1 + |v|;
            Scan(query[start..])
            == if end < |query| then "'" + v + "'" + "," + Scan(query[end + 1..]) else "'" + v + "'"
  {
    var rest := query[start..];
    ScanValue(rest);
    assert rest[1..] == query[start + 1..];
    var v := UpToAmp(rest[1..]);
    assert 1 + |v| < |rest| ==> rest[|v| + 2..] == query[start + 1 + |v| + 1..];
  }

  // The inner loop: from behind an '=' to the next '&' or the end.
  method CopyValue(query: string, start: nat) returns (v: string, i: nat)
    requires start <= |query|
    ensures v == UpToAmp(query[start..]) && i == start + |v|
  {
    v := "";
    i := start;
    while i < |query| && query[i] != '&'
      invariant start <= i <= |query| && v == query[start..i]
      invariant forall k | start <= k < i :: query[k] != '&'
    {
      v := v + [query[i]];
      i := i + 1;
    }
    UpToAmpIs(query[start..], i - start);
    assert query[start..][..i - start] == query[start..i];
  }

  // The body of the `if`: a value, its quotes, and the comma if an '&' follows it.
  method AppendValue(query: string, start: nat) returns (text: string, i: nat)
    requires start < |query| && query[start] == '='
    ensures start < i <= |query| + 1
    ensures Scan(query[start..]) == text + if i <= |query| then Scan(query[i..]) else ""
  {
    ScanValueAt(query, start);
    var v;
    v, i := CopyValue(query, start + 1);
    text := "'" + v;
    if i < |query| {
      text := text + "'" + ",";
    } else {
      text := text + "'";
    }
    i := i + 1;
  }

  lemma ScanNothing()
    ensures Scan("") == ""
  {
    assert [""][1..] == [];
  }

  // The outer loop. The position passes the end where the source breaks out of it.
  method ListValues(query: string) returns (str: string)
    ensures str == ValueList(Split(query))
  {
    str := "";
    var i := 0;
    assert query[0..] == query;
    while i < |query|
      invariant i <= |query| + 1
      invariant Scan(query) == str + if i <= |query| then Scan(query[i..]) else ""
    {
      if query[i] == '=' {
        var text;
        text, i := AppendValue(query, i);
        str := str + text;
      } else {
        ScanSkips(query[i..]);
        assert query[i..][1..] == query[i + 1..];
        i := i + 1;
      }
    }
    ScanNothing();
    assert i == |query| ==> query[i..] == "";
  }

  // The environment variables are parameters, None where getenv finds nothing. The result is
  // None where the source dereferences the NULL of a missing QUERY_STRING.
  method GetData(httpMethod: Option<string>, queryString: Option<string>) returns (str: Option<string>)
    ensures httpMethod != Some("GET") ==> str == Some("")
    ensures httpMethod == Some("GET") && queryString.None? ==> str == None
    ensures httpMethod == Some("GET") && queryString.Some? ==> str == Some(ValueList(Split(queryString.value)))
  {
    if httpMethod != Some("GET") {
      str := Some("");
    } else if queryString.None? {
      str := None;
    } else {
      var list := ListValues(queryString.value);
      str := Some(list);
    }
  }

  // --- Round trip ---

  datatype Pair = Pair(key: string, value: string)

  predicate Plain(p: Pair) {
    '=' !in p.key && '&' !in p.key && '&' !in p.value
  }

  // A form as a browser sends it.
  function PrintForm(pairs: seq<Pair>): string {
    if pairs == [] then ""
    else pairs[0].key + "=" + pairs[0].value + if |pairs| > 1 then "&" + PrintForm(pairs[1..]) else ""
  }

  function JoinQuoted(values: seq<string>): string {
    if values == [] then ""
    else "'" + values[0] + "'" + if |values| > 1 then "," + JoinQuoted(values[1..]) else ""
  }

  function ValuesOf(pairs: seq<Pair>): seq<string> {
    seq(|pairs|, i requires 0 <= i < |pairs| => pairs[i].value)
  }

  lemma {:induction false} ScanKey(key: string, rest: string)
    requires '=' !in key && '&' !in key
    ensures Scan(key + rest) == Scan(rest)
  {
    if key != "" {
      ScanSkips(key + rest);
      assert (key + rest)[1..] == key[1..] + rest;
      ScanKey(key[1..], rest);
    } else {
      assert key + rest == rest;
    }
  }

  lemma ScanPair(p: Pair, tail: string)
    requires Plain(p) && (tail == "" || tail[0] == '&')
    ensures Scan(p.key + "=" + p.value + tail)
            == if tail != "" then "'" + p.value + "'" + "," + Scan(tail[1..]) else "'" + p.value + "'"
  {
    var q := "=" + (p.value + tail);
    assert p.key + "=" + p.value + tail == p.key + q;
    ScanKey(p.key, q);
    assert q[1..] == p.value + tail;
    UpToAmpIs(p.value + tail, |p.value|);
    ScanValue(q);
    assert tail != "" ==> q[|p.value| + 2..] == tail[1..];
  }

  /** A printed form comes back as its values, in order, quoted and separated by commas. */
  lemma {:induction false} FormRoundTrip(pairs: seq<Pair>)
    requires forall i | 0 <= i < |pairs| :: Plain(pairs[i])
    ensures ValueList(Split(PrintForm(pairs))) == JoinQuoted(ValuesOf(pairs))
  {
    assert |pairs| > 0 ==> ValuesOf(pairs)[1..] == ValuesOf(pairs[1..]);
    if |pairs| == 1 {
      ScanPair(pairs[0], "");
      assert PrintForm(pairs) == pairs[0].key + "=" + pairs[0].value + "";
    } else if |pairs| > 1 {
      var form := PrintForm(pairs[1..]);
      FormRoundTrip(pairs[1..]);
      ScanPair(pairs[0], "&" + form);
      assert ("&" + form)[1..] == form;
    }
  }

  // --- When the list is well formed ---

  function Values(parts: seq<string>): seq<string> {
    if parts == [] then [] else
    (match ValueOf(parts[0]) case None => [] case Some(v) => [v]) + Values(parts[1..])
  }

  lemma JoinStep(v: string, rest: seq<string>, end: string)
    ensures JoinQuoted([v]) == "'" + v + "'"
    ensures rest != [] ==> "'" + v + "'" + "," + (JoinQuoted(rest) + end) == JoinQuoted([v] + rest) + end
  {
    assert ([v] + rest)[1..] == rest;
  }

  /** The values separated by commas, and one comma more at the end exactly when there is a value
      but the last segment has none. */
  lemma {:induction false} TrailingComma(parts: seq<string>)
    requires parts != []
    ensures ValueList(parts) == JoinQuoted(Values(parts)) + LastComma(parts)
  {
    var tail := parts[1..];
    if tail != [] {
      TrailingComma(tail);
      NoValues(tail);
      var rest := Values(tail);
      match ValueOf(parts[0]) {
        case None =>
          assert Values(parts) == rest;
          assert ValueList(parts) == ValueList(tail);
        case Some(v) =>
          JoinStep(v, rest, LastComma(tail));
          assert ValueList(parts) == "'" + v + "'" + "," + ValueList(tail);
          if rest == [] {
            assert ValueList(tail) == "";
            assert Values(parts) == [v];
          } else {
            assert LastComma(parts) == LastComma(tail);
          }
      }
    } else {
      assert parts == [parts[0]];
    }
  }

  function LastComma(parts: seq<string>): string
    requires parts != []
  {
    if Values(parts) != [] && ValueOf(parts[|parts| - 1]).None? then "," else ""
  }

  lemma {:induction false} NoValues(parts: seq<string>)
    ensures parts != [] && Values(parts) == [] ==> ValueOf(parts[|parts| - 1]).None?
  {
    if |parts| > 1 {
      NoValues(parts[1..]);
    }
  }

  /** A form whose last field is a bare key, such as "a=1&b", ends its list with a comma. */
  lemma CommaAtEnd(p: Pair, key: string)
    requires Plain(p) && '=' !in key && '&' !in key
    ensures ValueList(Split(p.key + "=" + p.value + ("&" + key))) == "'" + p.value + "'" + ","
  {
    var tail := "&" + key;
    ScanPair(p, tail);
    assert tail[1..] == key == key + "";
    ScanKey(key, "");
    ScanNothing();
  }
}
