/** echo_cgi as a whole: the framing of HttpPost feeding the relay of CgiRelay. */
module CgiRequest {
  import opened HttpHeader
  import opened HttpPost
  import opened CgiRelay

  /** A POST from the header to the answer: when no header line is misread, a program that reads
      as many bytes as are announced before it answers gets the body's bytes if and only if the
      body has that many; no interleaving gets stuck, and in each one that has run to its end the
      program has read its input and the client has the response head and the whole answer. */
  lemma PostIsServed(s: string, job: Job, turns: seq<Turn>)
    requires NoFalseEmptyLine(s) && LengthSurvives(HeaderLines(s), 0) && Declared(HeaderLines(s), 0) > 0
    requires job.Valid() && ReadsThenWrites(job)
    requires ReadFraming(s, 0).len > 0 && job.input == Pumped(ReadFraming(s, 0).rest, ReadFraming(s, 0).len, '\0')
    requires Exec(job, START, turns).Some?
    ensures |job.input| == Declared(HeaderLines(s), 0)
    ensures job.input <= Body(s) <==> Declared(HeaderLines(s), 0) <= |Body(s)|
    ensures var t := Exec(job, START, turns).value;
            Terminal(job, t) ==>
              t.parent.Finished? && t.heard == job.input && IsResponse(job.script, t.client)
    ensures |turns| <= Measure(job, START)
  {
    FramingIff(s, 0);
    PumpedIsPrefixIff(Body(s), Declared(HeaderLines(s), 0), '\0');
    WellBehavedProgramIsServed(job);
    ClientSeesHeadThenOutput(job, turns);
    if Terminal(job, Exec(job, START, turns).value) {
      WellBehavedProgramHearsAll(job, turns);
    }
    RunsAreBounded(job, START, turns);
  }
}
