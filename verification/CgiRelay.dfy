/**
 The second half of echo_cgi (myhttp/http/httpd.c): after the fork, the parent pumps the
 request body into the program's input pipe and then relays the output pipe to the client,
 while the child sends the response head itself and becomes the program. The two processes
 interleave freely; the pipes are bounded.
 */
module CgiRelay {
  import opened Wrappers

  const STATUS: string := "HTTP/1.0 200 OK\r\n"
  const BLANK: string := "\r\n"

  // What the program does, one byte at a time, before it exits.
  datatype Act = Read | Write(byte: char)

  // `input` is what the parent's for loop writes.
  datatype Job = Job(input: string, script: seq<Act>, inCap: nat, outCap: nat) {
    ghost predicate Valid() {
      inCap > 0 && outCap > 0
    }
  }

  datatype Stage = AtStatus | AtBlank | Running | Exited
  datatype Parent = Pumping | Relaying | Finished | Killed

  // `pipe` and `out` are what the input and the output pipe hold. `pos` counts the script's acts
  // that are done, `pumped` the turns of the parent's for loop; `heard` is what the program read.
  datatype State = State(
    stage: Stage, pos: nat, heard: string, out: string,
    parent: Parent, pumped: nat, pipe: string, client: string)

  const START := State(AtStatus, 0, "", "", Pumping, 0, "", "")

  // The child's next step; None while it is blocked or gone. The parent keeps its end of the
  // input pipe open until it is finished, so an empty pipe never reads as end of file.
  function ChildNext(job: Job, s: State): Option<State> {
    match s.stage
    case AtStatus => Some(s.(stage := AtBlank, client := s.client + STATUS))
    case AtBlank => Some(s.(stage := Running, client := s.client + BLANK))
    case Exited => None
    case Running =>
      if s.pos >= |job.script| then Some(s.(stage := Exited)) else
      match job.script[s.pos]
      case Read =>
        if s.pipe == "" then None
        else Some(s.(heard := s.heard + [s.pipe[0]], pipe := s.pipe[1..], pos := s.pos + 1))
      case Write(b) =>
        if |s.out| >= job.outCap then None else Some(s.(out := s.out + [b], pos := s.pos + 1))
  }

  // The parent's next step. Writing to a pipe nobody can read any more kills it (SIGPIPE).
  function ParentNext(job: Job, s: State): Option<State> {
    match s.parent
    case Pumping =>
      if s.pumped >= |job.input| then Some(s.(parent := Relaying))
      else if s.stage == Exited then Some(s.(parent := Killed))
      else if |s.pipe| >= job.inCap then None
      else Some(s.(pumped := s.pumped + 1, pipe := s.pipe + [job.input[s.pumped]]))
    case Relaying =>
      if s.out != "" then Some(s.(client := s.client + [s.out[0]], out := s.out[1..]))
      else if s.stage == Exited then Some(s.(parent := Finished))
      else None
    case _ => None
  }

  datatype Turn = ParentTurn | ChildTurn

  function Next(job: Job, s: State, turn: Turn): Option<State> {
    if s.parent == Killed then None
    else if turn.ParentTurn? then ParentNext(job, s)
    else ChildNext(job, s)
  }

  function Exec(job: Job, s: State, turns: seq<Turn>): Option<State>
    decreases |turns|
  {
    if turns == [] then Some(s) else
    match Next(job, s, turns[0])
    case None => None
    case Some(s') => Exec(job, s', turns[1..])
  }

  predicate Terminal(job: Job, s: State) {
    Next(job, s, ParentTurn).None? && Next(job, s, ChildTurn).None?
  }

  // Every interleaving that runs until nothing can move ends with the parent finished.
  ghost predicate AlwaysCompletes(job: Job) {
    forall turns :: Exec(job, START, turns).Some? && Terminal(job, Exec(job, START, turns).value)
                    ==> Exec(job, START, turns).value.parent == Finished
  }

  // Reads among the first k acts; the others are writes.
  function Reads(script: seq<Act>, k: nat): (n: nat)
    requires k <= |script|
    ensures n <= k
  {
    if k == 0 then 0 else Reads(script, k - 1) + if script[k - 1].Read? then 1 else 0
  }

  function Writes(script: seq<Act>, k: nat): nat
    requires k <= |script|
  {
    k - Reads(script, k)
  }

  function Output(script: seq<Act>, k: nat): (o: string)
    requires k <= |script|
    ensures |o| == Writes(script, k)
  {
    if k == 0 then "" else
    Output(script, k - 1) + match script[k - 1] case Read => "" case Write(b) => [b]
  }

  // Act k cannot be the one at which the two processes block each other.
  ghost predicate ActOk(job: Job, k: nat)
    requires k < |job.script|
  {
    if job.script[k].Read? then
      Reads(job.script, k) < |job.input|
    else
      Writes(job.script, k) < job.outCap || |job.input| <= Reads(job.script, k) + job.inCap
  }

  /** What a program has to do for the relay to complete in every interleaving: never read past
      its input; not fill the output pipe while more of its input is due than the input pipe
      holds; and either read all of its input or write more than the output pipe holds. */
  ghost predicate Compatible(job: Job) {
    && (forall k | 0 <= k < |job.script| :: ActOk(job, k))
    && (Reads(job.script, |job.script|) == |job.input| || Writes(job.script, |job.script|) > job.outCap)
  }

  // --- Invariant ---

  ghost predicate ChildInv(job: Job, s: State) {
    && s.pos <= |job.script|
    && |s.heard| == Reads(job.script, s.pos)
    && (s.stage.AtStatus? || s.stage.AtBlank? ==> s.pos == 0)
    && (s.stage.Exited? ==> s.pos == |job.script|)
    && (forall k | 0 <= k < s.pos :: ActOk(job, k))
  }

  ghost predicate PipeInv(job: Job, s: State) {
    && |s.heard| + |s.pipe| == s.pumped <= |job.input| && |s.pipe| <= job.inCap
    && |s.out| <= job.outCap
    && (s.parent.Relaying? || s.parent.Finished? ==> s.pumped == |job.input|)
    && (s.parent.Finished? ==> s.stage.Exited? && s.out == "")
    && (s.parent.Killed? ==> s.stage.Exited? && s.pumped < |job.input|)
  }

  ghost predicate ClientInv(job: Job, s: State)
    requires s.pos <= |job.script|
  {
    match s.stage
    case AtStatus => s.client == "" && s.out == ""
    case AtBlank => s.client == STATUS && s.out == ""
    case _ =>
      && STATUS + BLANK <= s.client
      && s.client + s.out == STATUS + BLANK + Output(job.script, s.pos)
      && (s.parent.Pumping? || s.parent.Killed? ==> s.client == STATUS + BLANK)
  }

  ghost predicate Inv(job: Job, s: State) {
    job.Valid() && ChildInv(job, s) && PipeInv(job, s) && ClientInv(job, s)
  }

  // While the parent has not started to relay, all that was written is in the pipe.
  lemma OutCount(job: Job, s: State)
    requires Inv(job, s)
    ensures |s.out| <= Writes(job.script, s.pos)
    ensures s.parent.Pumping? || s.parent.Killed? ==> |s.out| == Writes(job.script, s.pos)
  {
    if s.stage.Running? || s.stage.Exited? {
      assert |s.client| + |s.out| == |STATUS + BLANK| + Writes(job.script, s.pos);
    }
  }

  lemma ChildKeepsInv(job: Job, s: State)
    requires Inv(job, s) && Next(job, s, ChildTurn).Some?
    ensures Inv(job, Next(job, s, ChildTurn).value)
  {
    var s' := Next(job, s, ChildTurn).value;
    if s.stage.Running? && s.pos < |job.script| {
      OutCount(job, s);
      assert ActOk(job, s.pos);
      if job.script[s.pos].Write? {
        assert s'.client + s'.out == (s.client + s.out) + [job.script[s.pos].byte];
      }
    }
  }

  lemma ParentKeepsInv(job: Job, s: State)
    requires Inv(job, s) && Next(job, s, ParentTurn).Some?
    ensures Inv(job, Next(job, s, ParentTurn).value)
  {
    var s' := Next(job, s, ParentTurn).value;
    if s.parent.Relaying? && s.out != "" {
      assert s'.client + s'.out == s.client + s.out;
    }
  }

  lemma {:induction false} ExecKeepsInv(job: Job, s: State, turns: seq<Turn>)
    requires Inv(job, s) && Exec(job, s, turns).Some?
    ensures Inv(job, Exec(job, s, turns).value)
    decreases |turns|
  {
    if turns != [] {
      if turns[0].ChildTurn? { ChildKeepsInv(job, s); } else { ParentKeepsInv(job, s); }
      ExecKeepsInv(job, Next(job, s, turns[0]).value, turns[1..]);
    }
  }

  lemma {:induction false} OutputPrefix(script: seq<Act>, k: nat, n: nat)
    requires k <= n <= |script|
    ensures Output(script, k) <= Output(script, n)
  {
    if k < n {
      OutputPrefix(script, k, n - 1);
    }
  }

  lemma ClientPrefix(job: Job, s: State)
    requires Inv(job, s)
    ensures var sent := STATUS + BLANK + Output(job.script, s.pos);
            s.client <= sent && (s.parent.Finished? ==> s.client == sent)
  {
    if s.stage.AtBlank? {
      assert STATUS + BLANK + Output(job.script, s.pos) == STATUS + (BLANK + Output(job.script, s.pos));
    } else if s.stage.Running? || s.stage.Exited? {
      assert s.client <= s.client + s.out;
      assert s.out == "" ==> s.client + s.out == s.client;
    }
  }

  // Each byte the program writes stands at its place among all it writes.
  lemma {:induction false} OutputHasEachByte(script: seq<Act>, k: nat, n: nat)
    requires k < n <= |script| && script[k].Write?
    ensures Writes(script, k) < Writes(script, n)
    ensures Output(script, n)[Writes(script, k)] == script[k].byte
  {
    if k < n - 1 {
      OutputHasEachByte(script, k, n - 1);
      assert Output(script, n - 1) <= Output(script, n);
    }
  }

  // The bytes the script writes, all of them, each at its place, and nothing else.
  ghost predicate IsOutput(script: seq<Act>, out: string) {
    && |out| == Writes(script, |script|)
    && forall k | 0 <= k < |script| && script[k].Write? ::
         Writes(script, k) < |out| && out[Writes(script, k)] == script[k].byte
  }

  // The answer to a request: the head, then what the program writes.
  ghost predicate IsResponse(script: seq<Act>, text: string) {
    var head := "HTTP/1.0 200 OK\r\n\r\n";
    head <= text && IsOutput(script, text[|head|..])
  }

  lemma WholeIsResponse(script: seq<Act>)
    ensures IsResponse(script, STATUS + BLANK + Output(script, |script|))
  {
    var out := Output(script, |script|);
    forall k | 0 <= k < |script| && script[k].Write?
      ensures Writes(script, k) < |out| && out[Writes(script, k)] == script[k].byte
    {
      OutputHasEachByte(script, k, |script|);
    }
    assert STATUS + BLANK == "HTTP/1.0 200 OK\r\n\r\n";
    assert (STATUS + BLANK + out)[|STATUS + BLANK|..] == out;
  }

  /** In every interleaving the client gets a part of the response, from its start and in order;
      and when the parent is finished, all of it. The response is the head and then each byte that
      the program writes. */
  lemma ClientSeesHeadThenOutput(job: Job, turns: seq<Turn>)
    requires job.Valid() && Exec(job, START, turns).Some?
    ensures var s := Exec(job, START, turns).value;
            var whole := STATUS + BLANK + Output(job.script, |job.script|);
            IsResponse(job.script, whole) && s.client <= whole && (s.parent.Finished? ==> s.client == whole)
  {
    var s := Exec(job, START, turns).value;
    ExecKeepsInv(job, START, turns);
    ClientPrefix(job, s);
    OutputPrefix(job.script, s.pos, |job.script|);
    WholeIsResponse(job.script);
    var head := STATUS + BLANK;
    assert head + Output(job.script, s.pos) <= head + Output(job.script, |job.script|);
  }

  // --- The input side ---

  // What was read and what is in the pipe is what the for loop has written, in order.
  ghost predicate InputInv(job: Job, s: State) {
    s.pumped <= |job.input| && s.heard + s.pipe == job.input[..s.pumped]
  }

  lemma {:induction false} ExecKeepsInput(job: Job, s: State, turns: seq<Turn>)
    requires InputInv(job, s) && Exec(job, s, turns).Some?
    ensures InputInv(job, Exec(job, s, turns).value)
    decreases |turns|
  {
    if turns != [] {
      StepKeepsInput(job, s, turns[0]);
      ExecKeepsInput(job, Next(job, s, turns[0]).value, turns[1..]);
    }
  }

  lemma StepKeepsInput(job: Job, s: State, turn: Turn)
    requires InputInv(job, s) && Next(job, s, turn).Some?
    ensures InputInv(job, Next(job, s, turn).value)
  {
    var s' := Next(job, s, turn).value;
    if s'.pipe != s.pipe {
      if turn.ChildTurn? {
        assert s'.heard + s'.pipe == s.heard + ([s.pipe[0]] + s.pipe[1..]);
      } else {
        assert s'.heard + s'.pipe == (s.heard + s.pipe) + [job.input[s.pumped]];
      }
    }
  }

  /** In every interleaving the program has read the first bytes of its input, in order, one for
      each of its reads. */
  lemma ProgramHearsInput(job: Job, turns: seq<Turn>)
    requires job.Valid() && Exec(job, START, turns).Some?
    ensures var s := Exec(job, START, turns).value;
            && s.pos <= |job.script| && Reads(job.script, s.pos) <= |job.input|
            && s.heard == job.input[..Reads(job.script, s.pos)]
  {
    var s := Exec(job, START, turns).value;
    ExecKeepsInv(job, START, turns);
    ExecKeepsInput(job, START, turns);
    assert s.heard == (s.heard + s.pipe)[..|s.heard|];
  }

  // --- Every run ends ---

  function Measure(job: Job, s: State): int {
    (|job.script| - s.pos) * 2
    + (match s.stage case AtStatus => 3 case AtBlank => 2 case Running => 1 case Exited => 0)
    + (|job.input| - s.pumped) + |s.out|
    + (match s.parent case Pumping => 2 case Relaying => 1 case _ => 0)
  }

  lemma StepsDecrease(job: Job, s: State, turn: Turn)
    requires Inv(job, s) && Next(job, s, turn).Some?
    ensures Measure(job, Next(job, s, turn).value) < Measure(job, s)
  {
  }

  /** No interleaving goes on for ever: its length is bounded by the job. */
  lemma {:induction false} RunsAreBounded(job: Job, s: State, turns: seq<Turn>)
    requires Inv(job, s) && Exec(job, s, turns).Some?
    ensures |turns| <= Measure(job, s)
    decreases |turns|
  {
    if turns == [] {
      assert Measure(job, s) >= 0;
    } else {
      var s' := Next(job, s, turns[0]).value;
      StepsDecrease(job, s, turns[0]);
      if turns[0].ChildTurn? { ChildKeepsInv(job, s); } else { ParentKeepsInv(job, s); }
      RunsAreBounded(job, s', turns[1..]);
    }
  }

  // --- Compatible programs never get stuck ---

  lemma CompatibleCompletes(job: Job, s: State)
    requires Compatible(job) && Inv(job, s) && Terminal(job, s)
    ensures s.parent.Finished?
  {
    OutCount(job, s);
    assert s.pos < |job.script| ==> ActOk(job, s.pos);
  }

  // --- And no others are safe: the schedule that lets the child run first finds the flaw ---

  function Lazy(job: Job, s: State): Turn {
    if Next(job, s, ChildTurn).Some? then ChildTurn else ParentTurn
  }

  ghost predicate LazyInv(job: Job, s: State)
    requires s.pos <= |job.script|
  {
    && (s.parent.Pumping? && s.pipe != "" ==>
          s.stage.Running? && s.pos < |job.script| &&
          if job.script[s.pos].Read? then |s.pipe| == 1 else |s.out| == job.outCap)
    && (s.parent.Relaying? || s.parent.Finished? ==>
          || |s.heard| == |job.input|
          || Writes(job.script, s.pos) > job.outCap
          || (Writes(job.script, s.pos) == job.outCap && s.pos < |job.script| && job.script[s.pos].Write?))
  }

  lemma LazyKeepsInv(job: Job, s: State)
    requires Inv(job, s) && LazyInv(job, s) && Next(job, s, Lazy(job, s)).Some?
    ensures var s' := Next(job, s, Lazy(job, s)).value; Inv(job, s') && LazyInv(job, s')
  {
    OutCount(job, s);
    if Lazy(job, s).ChildTurn? { ChildKeepsInv(job, s); } else { ParentKeepsInv(job, s); }
  }

  lemma {:induction false} LazyRun(job: Job, s: State) returns (turns: seq<Turn>)
    requires Inv(job, s) && LazyInv(job, s)
    ensures Exec(job, s, turns).Some?
    ensures var t := Exec(job, s, turns).value; Inv(job, t) && LazyInv(job, t) && Terminal(job, t)
    decreases Measure(job, s)
  {
    if Terminal(job, s) {
      turns := [];
    } else {
      var turn := Lazy(job, s);
      LazyKeepsInv(job, s);
      StepsDecrease(job, s, turn);
      var rest := LazyRun(job, Next(job, s, turn).value);
      turns := [turn] + rest;
      assert turns[1..] == rest;
    }
  }

  /** The relay completes in every interleaving if and only if the program is compatible. */
  lemma CompletesIffCompatible(job: Job)
    requires job.Valid()
    ensures AlwaysCompletes(job) <==> Compatible(job)
  {
    if Compatible(job) {
      forall turns | Exec(job, START, turns).Some? && Terminal(job, Exec(job, START, turns).value)
        ensures Exec(job, START, turns).value.parent == Finished
      {
        ExecKeepsInv(job, START, turns);
        CompatibleCompletes(job, Exec(job, START, turns).value);
      }
    }
    if AlwaysCompletes(job) {
      var turns := LazyRun(job, START);
      assert Exec(job, START, turns).value.parent == Finished;
    }
  }

  /** One way to fail: a program that reads once too often, with no input to come. Child and
      parent wait for each other, since the parent does not close the pipe it reads from. */
  lemma BlocksForEver()
    ensures var job := Job("", [Read], 1, 1); var turns := [ChildTurn, ChildTurn, ParentTurn];
            && Exec(job, START, turns).Some? && Terminal(job, Exec(job, START, turns).value)
            && Exec(job, START, turns).value.parent == Relaying
            && !Compatible(job) && !AlwaysCompletes(job)
  {
    var job := Job("", [Read], 1, 1);
    var turns := [ChildTurn, ChildTurn, ParentTurn];
    assert turns[1..] == [ChildTurn, ParentTurn] && turns[1..][1..] == [ParentTurn] && turns[1..][1..][1..] == [];
    assert job.script[0].Read? && !ActOk(job, 0);
  }

  /** Another: a program that exits with input unread. The parent writes to a pipe without a
      reader and is killed. */
  lemma DiesOfSigpipe()
    ensures var job := Job("x", [], 1, 1); var turns := [ChildTurn, ChildTurn, ChildTurn, ParentTurn];
            && Exec(job, START, turns).Some? && Terminal(job, Exec(job, START, turns).value)
            && Exec(job, START, turns).value.parent == Killed
            && !Compatible(job) && !AlwaysCompletes(job)
  {
    var job := Job("x", [], 1, 1);
    var turns := [ChildTurn, ChildTurn, ChildTurn, ParentTurn];
    assert turns[1..] == [ChildTurn, ChildTurn, ParentTurn];
    assert turns[1..][1..] == [ChildTurn, ParentTurn];
    assert turns[1..][1..][1..] == [ParentTurn];
    assert turns[1..][1..][1..][1..] == [];
  }

  /** A third: a program that answers while more of its input is due than the input pipe holds.
      Both pipes are full, and each process waits for the other to empty one. */
  lemma BothPipesFull()
    ensures var job := Job("xy", [Write('a'), Write('b'), Read, Read], 1, 1);
            var turns := [ChildTurn, ChildTurn, ChildTurn, ParentTurn];
            && Exec(job, START, turns).Some? && Terminal(job, Exec(job, START, turns).value)
            && Exec(job, START, turns).value.parent == Pumping
            && !Compatible(job) && !AlwaysCompletes(job)
  {
    var job := Job("xy", [Write('a'), Write('b'), Read, Read], 1, 1);
    var turns := [ChildTurn, ChildTurn, ChildTurn, ParentTurn];
    var s1 := START.(stage := AtBlank, client := STATUS);
    var s2 := s1.(stage := Running, client := STATUS + BLANK);
    var s3 := s2.(out := "a", pos := 1);
    var s4 := s3.(pumped := 1, pipe := "x");
    assert START.client + STATUS == STATUS && s2.out + ['a'] == "a";
    assert s3.pipe + [job.input[0]] == "x";
    assert turns[1..][1..][1..][1..] == [];
    assert Exec(job, s3, turns[1..][1..][1..]) == Some(s4);
    assert Exec(job, s1, turns[1..]) == Some(s4);
    assert Reads(job.script, 1) == 0 && !ActOk(job, 1);
  }

  // A program that reads its whole input before it writes anything.
  ghost predicate ReadsThenWrites(job: Job) {
    && |job.script| >= |job.input|
    && forall k | 0 <= k < |job.script| :: job.script[k].Read? <==> k < |job.input|
  }

  lemma {:induction false} ReadsOfPrefix(job: Job, k: nat)
    requires ReadsThenWrites(job) && k <= |job.script|
    ensures Reads(job.script, k) == if k < |job.input| then k else |job.input|
  {
    if k > 0 {
      ReadsOfPrefix(job, k - 1);
    }
  }

  /** A CGI program that reads exactly the announced bytes and then answers is always served,
      however small the pipes. */
  lemma WellBehavedProgramIsServed(job: Job)
    requires job.Valid() && ReadsThenWrites(job)
    ensures AlwaysCompletes(job)
  {
    forall k | 0 <= k < |job.script|
      ensures ActOk(job, k)
    {
      ReadsOfPrefix(job, k);
    }
    ReadsOfPrefix(job, |job.script|);
    CompletesIffCompatible(job);
  }

  /** And in the end it has read all of its input. */
  lemma WellBehavedProgramHearsAll(job: Job, turns: seq<Turn>)
    requires job.Valid() && ReadsThenWrites(job)
    requires Exec(job, START, turns).Some? && Terminal(job, Exec(job, START, turns).value)
    ensures Exec(job, START, turns).value.heard == job.input
  {
    WellBehavedProgramIsServed(job);
    ExecKeepsInv(job, START, turns);
    ProgramHearsInput(job, turns);
    ReadsOfPrefix(job, |job.script|);
  }
}
