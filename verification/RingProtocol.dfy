/**
 The semaphore ring of chat/chat_system/data_pool/data_pool.h as it is meant to work, with
 one writer inside `getdata` and one reader inside `putdata`. Every statement of the two
 methods is one step, and the steps of the two threads interleave freely.
 */
module RingProtocol {
  import opened Arithmetic
  import opened Wrappers

  datatype WriterPc =
    | WWait            // before sem_wait(blank)
    | WStore(item: string)  // before pool[index1] = instr
    | WAdvance         // before index1++
    | WWrap            // before index1 %= cap
    | WPost            // before sem_post(data)

  datatype ReaderPc =
    | RWait            // before sem_wait(data)
    | RTake            // before outstr = pool[index2]
    | RAdvance         // before index2++
    | RWrap            // before index2 %= cap
    | RPost            // before sem_post(blank)

  datatype State = State(
    blank: nat, data: nat, index1: nat, index2: nat, pool: seq<string>,
    writer: WriterPc, reader: ReaderPc,
    written: seq<string>, read: seq<string>)  // histories: what was stored, what was taken

  // The writer's next statement; None while it is blocked.
  function WriterNext(s: State, item: string): Option<State> {
    match s.writer
    case WWait =>
      if s.blank == 0 then None else Some(s.(blank := s.blank - 1, writer := WStore(item)))
    case WStore(v) =>
      if s.index1 >= |s.pool| then None else
      Some(s.(pool := s.pool[s.index1 := v], written := s.written + [v], writer := WAdvance))
    case WAdvance =>
      Some(s.(index1 := s.index1 + 1, writer := WWrap))
    case WWrap =>
      if |s.pool| == 0 then None else Some(s.(index1 := s.index1 % |s.pool|, writer := WPost))
    case WPost =>
      Some(s.(data := s.data + 1, writer := WWait))
  }

  // The reader's next statement; None while it is blocked.
  function ReaderNext(s: State): Option<State> {
    match s.reader
    case RWait =>
      if s.data == 0 then None else Some(s.(data := s.data - 1, reader := RTake))
    case RTake =>
      if s.index2 >= |s.pool| then None else
      Some(s.(read := s.read + [s.pool[s.index2]], reader := RAdvance))
    case RAdvance =>
      Some(s.(index2 := s.index2 + 1, reader := RWrap))
    case RWrap =>
      if |s.pool| == 0 then None else Some(s.(index2 := s.index2 % |s.pool|, reader := RPost))
    case RPost =>
      Some(s.(blank := s.blank + 1, reader := RWait))
  }

  datatype Turn = WriterTurn(item: string) | ReaderTurn

  function Next(s: State, turn: Turn): Option<State> {
    match turn
    case WriterTurn(item) => WriterNext(s, item)
    case ReaderTurn => ReaderNext(s)
  }

  function Exec(s: State, turns: seq<Turn>): Option<State>
    decreases |turns|
  {
    if turns == [] then Some(s) else
    match Next(s, turns[0])
    case None => None
    case Some(s') => Exec(s', turns[1..])
  }

  ghost predicate Init(s: State) {
    && s.blank == |s.pool| && s.data == 0 && s.index1 == 0 && s.index2 == 0
    && s.writer == WWait && s.reader == RWait && s.written == [] && s.read == []
  }

  ghost predicate Reachable(s: State) {
    exists s0: State, turns: seq<Turn> :: Init(s0) && Exec(s0, turns) == Some(s)
  }

  // Operations between their sem_wait and their sem_post.
  function InFlight(s: State): nat {
    (if s.writer.WWait? then 0 else 1) + if s.reader.RWait? then 0 else 1
  }

  // Where an index variable stands while its thread has done `done` stores or takes.
  ghost predicate IndexOk(index: nat, done: nat, cap: nat, advance: bool, wrap: bool) {
    cap > 0 ==>
      if advance then done > 0 && index == (done - 1) % cap
      else if wrap then done > 0 && index == (done - 1) % cap + 1
      else index == done % cap
  }

  ghost predicate Counts(s: State) {
    && |s.read| <= |s.written|
    && s.blank + s.data + InFlight(s) == |s.pool|
    && |s.written| - |s.read|
       == s.data + (if s.writer.WWait? || s.writer.WStore? then 0 else 1) + (if s.reader.RTake? then 1 else 0)
  }

  ghost predicate Indices(s: State) {
    && IndexOk(s.index1, |s.written|, |s.pool|, s.writer.WAdvance?, s.writer.WWrap?)
    && IndexOk(s.index2, |s.read|, |s.pool|, s.reader.RAdvance?, s.reader.RWrap?)
  }

  // Every item stored and not yet taken sits in its slot of the window that starts at the reader.
  ghost predicate Window(s: State) {
    |s.pool| > 0 ==> forall i | |s.read| <= i < |s.written| :: s.pool[i % |s.pool|] == s.written[i]
  }

  ghost predicate Inv(s: State) {
    Counts(s) && Indices(s) && Window(s) && s.read <= s.written
  }

  // Fewer than cap apart means different slots.
  lemma ModDistinct(i: nat, j: nat, cap: nat)
    requires i < j < i + cap
    ensures i % cap != j % cap
  {
    var k := j / cap - i / cap;
    assert j - i == k * cap + (j % cap - i % cap);
    if k >= 1 {
      MulMonotone(1, k, cap);
    } else {
      MulMonotone(k, 0, cap);
    }
  }

  lemma ModSuccessor(n: nat, cap: nat)
    requires cap > 0
    ensures (n % cap + 1) % cap == (n + 1) % cap
  {
    var k := (n + 1) / cap - n / cap;
    assert n % cap + 1 == k * cap + (n + 1) % cap;
    if k < 0 {
      MulMonotone(k, -1, cap);
    } else if k > 1 {
      MulMonotone(2, k, cap);
    }
  }

  lemma WriterKeepsInv(s: State, item: string)
    requires Inv(s) && WriterNext(s, item).Some?
    ensures Inv(WriterNext(s, item).value)
  {
    var s' := WriterNext(s, item).value;
    match s.writer {
      case WStore(_) =>
        forall i | |s'.read| <= i < |s'.written|
          ensures s'.pool[i % |s.pool|] == s'.written[i]
        {
          if i < |s.written| {
            ModDistinct(i, |s.written|, |s.pool|);
          }
        }
      case WWrap =>
        if |s.pool| > 0 {
          ModSuccessor(|s.written| - 1, |s.pool|);
        }
      case _ =>
    }
  }

  lemma ReaderKeepsInv(s: State)
    requires Inv(s) && ReaderNext(s).Some?
    ensures Inv(ReaderNext(s).value)
  {
    match s.reader {
      case RWrap =>
        if |s.pool| > 0 {
          ModSuccessor(|s.read| - 1, |s.pool|);
        }
      case _ =>
    }
  }

  lemma {:induction false} ExecKeepsInv(s: State, turns: seq<Turn>)
    requires Inv(s) && Exec(s, turns).Some?
    ensures Inv(Exec(s, turns).value)
    decreases |turns|
  {
    if turns != [] {
      match turns[0] {
        case WriterTurn(item) => WriterKeepsInv(s, item);
        case ReaderTurn => ReaderKeepsInv(s);
      }
      ExecKeepsInv(Next(s, turns[0]).value, turns[1..]);
    }
  }

  lemma ReachableInv(s: State)
    requires Reachable(s)
    ensures Inv(s)
  {
    var s0: State, turns: seq<Turn> :| Init(s0) && Exec(s0, turns) == Some(s);
    ExecKeepsInv(s0, turns);
  }

  /** First in, first out: the reader has taken a prefix of what the writer stored, and the
      rest is in the cap-modular window. */
  lemma ReadIsPrefixOfWritten(s: State)
    requires Reachable(s)
    ensures s.read <= s.written && |s.written| - |s.read| <= |s.pool|
    ensures forall i | |s.read| <= i < |s.written| :: |s.pool| > 0 && s.pool[i % |s.pool|] == s.written[i]
  {
    ReachableInv(s);
  }

  /** The two threads never touch the same slot, and never one outside the pool. */
  lemma SlotsExclude(s: State)
    requires Reachable(s)
    ensures s.writer.WStore? ==> s.index1 < |s.pool|
    ensures s.reader.RTake? ==> s.index2 < |s.pool|
    ensures s.writer.WStore? && s.reader.RTake? ==> s.index1 != s.index2
  {
    ReachableInv(s);
    if s.writer.WStore? && s.reader.RTake? {
      ModDistinct(|s.read|, |s.written|, |s.pool|);
    }
  }

  /** Free permits, filled permits and operations in flight always add up to cap. */
  lemma PermitsConserved(s: State)
    requires Reachable(s)
    ensures s.blank + s.data + InFlight(s) == |s.pool|
  {
    ReachableInv(s);
  }

  /** A thread only ever blocks in its sem_wait; both do at once exactly when cap is 0. */
  lemma BothBlockedIffNoSlots(s: State, item: string)
    requires Reachable(s)
    ensures WriterNext(s, item).None? <==> s.writer.WWait? && s.blank == 0
    ensures ReaderNext(s).None? <==> s.reader.RWait? && s.data == 0
    ensures WriterNext(s, item).None? && ReaderNext(s).None? <==> |s.pool| == 0
  {
    ReachableInv(s);
  }

  // The bounded queue the ring stands for: what is stored and not yet taken.
  function Queue(s: State): seq<string>
    requires |s.read| <= |s.written|
  {
    s.written[|s.read|..]
  }

  /** Refinement: a step leaves the queue alone, appends the writer's item when there is
      room, or hands its first item to the reader. */
  lemma RefinesBoundedQueue(s: State, turn: Turn)
    requires Reachable(s) && Next(s, turn).Some?
    ensures var s' := Next(s, turn).value;
            && |s.read| <= |s.written| && |s'.read| <= |s'.written|
            && var q, q' := Queue(s), Queue(s');
               if turn.WriterTurn? && s.writer.WStore? then
                 |q| < |s.pool| && q' == q + [s.writer.item] && s'.read == s.read
               else if turn.ReaderTurn? && s.reader.RTake? then
                 q != [] && q' == q[1..] && s'.read == s.read + [q[0]]
               else
                 q' == q && s'.read == s.read
  {
    ReachableInv(s);
  }

  // Statements the reader still has to run to take everything that is posted.
  function ReaderWork(s: State): nat {
    5 * s.data + match s.reader case RWait => 0 case RTake => 4 case RAdvance => 3 case RWrap => 2 case RPost => 1
  }

  /** Nothing is stranded: whatever the writer does next, the reader alone can take all that has
      been posted, and then every permit that the writer does not hold is free again. */
  lemma {:induction false} ReaderDrains(s: State) returns (turns: seq<Turn>)
    requires Inv(s)
    ensures forall i | 0 <= i < |turns| :: turns[i] == ReaderTurn
    ensures Exec(s, turns).Some?
    ensures var t := Exec(s, turns).value;
            && Inv(t) && t.data == 0 && t.reader.RWait? && t.written == s.written && t.writer == s.writer
            && |t.written| - |t.read| == (if s.writer.WWait? || s.writer.WStore? then 0 else 1)
    decreases ReaderWork(s)
  {
    if s.reader.RWait? && s.data == 0 {
      turns := [];
    } else {
      ReaderKeepsInv(s);
      var rest := ReaderDrains(ReaderNext(s).value);
      turns := [ReaderTurn] + rest;
      assert turns[1..] == rest;
    }
  }
}
