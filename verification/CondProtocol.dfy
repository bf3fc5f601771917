/**
 The two thread functions of Cond/producer_consumer.c as an interleaved step system: any
 number of threads share one mutex, one condition variable and the list. A step is one
 atomic piece of one thread; `Choice` is what the thread cannot decide by itself.
 */
module CondProtocol {
  import opened Wrappers

  // Where a thread stands. `woken` tells a consumer that came back from pthread_cond_wait
  // from one that is in its first test of the loop condition.
  datatype Pc =
    | PStart                // before pthread_mutex_lock
    | PHolds(data: int)     // mutex held, before Push_head
    | PPushed               // mutex held, before pthread_mutex_unlock
    | PSignal               // mutex released, before pthread_cond_signal
    | CStart                // before pthread_mutex_lock
    | CTest(woken: bool)    // mutex held, before the IsEmpty test
    | CWait                 // mutex held, saw an empty list, before pthread_cond_wait
    | CAsleep               // inside pthread_cond_wait, mutex released
    | CWoken                // unblocked, still inside pthread_cond_wait, needs the mutex
    | CPop(woken: bool)     // mutex held, saw a non-empty list, before Pop_head
    | CPopped               // mutex held, before pthread_mutex_unlock

  datatype Event = Pushed(value: int) | Popped(value: int)

  datatype State = State(threads: seq<Pc>, holder: Option<nat>, list: seq<int>, log: seq<Event>)

  // `data`: what rand() gives a producer. `wakes`: the threads a signal unblocks.
  datatype Choice = Choice(data: int, wakes: set<nat>)

  predicate HoldsMutex(pc: Pc) {
    pc.PHolds? || pc.PPushed? || pc.CTest? || pc.CWait? || pc.CPop? || pc.CPopped?
  }

  predicate IsConsumer(pc: Pc) {
    pc.CStart? || pc.CTest? || pc.CWait? || pc.CAsleep? || pc.CWoken? || pc.CPop? || pc.CPopped?
  }

  // A producer that has pushed and still owes its signal.
  predicate OwesSignal(pc: Pc) {
    pc.PPushed? || pc.PSignal?
  }

  // A consumer that a signal (or nothing at all) woke and that has not popped yet.
  predicate WokenNotPopped(pc: Pc) {
    pc.CWoken? || (pc.CTest? && pc.woken) || (pc.CPop? && pc.woken)
  }

  predicate SomeoneAsleep(threads: seq<Pc>) {
    exists t :: 0 <= t < |threads| && threads[t].CAsleep?
  }

  function Move(s: State, t: nat, pc: Pc): State
    requires t < |s.threads|
  {
    s.(threads := s.threads[t := pc])
  }

  function Wake(threads: seq<Pc>, wakes: set<nat>): seq<Pc> {
    seq(|threads|, i requires 0 <= i < |threads| => if i in wakes then CWoken else threads[i])
  }

  // pthread_cond_signal unblocks sleepers only, and at least one if there is any.
  predicate LegalSignal(threads: seq<Pc>, wakes: set<nat>) {
    && (forall w | w in wakes :: w < |threads| && threads[w].CAsleep?)
    && (SomeoneAsleep(threads) ==> wakes != {})
  }

  // One step of thread t; None when it is blocked or the choice is not one it can make.
  // Scheduling a sleeper is a spurious wakeup.
  ghost function Next(s: State, t: nat, c: Choice): Option<State> {
    if t >= |s.threads| then None else
    match s.threads[t]
    case PStart =>
      if s.holder.Some? then None else Some(Move(s, t, PHolds(c.data)).(holder := Some(t)))
    case PHolds(data) =>
      Some(Move(s, t, PPushed).(list := [data] + s.list, log := s.log + [Pushed(data)]))
    case PPushed =>
      Some(Move(s, t, PSignal).(holder := None))
    case PSignal =>
      if !LegalSignal(s.threads, c.wakes) then None else
      Some(s.(threads := Wake(s.threads, c.wakes)[t := PStart]))
    case CStart =>
      if s.holder.Some? then None else Some(Move(s, t, CTest(false)).(holder := Some(t)))
    case CTest(woken) =>
      Some(Move(s, t, if s.list == [] then CWait else CPop(woken)))
    case CWait =>
      Some(Move(s, t, CAsleep).(holder := None))
    case CAsleep =>
      Some(Move(s, t, CWoken))
    case CWoken =>
      if s.holder.Some? then None else Some(Move(s, t, CTest(true)).(holder := Some(t)))
    case CPop(_) =>
      // Pop_head on an empty list would leave `data` at 0 and pop nothing.
      if s.list == [] then Some(Move(s, t, CPopped)) else
      Some(Move(s, t, CPopped).(list := s.list[1..], log := s.log + [Popped(s.list[0])]))
    case CPopped =>
      Some(Move(s, t, CStart).(holder := None))
  }

  // A schedule: who moves, with which choice.
  ghost function Exec(s: State, schedule: seq<(nat, Choice)>): Option<State>
    decreases |schedule|
  {
    if schedule == [] then Some(s) else
    match Next(s, schedule[0].0, schedule[0].1)
    case None => None
    case Some(s') => Exec(s', schedule[1..])
  }

  // The requests of a schedule that find their thread able to run, each blocked one skipped.
  ghost function Granted(s: State, requests: seq<(nat, Choice)>): seq<(nat, Choice)>
    decreases |requests|
  {
    if requests == [] then [] else
    match Next(s, requests[0].0, requests[0].1)
    case None => Granted(s, requests[1..])
    case Some(s') => [requests[0]] + Granted(s', requests[1..])
  }

  lemma {:induction false} GrantedRuns(s: State, requests: seq<(nat, Choice)>)
    ensures Exec(s, Granted(s, requests)).Some?
    decreases |requests|
  {
    if requests != [] {
      var (t, c) := requests[0];
      if Next(s, t, c).Some? {
        var s' := Next(s, t, c).value;
        GrantedRuns(s', requests[1..]);
        assert Granted(s, requests)[1..] == Granted(s', requests[1..]);
      } else {
        GrantedRuns(s, requests[1..]);
      }
    }
  }

  // The state after the granted requests.
  ghost function After(s: State, requests: seq<(nat, Choice)>): State {
    GrantedRuns(s, requests);
    Exec(s, Granted(s, requests)).value
  }

  lemma AfterStep(s: State, requests: seq<(nat, Choice)>)
    requires requests != []
    ensures var next := Next(s, requests[0].0, requests[0].1);
            After(s, requests) == After(if next.Some? then next.value else s, requests[1..])
  {
    var next := Next(s, requests[0].0, requests[0].1);
    if next.Some? {
      assert Granted(s, requests)[1..] == Granted(next.value, requests[1..]);
    }
  }

  ghost predicate Init(s: State) {
    && (forall t | 0 <= t < |s.threads| :: s.threads[t].PStart? || s.threads[t].CStart?)
    && s.holder == None && s.list == [] && s.log == []
  }

  // What the log says a stack would hold: None if a pop does not take the top.
  ghost function Replay(log: seq<Event>): Option<seq<int>> {
    if log == [] then Some([]) else
    match Replay(log[..|log| - 1])
    case None => None
    case Some(stack) =>
      match log[|log| - 1]
      case Pushed(v) => Some([v] + stack)
      case Popped(v) => if stack != [] && stack[0] == v then Some(stack[1..]) else None
  }

  // How many signals are owed plus how many woken consumers have not popped yet.
  function Credits(threads: seq<Pc>): nat {
    if threads == [] then 0 else
    Credits(threads[..|threads| - 1]) + Credit(threads[|threads| - 1])
  }

  function Credit(pc: Pc): nat {
    if OwesSignal(pc) || WokenNotPopped(pc) then 1 else 0
  }

  ghost predicate MutexOk(s: State) {
    && (forall t | 0 <= t < |s.threads| :: HoldsMutex(s.threads[t]) <==> s.holder == Some(t))
    && (s.holder.Some? ==> s.holder.value < |s.threads|)
  }

  // What a consumer learnt from its test still holds while it keeps the mutex.
  ghost predicate TestsOk(s: State) {
    && (forall t | 0 <= t < |s.threads| :: s.threads[t].CPop? ==> s.list != [])
    && (forall t | 0 <= t < |s.threads| :: s.threads[t].CWait? ==> s.list == [])
  }

  ghost predicate Inv(s: State) {
    && MutexOk(s)
    && TestsOk(s)
    && (SomeoneAsleep(s.threads) ==> |s.list| <= Credits(s.threads))
    && Replay(s.log) == Some(s.list)
  }

  lemma {:induction false} CreditsUpdate(threads: seq<Pc>, t: nat, pc: Pc)
    requires t < |threads|
    ensures Credits(threads[t := pc]) == Credits(threads) - Credit(threads[t]) + Credit(pc)
  {
    var n := |threads| - 1;
    if t == n {
      assert threads[t := pc][..n] == threads[..n];
    } else {
      assert threads[t := pc][..n] == threads[..n][t := pc];
      CreditsUpdate(threads[..n], t, pc);
    }
  }

  // Each sleeper a signal unblocks adds a credit.
  lemma {:induction false} CreditsWake(threads: seq<Pc>, wakes: set<nat>)
    requires forall w | w in wakes && w < |threads| :: threads[w].CAsleep?
    ensures Credits(Wake(threads, wakes)) >= Credits(threads)
    ensures (exists w :: w in wakes && w < |threads|) ==> Credits(Wake(threads, wakes)) > Credits(threads)
  {
    if threads != [] {
      var n := |threads| - 1;
      assert Wake(threads, wakes)[..n] == Wake(threads[..n], wakes);
      CreditsWake(threads[..n], wakes);
    }
  }

  lemma StepKeepsMutex(s: State, t: nat, c: Choice)
    requires MutexOk(s) && Next(s, t, c).Some?
    ensures MutexOk(Next(s, t, c).value)
  {
  }

  lemma StepKeepsTests(s: State, t: nat, c: Choice)
    requires MutexOk(s) && TestsOk(s) && Next(s, t, c).Some?
    ensures TestsOk(Next(s, t, c).value)
  {
  }

  lemma StepKeepsCredits(s: State, t: nat, c: Choice)
    requires Inv(s) && Next(s, t, c).Some?
    ensures var s' := Next(s, t, c).value; SomeoneAsleep(s'.threads) ==> |s'.list| <= Credits(s'.threads)
  {
    var s' := Next(s, t, c).value;
    if SomeoneAsleep(s'.threads) && !s.threads[t].CWait? {
      var u :| 0 <= u < |s'.threads| && s'.threads[u].CAsleep?;
      assert s.threads[u].CAsleep?;
      if s.threads[t].PSignal? {
        CreditsWake(s.threads, c.wakes);
        CreditsUpdate(Wake(s.threads, c.wakes), t, PStart);
      } else {
        CreditsUpdate(s.threads, t, s'.threads[t]);
      }
    }
  }

  lemma StepKeepsLog(s: State, t: nat, c: Choice)
    requires Inv(s) && Next(s, t, c).Some?
    ensures var s' := Next(s, t, c).value; Replay(s'.log) == Some(s'.list)
  {
    var s' := Next(s, t, c).value;
    if s'.log != s.log {
      assert s'.log[..|s'.log| - 1] == s.log;
    }
  }

  lemma StepKeepsInv(s: State, t: nat, c: Choice)
    requires Inv(s) && Next(s, t, c).Some?
    ensures Inv(Next(s, t, c).value)
  {
    StepKeepsMutex(s, t, c);
    StepKeepsTests(s, t, c);
    StepKeepsCredits(s, t, c);
    StepKeepsLog(s, t, c);
  }

  lemma {:induction false} ExecKeepsInv(s: State, schedule: seq<(nat, Choice)>)
    requires Inv(s) && Exec(s, schedule).Some?
    ensures Inv(Exec(s, schedule).value)
    decreases |schedule|
  {
    if schedule != [] {
      StepKeepsInv(s, schedule[0].0, schedule[0].1);
      ExecKeepsInv(Next(s, schedule[0].0, schedule[0].1).value, schedule[1..]);
    }
  }

  lemma InitInv(s: State)
    requires Init(s)
    ensures Inv(s)
  {
  }

  ghost predicate Reachable(s: State) {
    exists s0, schedule :: Init(s0) && Exec(s0, schedule) == Some(s)
  }

  lemma ReachableInv(s: State)
    requires Reachable(s)
    ensures Inv(s)
  {
    var s0, schedule :| Init(s0) && Exec(s0, schedule) == Some(s);
    InitInv(s0);
    ExecKeepsInv(s0, schedule);
  }

  /** No lost wakeup: while somebody sleeps, every listed value has a credit. */
  lemma NoLostWakeup(s: State)
    requires Reachable(s)
    ensures SomeoneAsleep(s.threads) ==> |s.list| <= Credits(s.threads)
    ensures s.list != [] && SomeoneAsleep(s.threads) ==>
              exists t :: 0 <= t < |s.threads| && (OwesSignal(s.threads[t]) || WokenNotPopped(s.threads[t]))
  {
    ReachableInv(s);
    NoCredits(s.threads);
  }

  lemma {:induction false} NoCredits(threads: seq<Pc>)
    ensures Credits(threads) > 0 ==>
              exists t :: 0 <= t < |threads| && (OwesSignal(threads[t]) || WokenNotPopped(threads[t]))
  {
    if threads != [] {
      var n := |threads| - 1;
      NoCredits(threads[..n]);
      if Credits(threads[..n]) > 0 {
        var t :| 0 <= t < n && (OwesSignal(threads[..n][t]) || WokenNotPopped(threads[..n][t]));
        assert threads[t] == threads[..n][t];
      } else if Credits(threads) > 0 {
        assert Credit(threads[n]) > 0;
      }
    }
  }

  /** Mutual exclusion, and Pop_head is only reached with something to pop. */
  lemma MutexExcludes(s: State, t: nat, u: nat)
    requires Reachable(s) && t < u < |s.threads|
    ensures !(HoldsMutex(s.threads[t]) && HoldsMutex(s.threads[u]))
    ensures s.threads[t].CPop? ==> s.list != []
    ensures s.threads[u].CPop? ==> s.list != []
  {
    ReachableInv(s);
  }

  function Pushes(log: seq<Event>): seq<int> {
    if log == [] then [] else
    Pushes(log[..|log| - 1]) + if log[|log| - 1].Pushed? then [log[|log| - 1].value] else []
  }

  function Pops(log: seq<Event>): seq<int> {
    if log == [] then [] else
    Pops(log[..|log| - 1]) + if log[|log| - 1].Popped? then [log[|log| - 1].value] else []
  }

  lemma {:induction false} ReplayConserves(log: seq<Event>)
    requires Replay(log).Some?
    ensures multiset(Pushes(log)) == multiset(Pops(log)) + multiset(Replay(log).value)
  {
    if log != [] {
      var n := |log| - 1;
      ReplayConserves(log[..n]);
      var stack := Replay(log[..n]).value;
      if log[n].Popped? {
        assert stack == [stack[0]] + stack[1..];
      }
    }
  }

  /** Nothing is lost or invented: what was pushed is what was popped plus what is linked. */
  lemma Conservation(s: State)
    requires Reachable(s)
    ensures multiset(Pushes(s.log)) == multiset(Pops(s.log)) + multiset(s.list)
  {
    ReachableInv(s);
    ReplayConserves(s.log);
  }

  // The run never starts a new production and never needs a spurious wakeup.
  ghost predicate Unaided(s: State, schedule: seq<(nat, Choice)>)
    decreases |schedule|
  {
    schedule == [] ||
    var (t, c) := schedule[0];
    && t < |s.threads| && !s.threads[t].PStart? && !s.threads[t].CAsleep?
    && Next(s, t, c).Some? && Unaided(Next(s, t, c).value, schedule[1..])
  }

  ghost predicate HasConsumer(s: State) {
    exists t :: 0 <= t < |s.threads| && IsConsumer(s.threads[t])
  }

  ghost predicate Ready(s: State) {
    exists t :: 0 <= t < |s.threads| && (s.threads[t].CStart? || s.threads[t].CWoken?)
  }

  // Values listed or about to be pushed by the holder of the mutex.
  ghost function Work(s: State): nat
    requires Inv(s)
  {
    |s.list| + if s.holder.Some? && s.threads[s.holder.value].PHolds? then 1 else 0
  }

  // How far the next pop is away.
  ghost function Distance(s: State): nat
    requires Inv(s)
  {
    if s.holder.None? then (if Ready(s) then 2 else 3) else
    match s.threads[s.holder.value]
    case CPop(_) => 0
    case CTest(_) => 1
    case PHolds(_) => 5
    case _ => 4
  }

  // The thread to run next: the holder; else a consumer that wants the mutex; else, since the
  // list has credits, a producer that owes its signal.
  lemma Helper(s: State) returns (t: nat, c: Choice)
    requires Inv(s) && s.list != [] && HasConsumer(s)
    ensures t < |s.threads| && !s.threads[t].PStart? && !s.threads[t].CAsleep?
    ensures Next(s, t, c).Some?
    ensures s.holder.Some? ==> s.holder.value == t
    ensures s.holder.None? && Ready(s) ==> s.threads[t].CStart? || s.threads[t].CWoken?
    ensures s.holder.None? && !Ready(s) ==> s.threads[t].PSignal? && c.wakes != {}
  {
    c := Choice(0, set w | 0 <= w < |s.threads| && s.threads[w].CAsleep?);
    if s.holder.Some? {
      t := s.holder.value;
    } else if Ready(s) {
      t :| 0 <= t < |s.threads| && (s.threads[t].CStart? || s.threads[t].CWoken?);
    } else {
      var k :| 0 <= k < |s.threads| && IsConsumer(s.threads[k]);
      assert s.threads[k].CAsleep?;
      NoCredits(s.threads);
      t :| 0 <= t < |s.threads| && (OwesSignal(s.threads[t]) || WokenNotPopped(s.threads[t]));
      assert s.threads[t].PSignal? && k in c.wakes;
    }
  }

  lemma StepKeepsRoles(s: State, t: nat, c: Choice)
    requires Next(s, t, c).Some? && HasConsumer(s)
    ensures HasConsumer(Next(s, t, c).value)
  {
    var k :| 0 <= k < |s.threads| && IsConsumer(s.threads[k]);
    assert IsConsumer(Next(s, t, c).value.threads[k]);
  }

  // Running the helper brings the next pop nearer, or is that pop.
  lemma HelperProgress(s: State, t: nat, c: Choice)
    requires Inv(s) && s.list != [] && Next(s, t, c).Some? && Inv(Next(s, t, c).value)
    requires t < |s.threads| && !s.threads[t].PStart? && !s.threads[t].CAsleep?
    requires s.holder.Some? ==> s.holder.value == t
    requires s.holder.None? && Ready(s) ==> s.threads[t].CStart? || s.threads[t].CWoken?
    requires s.holder.None? && !Ready(s) ==> s.threads[t].PSignal? && c.wakes != {}
    ensures var s' := Next(s, t, c).value;
            Work(s') < Work(s) || (Work(s') == Work(s) && Distance(s') < Distance(s))
  {
    var s' := Next(s, t, c).value;
    if s.threads[t].CPopped? {
      assert s'.threads[t].CStart?;
    } else if s.threads[t].PSignal? {
      var w :| w in c.wakes;
      assert s'.threads[w].CWoken?;
    }
  }

  // From any state with a consumer, some unaided schedule empties the list.
  lemma {:induction false} Drain(s: State) returns (schedule: seq<(nat, Choice)>)
    requires Inv(s) && HasConsumer(s)
    ensures Unaided(s, schedule) && Exec(s, schedule).Some? && Exec(s, schedule).value.list == []
    decreases Work(s), Distance(s)
  {
    if s.list == [] {
      schedule := [];
    } else {
      var t, c := Helper(s);
      StepKeepsInv(s, t, c);
      StepKeepsRoles(s, t, c);
      HelperProgress(s, t, c);
      var rest := Drain(Next(s, t, c).value);
      schedule := [(t, c)] + rest;
      assert schedule[1..] == rest;
    }
  }

  // --- Every unaided run ends, and ends with the list empty ---

  // How many steps a thread of n can still take by itself. A signal may wake every sleeper, and
  // each of them then has three steps to go back to sleep.
  function Rank(pc: Pc, n: nat): nat {
    match pc
    case PStart => 0
    case PSignal => 3 * n + 1
    case PPushed => 3 * n + 2
    case PHolds(_) => 3 * n + 7
    case CAsleep => 0
    case CWait => 1
    case CPop(_) => 1
    case CTest(_) => 2
    case CStart => 3
    case CWoken => 3
    case CPopped => 4
  }

  function Ranks(threads: seq<Pc>, n: nat): nat {
    if threads == [] then 0 else
    Ranks(threads[..|threads| - 1], n) + Rank(threads[|threads| - 1], n)
  }

  // Each listed value is good for one more turn of a consumer.
  function Left(s: State): nat {
    4 * |s.list| + Ranks(s.threads, |s.threads|)
  }

  lemma {:induction false} RanksUpdate(threads: seq<Pc>, n: nat, t: nat, pc: Pc)
    requires t < |threads|
    ensures Ranks(threads[t := pc], n) == Ranks(threads, n) - Rank(threads[t], n) + Rank(pc, n)
  {
    var last := |threads| - 1;
    if t == last {
      assert threads[t := pc][..last] == threads[..last];
    } else {
      assert threads[t := pc][..last] == threads[..last][t := pc];
      RanksUpdate(threads[..last], n, t, pc);
    }
  }

  lemma {:induction false} RanksWake(threads: seq<Pc>, n: nat, wakes: set<nat>)
    requires forall w | w in wakes && w < |threads| :: threads[w].CAsleep?
    ensures Ranks(Wake(threads, wakes), n) <= Ranks(threads, n) + 3 * |threads|
  {
    if threads != [] {
      var last := |threads| - 1;
      assert Wake(threads, wakes)[..last] == Wake(threads[..last], wakes);
      RanksWake(threads[..last], n, wakes);
    }
  }

  // What the moving thread gives up; a signal costs more than its sleepers can take.
  lemma RankDrops(s: State, t: nat, c: Choice)
    requires TestsOk(s) && Next(s, t, c).Some? && !s.threads[t].PStart? && !s.threads[t].CAsleep?
    ensures var s' := Next(s, t, c).value; var n := |s.threads|;
            4 * |s'.list| + Rank(s'.threads[t], n) + (if s.threads[t].PSignal? then 3 * n else 0)
            < 4 * |s.list| + Rank(s.threads[t], n)
  {
  }

  lemma SignalledRanks(s: State, t: nat, c: Choice)
    requires Next(s, t, c).Some? && s.threads[t].PSignal?
    ensures var n := |s.threads|;
            Ranks(Next(s, t, c).value.threads, n) <= Ranks(s.threads, n) - Rank(s.threads[t], n) + 3 * n
  {
    var n := |s.threads|;
    RanksWake(s.threads, n, c.wakes);
    RanksUpdate(Wake(s.threads, c.wakes), n, t, PStart);
  }

  lemma UnaidedStepDecreases(s: State, t: nat, c: Choice)
    requires Inv(s) && Next(s, t, c).Some? && !s.threads[t].PStart? && !s.threads[t].CAsleep?
    ensures Left(Next(s, t, c).value) < Left(s)
  {
    var s' := Next(s, t, c).value;
    RankDrops(s, t, c);
    if s.threads[t].PSignal? {
      SignalledRanks(s, t, c);
    } else {
      assert s'.threads == s.threads[t := s'.threads[t]];
      RanksUpdate(s.threads, |s.threads|, t, s'.threads[t]);
    }
  }

  /** No unaided run goes on for ever, whatever the scheduler does: its length is bounded. */
  lemma {:induction false} UnaidedIsBounded(s: State, schedule: seq<(nat, Choice)>)
    requires Inv(s) && Unaided(s, schedule)
    ensures |schedule| <= Left(s)
    ensures Exec(s, schedule).Some? && Inv(Exec(s, schedule).value)
    ensures HasConsumer(s) ==> HasConsumer(Exec(s, schedule).value)
    decreases |schedule|
  {
    if schedule != [] {
      var (t, c) := schedule[0];
      UnaidedStepDecreases(s, t, c);
      StepKeepsInv(s, t, c);
      if HasConsumer(s) {
        StepKeepsRoles(s, t, c);
      }
      UnaidedIsBounded(Next(s, t, c).value, schedule[1..]);
    }
  }

  // Only a new production or a spurious wakeup could move a thread.
  ghost predicate Stuck(s: State) {
    forall t, c | 0 <= t < |s.threads| && !s.threads[t].PStart? && !s.threads[t].CAsleep? :: Next(s, t, c).None?
  }

  lemma StuckIsEmpty(s: State)
    requires Inv(s) && HasConsumer(s) && Stuck(s)
    ensures s.list == []
  {
    if s.list != [] {
      var t, c := Helper(s);
      assert false;
    }
  }

  /**
   The strongest form of "no wakeup is lost": from any reachable state with a consumer, every
   run without new productions and spurious wakeups is bounded, and when no thread is left that
   could move, every listed value has been handed to a consumer.
   */
  lemma EveryUnaidedRunDrains(s: State, schedule: seq<(nat, Choice)>)
    requires Reachable(s) && HasConsumer(s) && Unaided(s, schedule)
    ensures |schedule| <= Left(s) && Exec(s, schedule).Some?
    ensures Stuck(Exec(s, schedule).value) ==> Exec(s, schedule).value.list == []
  {
    ReachableInv(s);
    UnaidedIsBounded(s, schedule);
    if Stuck(Exec(s, schedule).value) {
      StuckIsEmpty(Exec(s, schedule).value);
    }
  }
}
