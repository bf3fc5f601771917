/**
 What the runs of CondProtocol deliver: the values the producers draw are the values the consumers
 get. The laws here are about schedules, and not about what the step function writes to the log.
 */
module CondRuns {
  import opened Wrappers
  import opened CondProtocol

  // How many producers have drawn the value v and not pushed it yet.
  function Holding(threads: seq<Pc>, v: int): nat {
    if threads == [] then 0 else Holding(threads[..|threads| - 1], v) + Hold(threads[|threads| - 1], v)
  }

  function Hold(pc: Pc, v: int): nat {
    if pc == PHolds(v) then 1 else 0
  }

  // How often rand() gave v to a producer that got the mutex.
  ghost function Draws(s: State, schedule: seq<(nat, Choice)>, v: int): nat
    requires Exec(s, schedule).Some?
    decreases |schedule|
  {
    if schedule == [] then 0 else
    var (t, c) := schedule[0];
    (if s.threads[t].PStart? && c.data == v then 1 else 0) + Draws(Next(s, t, c).value, schedule[1..], v)
  }

  lemma {:induction false} HoldingUpdate(threads: seq<Pc>, t: nat, pc: Pc, v: int)
    requires t < |threads|
    ensures Holding(threads[t := pc], v) == Holding(threads, v) - Hold(threads[t], v) + Hold(pc, v)
  {
    var n := |threads| - 1;
    if t == n {
      assert threads[t := pc][..n] == threads[..n];
    } else {
      assert threads[t := pc][..n] == threads[..n][t := pc];
      HoldingUpdate(threads[..n], t, pc, v);
    }
  }

  lemma {:induction false} HoldingWake(threads: seq<Pc>, wakes: set<nat>, v: int)
    requires forall w | w in wakes && w < |threads| :: threads[w].CAsleep?
    ensures Holding(Wake(threads, wakes), v) == Holding(threads, v)
  {
    if threads != [] {
      var n := |threads| - 1;
      assert Wake(threads, wakes)[..n] == Wake(threads[..n], wakes);
      HoldingWake(threads[..n], wakes, v);
    }
  }

  lemma StepKeepsHeld(s: State, t: nat, c: Choice, v: int)
    requires Next(s, t, c).Some?
    ensures var s' := Next(s, t, c).value;
            Holding(s'.threads, v) == Holding(s.threads, v) - Hold(s.threads[t], v) + Hold(s'.threads[t], v)
  {
    if s.threads[t].PSignal? {
      HoldingWake(s.threads, c.wakes, v);
      HoldingUpdate(Wake(s.threads, c.wakes), t, PStart, v);
    } else {
      HoldingUpdate(s.threads, t, Next(s, t, c).value.threads[t], v);
    }
  }

  // How often v was pushed.
  function Sold(log: seq<Event>, v: int): nat {
    multiset(Pushes(log))[v]
  }

  lemma SoldAppend(log: seq<Event>, e: Event, v: int)
    ensures Sold(log + [e], v) == Sold(log, v) + if e == Pushed(v) then 1 else 0
  {
    assert (log + [e])[..|log|] == log;
  }

  // The log grows by at most one event; a push is the value that was held.
  lemma StepLog(s: State, t: nat, c: Choice)
    requires Next(s, t, c).Some?
    ensures var log := Next(s, t, c).value.log;
            if s.threads[t].PHolds? then log == s.log + [Pushed(s.threads[t].data)]
            else log == s.log || (s.list != [] && log == s.log + [Popped(s.list[0])])
  {
  }

  lemma StepKeepsSold(s: State, t: nat, c: Choice, v: int)
    requires Next(s, t, c).Some?
    ensures Sold(Next(s, t, c).value.log, v) == Sold(s.log, v) + Hold(s.threads[t], v)
  {
    StepLog(s, t, c);
    if s.threads[t].PHolds? {
      SoldAppend(s.log, Pushed(s.threads[t].data), v);
    } else if s.list != [] {
      SoldAppend(s.log, Popped(s.list[0]), v);
    }
  }

  lemma StepHold(s: State, t: nat, c: Choice, v: int)
    requires Next(s, t, c).Some?
    ensures Hold(Next(s, t, c).value.threads[t], v) == if s.threads[t].PStart? && c.data == v then 1 else 0
  {
  }

  lemma {:induction false} ExecKeepsValue(s: State, schedule: seq<(nat, Choice)>, v: int)
    requires Exec(s, schedule).Some?
    ensures var s' := Exec(s, schedule).value;
            Sold(s'.log, v) + Holding(s'.threads, v)
            == Draws(s, schedule, v) + Sold(s.log, v) + Holding(s.threads, v)
    decreases |schedule|
  {
    if schedule != [] {
      var (t, c) := schedule[0];
      StepKeepsHeld(s, t, c, v);
      StepKeepsSold(s, t, c, v);
      StepHold(s, t, c, v);
      ExecKeepsValue(Next(s, t, c).value, schedule[1..], v);
    }
  }

  lemma {:induction false} NothingHeld(threads: seq<Pc>, v: int)
    requires forall t | 0 <= t < |threads| :: !threads[t].PHolds?
    ensures Holding(threads, v) == 0
  {
    if threads != [] {
      NothingHeld(threads[..|threads| - 1], v);
    }
  }

  /** What the producers draw is what the consumers get: in every run, each value has been drawn as
      often as it was popped, is linked, and is still in a producer's hand. */
  lemma DrawnIsDelivered(s0: State, schedule: seq<(nat, Choice)>, v: int)
    requires Init(s0) && Exec(s0, schedule).Some?
    ensures var s := Exec(s0, schedule).value;
            Draws(s0, schedule, v) == multiset(Pops(s.log))[v] + multiset(s.list)[v] + Holding(s.threads, v)
  {
    NothingHeld(s0.threads, v);
    ExecKeepsValue(s0, schedule, v);
    Conservation(Exec(s0, schedule).value);
  }

  /** A producer stays a producer and a consumer a consumer. */
  lemma {:induction false} RolesNeverChange(s: State, schedule: seq<(nat, Choice)>, t: nat)
    requires Exec(s, schedule).Some? && t < |s.threads|
    ensures var s' := Exec(s, schedule).value;
            |s'.threads| == |s.threads| && (IsConsumer(s'.threads[t]) <==> IsConsumer(s.threads[t]))
    decreases |schedule|
  {
    if schedule != [] {
      RolesNeverChange(Next(s, schedule[0].0, schedule[0].1).value, schedule[1..], t);
    }
  }

  /** A thread is only ever held up by another that has the mutex; a signal is only refused if it
      would wake threads that do not sleep, or none where one sleeps. */
  lemma BlockedIff(s: State, t: nat, c: Choice)
    requires Reachable(s) && t < |s.threads|
    ensures Next(s, t, c).None?
            <==> || ((s.threads[t].PStart? || s.threads[t].CStart? || s.threads[t].CWoken?) &&
                     exists u :: 0 <= u < |s.threads| && u != t && HoldsMutex(s.threads[u]))
                 || (s.threads[t].PSignal? && !LegalSignal(s.threads, c.wakes))
  {
    ReachableInv(s);
  }

  lemma ThreeSteps(s: State, t: nat, c: Choice)
    requires Next(s, t, c).Some? && Next(Next(s, t, c).value, t, c).Some?
    ensures Exec(s, [(t, c), (t, c), (t, c)]) == Next(Next(Next(s, t, c).value, t, c).value, t, c)
  {
    var x: (nat, Choice) := (t, c);
    assert [x, x, x][1..] == [x, x] && [x, x][1..] == [x];
    assert Exec(Next(Next(s, t, c).value, t, c).value, [x]) == Next(Next(Next(s, t, c).value, t, c).value, t, c);
  }

  /** A producer that nobody interrupts puts the value it drew at the head of the list. */
  lemma OneProduction(s: State, t: nat, c: Choice)
    requires t < |s.threads| && s.threads[t].PStart? && s.holder == None
    ensures Exec(s, [(t, c), (t, c), (t, c)])
            == Some(State(s.threads[t := PSignal], None, [c.data] + s.list, s.log + [Pushed(c.data)]))
  {
    var s1 := Next(s, t, c).value;
    var s2 := Next(s1, t, c).value;
    ThreeSteps(s, t, c);
    assert Next(s2, t, c).value.threads == s.threads[t := PSignal];
  }

  /** A consumer that nobody interrupts takes the head of the list and gives the mutex back; or it
      goes to sleep without it, if the list is empty. */
  lemma OneConsumption(s: State, t: nat, c: Choice)
    requires t < |s.threads| && s.threads[t].CStart? && s.holder == None
    ensures s.list == [] ==>
              Exec(s, [(t, c), (t, c), (t, c)]) == Some(State(s.threads[t := CAsleep], None, [], s.log))
    ensures s.list != [] ==>
              && Exec(s, [(t, c), (t, c), (t, c)])
                 == Some(State(s.threads[t := CPopped], Some(t), s.list[1..], s.log + [Popped(s.list[0])]))
              && Next(Exec(s, [(t, c), (t, c), (t, c)]).value, t, c)
                 == Some(State(s.threads, None, s.list[1..], s.log + [Popped(s.list[0])]))
  {
    var s1 := Next(s, t, c).value;
    var s2 := Next(s1, t, c).value;
    var s3 := Next(s2, t, c).value;
    ThreeSteps(s, t, c);
    if s.list == [] {
      assert s3.threads == s.threads[t := CAsleep];
    } else {
      assert s3.threads == s.threads[t := CPopped];
      assert s3.threads[t := CStart] == s.threads;
    }
  }
}
