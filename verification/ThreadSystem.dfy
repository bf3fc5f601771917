/**
 The same step system run on the heap list: the abstract list of CondProtocol is what the
 `next` pointers of the shared list visit.
 */
module ThreadSystem {
  import opened Wrappers
  import opened CondProtocol
  import ListNode

  class Shared {
    const list: ListNode.List
    var threads: seq<Pc>
    var holder: Option<nat>
    ghost var log: seq<Event>

    ghost predicate Valid()
      reads this, list, list.head, list.spine
    {
      list.Valid()
    }

    ghost function View(): State
      reads this, list, list.spine
    {
      State(threads, holder, list.Contents(), log)
    }

    constructor (producers: nat, consumers: nat)
      ensures Valid() && fresh(list) && fresh(list.head) && Init(View())
      ensures |threads| == producers + consumers
      ensures forall t | 0 <= t < |threads| :: IsConsumer(threads[t]) <==> t >= producers
    {
      list := new ListNode.List();
      threads := seq(producers + consumers, i => if i < producers then PStart else CStart);
      holder := None;
      log := [];
    }

    // The next atomic piece of thread_producer, if thread t can run it.
    method ProducerStep(t: nat, c: Choice) returns (ran: bool)
      requires Valid() && t < |threads| && !IsConsumer(threads[t])
      modifies this, list, list.head
      ensures Valid()
      ensures ran ==> Next(old(View()), t, c) == Some(View())
      ensures !ran ==> Next(old(View()), t, c) == None && View() == old(View())
    {
      match threads[t] {
        case PStart =>
          if holder.Some? { return false; }
          holder, threads := Some(t), threads[t := PHolds(c.data)];
        case PHolds(data) =>
          list.PushHead(data);
          threads, log := threads[t := PPushed], log + [Pushed(data)];
        case PPushed =>
          holder, threads := None, threads[t := PSignal];
        case PSignal =>
          if !LegalSignal(threads, c.wakes) { return false; }
          threads := Wake(threads, c.wakes)[t := PStart];
      }
      return true;
    }

    // Pop_head under the mutex.
    method Consume(t: nat)
      requires Valid() && t < |threads|
      modifies this, list, list.head
      ensures Valid() && holder == old(holder) && threads == old(threads)[t := CPopped]
      ensures old(list.Contents()) == [] ==> list.Contents() == [] && log == old(log)
      ensures old(list.Contents()) != [] ==>
                && list.Contents() == old(list.Contents())[1..]
                && log == old(log) + [Popped(old(list.Contents())[0])]
    {
      var popped := list.PopHead();
      threads := threads[t := CPopped];
      if popped.Some? {
        log := log + [Popped(popped.value)];
      }
    }

    // The next atomic piece of thread_consumer, if thread t can run it.
    method ConsumerStep(t: nat, c: Choice) returns (ran: bool)
      requires Valid() && t < |threads| && IsConsumer(threads[t])
      modifies this, list, list.head
      ensures Valid()
      ensures ran ==> Next(old(View()), t, c) == Some(View())
      ensures !ran ==> Next(old(View()), t, c) == None && View() == old(View())
    {
      if threads[t].CPop? {
        Consume(t);
        return true;
      }
      var pc, owner := threads[t], holder;
      match threads[t] {
        case CStart =>
          if holder.Some? { return false; }
          pc, owner := CTest(false), Some(t);
        case CTest(woken) =>
          var empty := list.IsEmpty();
          pc := if empty == 0 then CWait else CPop(woken);
        case CWait =>
          pc, owner := CAsleep, None;
        case CAsleep =>
          pc := CWoken;
        case CWoken =>
          if holder.Some? { return false; }
          pc, owner := CTest(true), Some(t);
        case CPopped =>
          pc, owner := CStart, None;
      }
      threads, holder := threads[t := pc], owner;
      return true;
    }

    method Step(t: nat, c: Choice) returns (ran: bool)
      requires Valid()
      modifies this, list, list.head
      ensures Valid()
      ensures ran ==> Next(old(View()), t, c) == Some(View())
      ensures !ran ==> Next(old(View()), t, c) == None && View() == old(View())
    {
      if t >= |threads| {
        ran := false;
      } else if IsConsumer(threads[t]) {
        ran := ConsumerStep(t, c);
      } else {
        ran := ProducerStep(t, c);
      }
    }

    // Every run on the heap, blocked requests skipped, is the run of the protocol, and keeps the
    // list acyclic and the invariant.
    method Run(requests: seq<(nat, Choice)>)
      requires Valid() && Inv(View())
      modifies this, list, list.head
      ensures Valid() && Inv(View())
      ensures Exec(old(View()), Granted(old(View()), requests)) == Some(View())
    {
      ghost var start := View();
      assert requests[0..] == requests;
      for i := 0 to |requests|
        invariant Valid() && Inv(View())
        invariant After(start, requests) == After(View(), requests[i..])
      {
        ghost var before := View();
        AfterStep(before, requests[i..]);
        assert requests[i..][1..] == requests[i + 1..];
        var ran := Step(requests[i].0, requests[i].1);
        if ran {
          StepKeepsInv(before, requests[i].0, requests[i].1);
        }
      }
      GrantedRuns(start, requests);
    }
  }
}
