/** The event loop itself: PollTable's scan on the array of pollfds and the array of records. */
module PollServer {
  import opened Wrappers
  import opened PollService
  import opened PollTable

  class Server {
    const listener: nat
    const pfd: array<Entry>
    const user: array<Addr>
    var usercounters: nat
    ghost var peers: map<nat, Addr>

    ghost predicate Sized()
      reads this
    {
      pfd.Length == USER_SIZE + 1 && user.Length == FD_SIZE && usercounters <= pfd.Length
    }

    ghost function View(): Table
      reads this, pfd, user
      requires Sized()
    {
      Table(pfd[..usercounters], user[..], peers)
    }

    constructor (listener: nat)
      requires listener < FD_SIZE
      ensures Sized() && fresh(pfd) && fresh(user) && this.listener == listener
      ensures Valid(listener, View()) && |View().entries| == 1 && HasListener(listener, View())
    {
      this.listener := listener;
      pfd := new Entry[USER_SIZE + 1](_ => Entry(listener, NONE));
      user := new Addr[FD_SIZE](_ => Addr(0, 0));
      usercounters := 1;
      peers := map[];
    }

    method AcceptClient(sock: nat, peer: Addr)
      requires Sized() && usercounters < USER_SIZE + 1 && sock < FD_SIZE
      modifies this, pfd, user
      ensures Sized() && View() == Accept(old(View()), sock, peer)
    {
      ghost var before := View();
      usercounters := usercounters + 1;
      user[sock] := peer;
      peers := peers[sock := peer];
      pfd[usercounters - 1] := Entry(sock, NONE);
      assert pfd[..usercounters] == before.entries + [Entry(sock, NONE)];
    }

    // The record and the entry at j are overwritten with those of the last one.
    method DropClient(j: nat)
      requires Sized() && j < usercounters && FdsInRange(View())
      modifies this, pfd, user
      ensures Sized() && View() == Drop(old(View()), j)
    {
      ghost var before := View();
      assert before.entries[j] == pfd[j] && before.entries[usercounters - 1] == pfd[usercounters - 1];
      user[pfd[j].fd] := user[pfd[usercounters - 1].fd];
      pfd[j] := pfd[usercounters - 1];
      usercounters := usercounters - 1;
      assert pfd[..usercounters] == Drop(before, j).entries;
    }

    // The branches of the loop body on entry j; true when the entry was dropped.
    method Dispatch(j: nat, env: Env) returns (dropped: bool)
      requires Sized() && j < usercounters && Scannable(listener, View(), j, env)
      modifies this, pfd, user
      ensures Sized()
      ensures dropped == (!Accepts(listener, old(View()), j, env) && Drops(listener, old(pfd[j]), env))
      ensures View() == if Accepts(listener, old(View()), j, env) then
                          Accept(old(View()), env.accepted.value.0, env.accepted.value.1)
                        else if dropped then Drop(old(View()), j) else old(View())
    {
      dropped := false;
      var e := pfd[j];
      ValidInRange(listener, View());
      assert View().entries[j] == e;
      if e.fd == listener && e.revents.pollin {
        if env.accepted.Some? && usercounters != USER_SIZE + 1 {
          AcceptClient(env.accepted.value.0, env.accepted.value.1);
        }
      } else if e.revents.pollerr {
      } else if e.revents.pollhup {
        DropClient(j);
        dropped := true;
      } else if e.revents.pollin {
        if env.read(e.fd) == 0 {
          DropClient(j);
          dropped := true;
        }
      }
    }

    // One turn of the for loop, `j--` and `j++` together.
    method Visit(j: nat, env: Env) returns (j': nat)
      requires Sized() && j < usercounters && Scannable(listener, View(), j, env)
      modifies this, pfd, user
      ensures Sized() && Scannable(listener, View(), j', env) && j' <= usercounters
      ensures Scan(listener, old(View()), j, env)
              == Scanned(Scan(listener, View(), j', env).table, [old(pfd[j])] + Scan(listener, View(), j', env).visits)
      ensures usercounters - j' + (if j' == 0 then 1 else 0) < old(usercounters) - j + (if j == 0 then 1 else 0)
    {
      ghost var before := View();
      assert before.entries[j] == pfd[j];
      if Accepts(listener, before, j, env) {
        AcceptStep(listener, before, env);
      } else {
        EntryStep(listener, before, j, env);
      }
      var dropped := Dispatch(j, env);
      j' := if dropped then j else j + 1;
    }

    // The for loop; `visits` records the entries it looks at.
    method ScanTable(env: Env) returns (ghost visits: seq<Entry>)
      requires Sized() && Scannable(listener, View(), 0, env)
      modifies this, pfd, user
      ensures Sized() && Scanned(View(), visits) == Scan(listener, old(View()), 0, env)
    {
      var j: nat := 0;
      visits := [];
      while j < usercounters
        invariant Sized() && j <= usercounters && Scannable(listener, View(), j, env)
        invariant var todo := Scan(listener, View(), j, env);
                  Scan(listener, old(View()), 0, env) == Scanned(todo.table, visits + todo.visits)
        decreases usercounters - j + (if j == 0 then 1 else 0)
      {
        ghost var e := pfd[j];
        ghost var todo := Scan(listener, View(), j, env).visits;
        j := Visit(j, env);
        assert visits + todo == (visits + [e]) + todo[1..];
        visits := visits + [e];
      }
    }

    // One turn of the while loop: poll fills in the flags, then the table is scanned.
    method ServeRound(env: Env) returns (ghost visits: seq<Entry>)
      requires Sized() && Valid(listener, View()) && Legal(View(), env)
      modifies this, pfd, user
      ensures Sized() && Valid(listener, View())
      ensures Scanned(View(), visits) == Round(listener, old(View()), env)
    {
      RoundKeepsValid(listener, View(), env);
      if env.ready.None? {
        return [];
      }
      FillFlags(env.ready.value);
      visits := ScanTable(env);
    }

    method FillFlags(ready: nat -> Flags)
      requires Sized()
      modifies pfd
      ensures View() == Poll(old(View()), ready)
    {
      for i := 0 to usercounters
        invariant forall k | 0 <= k < i :: pfd[k] == Entry(old(pfd[k].fd), ready(old(pfd[k].fd)))
        invariant forall k | i <= k < usercounters :: pfd[k] == old(pfd[k])
      {
        pfd[i] := Entry(pfd[i].fd, ready(pfd[i].fd));
      }
      assert pfd[..usercounters] == Poll(old(View()), ready).entries;
    }

    // The while loop over a run of the environment.
    method Serve(envs: seq<Env>)
      requires Sized() && Valid(listener, View()) && LegalRun(listener, View(), envs)
      modifies this, pfd, user
      ensures Sized() && Valid(listener, View())
      ensures View() == Rounds(listener, old(View()), envs)
      ensures FdsInRange(old(View())) && FdsInRange(View())
      ensures ServiceOf(listener, View()) == ServeAll(listener, ServiceOf(listener, old(View())), envs)
    {
      ghost var last := Rounds(listener, View(), envs);
      RoundsAreService(listener, View(), envs);
      for i := 0 to |envs|
        invariant Sized() && Valid(listener, View()) && LegalRun(listener, View(), envs[i..])
        invariant last == Rounds(listener, View(), envs[i..])
      {
        assert envs[i..][0] == envs[i] && envs[i..][1..] == envs[i + 1..];
        var _ := ServeRound(envs[i]);
      }
    }
  }
}
