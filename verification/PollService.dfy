/**
 What the event loop of poll_server/server.c serves, without its table: the set of clients, each
 with its address, and whether the listener is still there. The scan with its swaps and its side
 array of records does to them what one would write down for a map.
 */
module PollService {
  import opened Wrappers
  import opened PollTable

  datatype Service = Service(listening: bool, clients: map<nat, Addr>)

  // What keeps a client: an error, which is only printed; or neither a hang-up nor a read of 0
  // bytes. A failed read keeps it, too.
  predicate Stays(flags: Flags, read: int) {
    flags.pollerr || !(flags.pollhup || (flags.pollin && read == 0))
  }

  // The client that joins: at most 10 are served at a time.
  predicate Joins(listener: nat, v: Service, env: Env) {
    && env.ready.Some? && v.listening && env.ready.value(listener).pollin
    && env.accepted.Some? && |v.clients| < USER_SIZE
  }

  // One round of the service.
  function Serve(listener: nat, v: Service, env: Env): Service {
    if env.ready.None? then v else
    var flags := env.ready.value(listener);
    var stay := map fd | fd in v.clients && Stays(env.ready.value(fd), env.read(fd)) :: v.clients[fd];
    Service(
      v.listening && (!flags.pollhup || flags.pollin || flags.pollerr),
      if Joins(listener, v, env) then stay[env.accepted.value.0 := env.accepted.value.1] else stay)
  }

  function ServeAll(listener: nat, v: Service, envs: seq<Env>): Service
    decreases |envs|
  {
    if envs == [] then v else ServeAll(listener, Serve(listener, v, envs[0]), envs[1..])
  }

  // --- The table seen as a service ---

  ghost function Fds(s: seq<Entry>): set<nat> {
    set e | e in s :: e.fd
  }

  ghost function Clients(listener: nat, t: Table): set<nat> {
    Fds(t.entries) - {listener}
  }

  ghost function ServiceOf(listener: nat, t: Table): Service
    requires FdsInRange(t)
  {
    Service(HasListener(listener, t), map fd | fd in Clients(listener, t) :: t.users[fd])
  }

  lemma {:induction false} FdsCount(s: seq<Entry>)
    requires forall i, j | 0 <= i < j < |s| :: s[i].fd != s[j].fd
    ensures |Fds(s)| == |s|
  {
    if s != [] {
      FdsCount(s[1..]);
      assert Fds(s) == {s[0].fd} + Fds(s[1..]);
    }
  }

  lemma ClientCount(listener: nat, t: Table)
    requires Valid(listener, t)
    ensures |t.entries| == |Clients(listener, t)| + if HasListener(listener, t) then 1 else 0
  {
    FdsCount(t.entries);
    if HasListener(listener, t) {
      assert t.entries[0] in t.entries && listener in Fds(t.entries);
    } else {
      assert listener !in Fds(t.entries);
    }
  }

  // The descriptor that is accepted in this round.
  ghost function Joined(listener: nat, t: Table, env: Env): set<nat> {
    if env.ready.Some? && HasListener(listener, t) && env.ready.value(listener).pollin
       && env.accepted.Some? && |t.entries| != USER_SIZE + 1
    then {env.accepted.value.0}
    else {}
  }

  // Poll changes no descriptor and no record.
  lemma PollKeeps(listener: nat, t: Table, env: Env)
    requires Valid(listener, t) && Legal(t, env) && env.ready.Some?
    ensures var t1 := Poll(t, env.ready.value); var newcomer := Newcomer(listener, t1, env);
            && Scannable(listener, t1, 0, env) && t1.peers == t.peers
            && Fds(newcomer) == Joined(listener, t, env) && (forall e | e in newcomer :: e.revents == NONE)
            && forall e :: e in t1.entries <==> e.fd in Fds(t.entries) && e.revents == env.ready.value(e.fd)
  {
    var t1 := Poll(t, env.ready.value);
    forall e
      ensures e in t1.entries <==> e.fd in Fds(t.entries) && e.revents == env.ready.value(e.fd)
    {
      if e.fd in Fds(t.entries) && e.revents == env.ready.value(e.fd) {
        var i :| 0 <= i < |t.entries| && t.entries[i].fd == e.fd;
        assert t1.entries[i] == e;
      }
    }
  }

  lemma EntryAfterRound(listener: nat, t: Table, env: Env, e: Entry)
    requires Valid(listener, t) && Legal(t, env) && env.ready.Some? && e.fd != listener
    ensures e in Round(listener, t, env).table.entries
            <==> || e in Newcomer(listener, Poll(t, env.ready.value), env)
                 || (e.fd in Fds(t.entries) && e.revents == env.ready.value(e.fd) && Stays(e.revents, env.read(e.fd)))
  {
    var t1 := Poll(t, env.ready.value);
    PollKeeps(listener, t, env);
    RoundKeepsSurvivors(listener, t1, env);
    var t2 := Scan(listener, t1, 0, env).table;
    assert e in t2.entries <==> e in Elements(t2.entries);
    assert e in t2.entries <==> e in t1.entries + Newcomer(listener, t1, env) && !Drops(listener, e, env);
  }

  /** Who is served after a round: the one that was accepted in it, and those that were served
      before and stay. */
  lemma ClientsInRound(listener: nat, t: Table, env: Env, fd: nat)
    requires Valid(listener, t) && Legal(t, env) && env.ready.Some? && fd != listener
    ensures fd in Clients(listener, Round(listener, t, env).table)
            <==> || fd in Joined(listener, t, env)
                 || (fd in Clients(listener, t) && Stays(env.ready.value(fd), env.read(fd)))
  {
    var t2 := Round(listener, t, env).table;
    PollKeeps(listener, t, env);
    EntryAfterRound(listener, t, env, Entry(fd, NONE));
    EntryAfterRound(listener, t, env, Entry(fd, env.ready.value(fd)));
    if fd in Clients(listener, t2) {
      var e :| e in t2.entries && e.fd == fd;
      EntryAfterRound(listener, t, env, e);
    }
  }

  /** The address of each client after a round: what accept said of the one that joined, and for
      the others what it was, however the records were copied about. */
  lemma AddressesInRound(listener: nat, t: Table, env: Env, fd: nat)
    requires Valid(listener, t) && Legal(t, env) && env.ready.Some?
    requires fd in Clients(listener, Round(listener, t, env).table)
    ensures FdsInRange(t) && FdsInRange(Round(listener, t, env).table)
    ensures fd !in Joined(listener, t, env) ==> fd in Clients(listener, t)
    ensures Round(listener, t, env).table.users[fd]
            == if fd in Joined(listener, t, env) then env.accepted.value.1 else t.users[fd]
  {
    var t1 := Poll(t, env.ready.value);
    var t2 := Round(listener, t, env).table;
    PollKeeps(listener, t, env);
    RoundVisitsOnce(listener, t1, env);
    ClientsInRound(listener, t, env, fd);
    ValidInRange(listener, t);
    ValidInRange(listener, t2);
    RecordOf(listener, t2, fd);
    if fd in Clients(listener, t) {
      RecordOf(listener, t, fd);
    }
  }

  lemma RecordOf(listener: nat, t: Table, fd: nat)
    requires Valid(listener, t) && fd in Clients(listener, t)
    ensures RecordOk(t, fd)
  {
    var i :| 0 <= i < |t.entries| && t.entries[i].fd == fd;
  }

  // One descriptor, in the map and in the table.
  lemma ClientAfterRound(listener: nat, t: Table, env: Env, fd: nat)
    requires Valid(listener, t) && Legal(t, env) && env.ready.Some?
    requires FdsInRange(t) && FdsInRange(Round(listener, t, env).table)
    ensures var after := ServiceOf(listener, Round(listener, t, env).table).clients;
            var spec := Serve(listener, ServiceOf(listener, t), env).clients;
            (fd in after <==> fd in spec) && (fd in after ==> after[fd] == spec[fd])
  {
    var t2 := Round(listener, t, env).table;
    var v := ServiceOf(listener, t);
    ClientCount(listener, t);
    assert v.clients.Keys == Clients(listener, t);
    assert |v.clients| == |v.clients.Keys|;
    assert Joined(listener, t, env) == if Joins(listener, v, env) then {env.accepted.value.0} else {};
    if fd == listener {
      assert fd !in Clients(listener, t2) && fd !in Clients(listener, t);
      assert HasListener(listener, t) ==> t.entries[0].fd == fd;
    } else {
      ClientsInRound(listener, t, env, fd);
      if fd in Clients(listener, t2) {
        AddressesInRound(listener, t, env, fd);
      }
    }
  }

  /** The table refines the service: one round of the scan is one round of it. */
  lemma RoundIsService(listener: nat, t: Table, env: Env)
    requires Valid(listener, t) && Legal(t, env)
    ensures FdsInRange(t) && FdsInRange(Round(listener, t, env).table)
    ensures ServiceOf(listener, Round(listener, t, env).table) == Serve(listener, ServiceOf(listener, t), env)
  {
    RoundKeepsValid(listener, t, env);
    ValidInRange(listener, t);
    ValidInRange(listener, Round(listener, t, env).table);
    if env.ready.Some? {
      ListenerInRound(listener, t, env);
      SameClients(listener, t, env);
    }
  }

  lemma SameClients(listener: nat, t: Table, env: Env)
    requires Valid(listener, t) && Legal(t, env) && env.ready.Some?
    requires FdsInRange(t) && FdsInRange(Round(listener, t, env).table)
    ensures ServiceOf(listener, Round(listener, t, env).table).clients
            == Serve(listener, ServiceOf(listener, t), env).clients
  {
    forall fd: nat {
      ClientAfterRound(listener, t, env, fd);
    }
  }

  /** And so over every run: who is served, and at which address, is what the map says. */
  lemma {:induction false} RoundsAreService(listener: nat, t: Table, envs: seq<Env>)
    requires Valid(listener, t) && LegalRun(listener, t, envs)
    ensures FdsInRange(t) && FdsInRange(Rounds(listener, t, envs))
    ensures ServiceOf(listener, Rounds(listener, t, envs)) == ServeAll(listener, ServiceOf(listener, t), envs)
    decreases |envs|
  {
    ValidInRange(listener, t);
    if envs != [] {
      RoundIsService(listener, t, envs[0]);
      RoundKeepsValid(listener, t, envs[0]);
      RoundsAreService(listener, Round(listener, t, envs[0]).table, envs[1..]);
    }
  }
}
