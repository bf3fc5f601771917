/**
 The event loop of poll_server/server.c: a dense table of polled descriptors that is scanned
 by index while accept appends to it and a hang-up overwrites an entry with the last one. The
 side array of client records is indexed by descriptor. What clients say to each other is not
 part of the model.
 */
module PollTable {
  import opened Wrappers

  const USER_SIZE: nat := 10
  const FD_SIZE: nat := 65535

  datatype Flags = Flags(pollin: bool, pollerr: bool, pollhup: bool, pollout: bool)
  const NONE := Flags(false, false, false, false)

  datatype Entry = Entry(fd: nat, revents: Flags)
  datatype Addr = Addr(ip: nat, port: nat)

  // What the system does in one round: poll's answer for each descriptor (None: poll failed),
  // accept's result, and what read returns on each descriptor.
  datatype Env = Env(ready: Option<nat -> Flags>, accepted: Option<(nat, Addr)>, read: nat -> int)

  // `users` is the side array; `peers` is history: the address each descriptor came with.
  datatype Table = Table(entries: seq<Entry>, users: seq<Addr>, peers: map<nat, Addr>)

  // The listener, until it is dropped, is the first entry.
  ghost predicate Valid(listener: nat, t: Table) {
    && |t.entries| <= USER_SIZE + 1
    && |t.users| == FD_SIZE && listener < FD_SIZE
    && (forall i, j | 0 <= i < j < |t.entries| :: t.entries[i].fd != t.entries[j].fd)
    && (forall i | 0 < i < |t.entries| :: t.entries[i].fd != listener)
    && (forall i | 0 <= i < |t.entries| :: t.entries[i].fd != listener ==> RecordOk(t, t.entries[i].fd))
  }

  predicate HasListener(listener: nat, t: Table) {
    t.entries != [] && t.entries[0].fd == listener
  }

  // The record of a client holds the address it was accepted with.
  ghost predicate RecordOk(t: Table, fd: nat) {
    fd < |t.users| && fd in t.peers && t.users[fd] == t.peers[fd]
  }

  // accept returns a descriptor that is not in use.
  ghost predicate Legal(t: Table, env: Env) {
    env.accepted.Some? ==>
      var sock := env.accepted.value.0;
      sock < FD_SIZE && forall i | 0 <= i < |t.entries| :: t.entries[i].fd != sock
  }

  function Poll(t: Table, ready: nat -> Flags): Table {
    t.(entries := seq(|t.entries|, i requires 0 <= i < |t.entries| =>
                                     Entry(t.entries[i].fd, ready(t.entries[i].fd))))
  }

  predicate Accepts(listener: nat, t: Table, j: nat, env: Env)
    requires j < |t.entries|
  {
    && t.entries[j].fd == listener && t.entries[j].revents.pollin
    && env.accepted.Some? && |t.entries| != USER_SIZE + 1
  }

  // The branches that drop an entry: a hang-up, or a read of 0 bytes.
  predicate Drops(listener: nat, e: Entry, env: Env) {
    && !(e.fd == listener && e.revents.pollin)
    && !e.revents.pollerr
    && (e.revents.pollhup || (e.revents.pollin && env.read(e.fd) == 0))
  }

  function Accept(t: Table, sock: nat, peer: Addr): Table
    requires sock < |t.users|
  {
    Table(t.entries + [Entry(sock, NONE)], t.users[sock := peer], t.peers[sock := peer])
  }

  // The record and the entry at j are overwritten with those of the last entry.
  function Drop(t: Table, j: nat): Table
    requires j < |t.entries| && FdsInRange(t)
  {
    var n := |t.entries| - 1;
    t.(entries := t.entries[j := t.entries[n]][..n],
       users := t.users[t.entries[j].fd := t.users[t.entries[n].fd]])
  }

  predicate FdsInRange(t: Table) {
    forall i | 0 <= i < |t.entries| :: t.entries[i].fd < |t.users|
  }

  lemma ValidInRange(listener: nat, t: Table)
    requires Valid(listener, t)
    ensures FdsInRange(t)
  {
    forall i | 0 <= i < |t.entries|
      ensures t.entries[i].fd < |t.users|
    {
      assert t.entries[i].fd != listener ==> RecordOk(t, t.entries[i].fd);
    }
  }

  datatype Scanned = Scanned(table: Table, visits: seq<Entry>)

  ghost predicate Scannable(listener: nat, t: Table, j: nat, env: Env) {
    Valid(listener, t) && j <= |t.entries| && (j == 0 ==> Legal(t, env))
  }

  // The for loop over the table from index j on, and the entries it looks at, in order. Accept
  // moves the bound, but only while the listener is unvisited.
  ghost function Scan(listener: nat, t: Table, j: nat, env: Env): Scanned
    requires Scannable(listener, t, j, env)
    decreases |t.entries| - j + (if j == 0 then 1 else 0)
  {
    if j == |t.entries| then Scanned(t, []) else
    var e := t.entries[j];
    var later :=
      if Accepts(listener, t, j, env) then
        Scan(listener, Accept(t, env.accepted.value.0, env.accepted.value.1), j + 1, env)
      else if Drops(listener, e, env) then
        DropKeepsValid(listener, t, j);
        Scan(listener, Drop(t, j), j, env)
      else
        Scan(listener, t, j + 1, env);
    Scanned(later.table, [e] + later.visits)
  }

  lemma DropKeepsValid(listener: nat, t: Table, j: nat)
    requires Valid(listener, t) && j < |t.entries|
    ensures FdsInRange(t) && Valid(listener, Drop(t, j))
    ensures forall k | 0 <= k < |Drop(t, j).entries| :: Drop(t, j).entries[k] in t.entries
    ensures j < |Drop(t, j).entries| ==> Drop(t, j).entries[j].fd != listener
  {
    ValidInRange(listener, t);
    var t' := Drop(t, j);
    forall i | 0 <= i < |t'.entries|
      ensures t'.entries[i].fd != listener ==> RecordOk(t', t'.entries[i].fd)
      ensures t'.entries[i] in t.entries
    {
      var k := if i == j then |t.entries| - 1 else i;
      assert t'.entries[i] == t.entries[k];
      assert t.entries[k].fd != listener ==> RecordOk(t, t.entries[k].fd);
    }
  }

  // The entry accept appends in this round.
  function Newcomer(listener: nat, t: Table, env: Env): seq<Entry> {
    if t.entries != [] && Accepts(listener, t, 0, env) then [Entry(env.accepted.value.0, NONE)] else []
  }

  // The entries of s that no branch drops.
  ghost function Kept(listener: nat, s: seq<Entry>, env: Env): set<Entry> {
    set e | e in s && !Drops(listener, e, env)
  }

  lemma DropSplits(t: Table, j: nat)
    requires j < |t.entries| && FdsInRange(t)
    ensures Drop(t, j).entries[..j] == t.entries[..j]
    ensures multiset(t.entries[j..]) == multiset{t.entries[j]} + multiset(Drop(t, j).entries[j..])
  {
    var n := |t.entries| - 1;
    var e := t.entries[j];
    var t' := Drop(t, j);
    if j == n {
      assert t.entries[j..] == [e] && t'.entries[j..] == [];
    } else {
      assert t.entries[j..] == [e] + t.entries[j + 1..n] + [t.entries[n]];
      assert t'.entries[j..] == [t.entries[n]] + t.entries[j + 1..n];
    }
  }

  ghost function Elements(s: seq<Entry>): set<Entry> {
    set e | e in s
  }

  lemma SameElements(s: seq<Entry>, e: Entry, s': seq<Entry>)
    requires multiset(s) == multiset{e} + multiset(s')
    ensures Elements(s) == {e} + Elements(s')
  {
    assert forall x :: x in s <==> x in multiset(s);
    assert forall x :: x in s' <==> x in multiset(s');
  }

  lemma KeptOfElements(listener: nat, s: seq<Entry>, env: Env)
    ensures Kept(listener, s, env) == set e | e in Elements(s) && !Drops(listener, e, env)
  {
  }

  // What the rest of the scan keeps after the entry at j was dropped, or passed.
  lemma KeptAfterDrop(listener: nat, t: Table, j: nat, env: Env)
    requires j < |t.entries| && FdsInRange(t) && Drops(listener, t.entries[j], env)
    ensures Kept(listener, t.entries[j..], env) == Kept(listener, Drop(t, j).entries[j..], env)
    ensures Drop(t, j).entries[..j] == t.entries[..j]
  {
    DropSplits(t, j);
    SameElements(t.entries[j..], t.entries[j], Drop(t, j).entries[j..]);
    KeptOfElements(listener, t.entries[j..], env);
    KeptOfElements(listener, Drop(t, j).entries[j..], env);
  }

  lemma KeptAfterPass(listener: nat, s: seq<Entry>, j: nat, env: Env)
    requires j < |s| && !Drops(listener, s[j], env)
    ensures Kept(listener, s[j..], env) == {s[j]} + Kept(listener, s[j + 1..], env)
    ensures Elements(s[..j + 1]) == Elements(s[..j]) + {s[j]}
  {
    assert s[j..] == [s[j]] + s[j + 1..];
    assert s[..j + 1] == s[..j] + [s[j]];
  }

  // From index j on, nothing is accepted any more.
  ghost predicate Quiet(listener: nat, t: Table, j: nat, env: Env) {
    j < |t.entries| ==> !Accepts(listener, t, j, env)
  }

  // The table and the index after entry j has been dealt with.
  function AfterEntry(listener: nat, t: Table, j: nat, env: Env): (Table, nat)
    requires j < |t.entries| && FdsInRange(t)
  {
    if Drops(listener, t.entries[j], env) then (Drop(t, j), j) else (t, j + 1)
  }

  lemma EntryStep(listener: nat, t: Table, j: nat, env: Env)
    requires j < |t.entries| && Scannable(listener, t, j, env) && Quiet(listener, t, j, env)
    ensures FdsInRange(t)
    ensures var (t', j') := AfterEntry(listener, t, j, env);
            && Scannable(listener, t', j', env) && Quiet(listener, t', j', env) && t'.peers == t.peers
            && j' <= |t'.entries| && |t'.entries| - j' < |t.entries| - j
            && multiset(t.entries[j..]) == multiset{t.entries[j]} + multiset(t'.entries[j'..])
            && Scan(listener, t, j, env)
               == Scanned(Scan(listener, t', j', env).table, [t.entries[j]] + Scan(listener, t', j', env).visits)
  {
    ValidInRange(listener, t);
    if Drops(listener, t.entries[j], env) {
      DropKeepsValid(listener, t, j);
      DropSplits(t, j);
    } else {
      assert t.entries[j..] == [t.entries[j]] + t.entries[j + 1..];
    }
  }

  // The part of the scan in which nothing is accepted.
  lemma {:induction false} ScanQuietVisits(listener: nat, t: Table, j: nat, env: Env)
    requires Scannable(listener, t, j, env) && Quiet(listener, t, j, env)
    ensures var r := Scan(listener, t, j, env);
            && Valid(listener, r.table) && r.table.peers == t.peers
            && multiset(r.visits) == multiset(t.entries[j..])
    decreases |t.entries| - j
  {
    if j < |t.entries| {
      EntryStep(listener, t, j, env);
      var (t', j') := AfterEntry(listener, t, j, env);
      ScanQuietVisits(listener, t', j', env);
    }
  }

  lemma {:induction false} ScanQuietKeeps(listener: nat, t: Table, j: nat, env: Env)
    requires Scannable(listener, t, j, env) && Quiet(listener, t, j, env)
    ensures Elements(Scan(listener, t, j, env).table.entries)
            == Elements(t.entries[..j]) + Kept(listener, t.entries[j..], env)
    decreases |t.entries| - j
  {
    if j < |t.entries| {
      EntryStep(listener, t, j, env);
      var (t', j') := AfterEntry(listener, t, j, env);
      ScanQuietKeeps(listener, t', j', env);
      if Drops(listener, t.entries[j], env) {
        KeptAfterDrop(listener, t, j, env);
      } else {
        KeptAfterPass(listener, t.entries, j, env);
      }
    } else {
      assert t.entries[..j] == t.entries;
    }
  }

  // The table with the newcomer in it.
  function AfterAccept(listener: nat, t: Table, env: Env): Table
    requires env.accepted.Some? ==> env.accepted.value.0 < |t.users|
  {
    if t.entries != [] && Accepts(listener, t, 0, env) then
      Accept(t, env.accepted.value.0, env.accepted.value.1)
    else t
  }

  lemma AcceptStep(listener: nat, t: Table, env: Env)
    requires t.entries != [] && Scannable(listener, t, 0, env) && Accepts(listener, t, 0, env)
    ensures var t' := AfterAccept(listener, t, env);
            && t'.entries == t.entries + Newcomer(listener, t, env)
            && Scannable(listener, t', 1, env) && Quiet(listener, t', 1, env)
            && Scan(listener, t, 0, env)
               == Scanned(Scan(listener, t', 1, env).table, [t.entries[0]] + Scan(listener, t', 1, env).visits)
  {
  }

  /** One round: every entry present at its start, and the newcomer, is looked at exactly once
      with its own flags, and the table stays sound. */
  lemma RoundVisitsOnce(listener: nat, t: Table, env: Env)
    requires Scannable(listener, t, 0, env)
    ensures var r := Scan(listener, t, 0, env);
            && Valid(listener, r.table) && r.table.peers == AfterAccept(listener, t, env).peers
            && multiset(r.visits) == multiset(t.entries + Newcomer(listener, t, env))
  {
    var t' := AfterAccept(listener, t, env);
    if t.entries != [] && Accepts(listener, t, 0, env) {
      AcceptStep(listener, t, env);
      ScanQuietVisits(listener, t', 1, env);
      HeadAndTail(t.entries[0], Scan(listener, t', 1, env).visits);
      TableSplits(t'.entries);
    } else {
      ScanQuietVisits(listener, t, 0, env);
      assert t.entries[0..] == t.entries + [];
    }
  }

  lemma TableSplits(entries: seq<Entry>)
    requires entries != []
    ensures multiset(entries) == multiset{entries[0]} + multiset(entries[1..])
  {
    assert entries == [entries[0]] + entries[1..];
  }

  lemma HeadAndTail(e: Entry, tail: seq<Entry>)
    ensures multiset([e] + tail) == multiset{e} + multiset(tail)
  {
  }

  /** Exactly the entries that no branch drops are in the table after the round. */
  lemma RoundKeepsSurvivors(listener: nat, t: Table, env: Env)
    requires Scannable(listener, t, 0, env)
    ensures Elements(Scan(listener, t, 0, env).table.entries)
            == Kept(listener, t.entries + Newcomer(listener, t, env), env)
  {
    var t' := AfterAccept(listener, t, env);
    if t.entries != [] && Accepts(listener, t, 0, env) {
      var e := t.entries[0];
      AcceptStep(listener, t, env);
      ScanQuietKeeps(listener, t', 1, env);
      assert t'.entries == [e] + t'.entries[1..];
      assert t'.entries[..1] == [e];
      KeptOfListener(listener, e, t'.entries[1..], env);
    } else {
      ScanQuietKeeps(listener, t, 0, env);
      assert t.entries[0..] == t.entries + [] && Elements(t.entries[..0]) == {};
    }
  }

  lemma KeptOfListener(listener: nat, e: Entry, rest: seq<Entry>, env: Env)
    requires !Drops(listener, e, env)
    ensures Kept(listener, [e] + rest, env) == {e} + Kept(listener, rest, env)
  {
  }

  // One turn of the while loop.
  ghost function Round(listener: nat, t: Table, env: Env): Scanned
    requires Valid(listener, t) && Legal(t, env)
  {
    if env.ready.None? then Scanned(t, []) else Scan(listener, Poll(t, env.ready.value), 0, env)
  }

  lemma {:induction false} OnceEach(s: seq<Entry>, e: Entry)
    requires forall i, j | 0 <= i < j < |s| :: s[i] != s[j]
    ensures multiset(s)[e] <= 1
  {
    if s != [] {
      OnceEach(s[1..], e);
      TableSplits(s);
      assert e == s[0] ==> e !in s[1..];
    }
  }

  lemma DistinctWithNewcomer(listener: nat, t: Table, env: Env)
    requires Scannable(listener, t, 0, env)
    ensures var all := t.entries + Newcomer(listener, t, env);
            forall i, j | 0 <= i < j < |all| :: all[i] != all[j]
  {
  }

  lemma ScannedOnce(listener: nat, t: Table, env: Env, e: Entry)
    requires Scannable(listener, t, 0, env) && e in t.entries
    ensures multiset(Scan(listener, t, 0, env).visits)[e] == 1
  {
    var all := t.entries + Newcomer(listener, t, env);
    RoundVisitsOnce(listener, t, env);
    DistinctWithNewcomer(listener, t, env);
    OnceEach(all, e);
    assert e in all;
  }

  /** Each descriptor in the table when poll returns is dispatched exactly once in that round,
      with the flags poll gave it. */
  lemma EachDispatchedOnce(listener: nat, t: Table, env: Env, i: nat)
    requires Valid(listener, t) && Legal(t, env) && env.ready.Some? && i < |t.entries|
    ensures var fd := t.entries[i].fd;
            multiset(Round(listener, t, env).visits)[Entry(fd, env.ready.value(fd))] == 1
  {
    var t' := Poll(t, env.ready.value);
    assert t'.entries[i] in t'.entries;
    ScannedOnce(listener, t', env, t'.entries[i]);
  }

  ghost predicate LegalRun(listener: nat, t: Table, envs: seq<Env>)
    requires Valid(listener, t)
    decreases |envs|
  {
    envs == [] ||
    (Legal(t, envs[0]) &&
     (RoundKeepsValid(listener, t, envs[0]);
      LegalRun(listener, Round(listener, t, envs[0]).table, envs[1..])))
  }

  lemma RoundKeepsValid(listener: nat, t: Table, env: Env)
    requires Valid(listener, t) && Legal(t, env)
    ensures Valid(listener, Round(listener, t, env).table)
  {
    if env.ready.Some? {
      RoundVisitsOnce(listener, Poll(t, env.ready.value), env);
    }
  }

  ghost function Rounds(listener: nat, t: Table, envs: seq<Env>): Table
    requires Valid(listener, t) && LegalRun(listener, t, envs)
    decreases |envs|
  {
    if envs == [] then t else
    RoundKeepsValid(listener, t, envs[0]);
    Rounds(listener, Round(listener, t, envs[0]).table, envs[1..])
  }

  /** Over all rounds: at most 11 entries with distinct descriptors, the listener first if it is
      there, and every client's record with the address it came with. */
  lemma {:induction false} TableStaysSound(listener: nat, t: Table, envs: seq<Env>)
    requires Valid(listener, t) && LegalRun(listener, t, envs)
    ensures Valid(listener, Rounds(listener, t, envs))
    decreases |envs|
  {
    if envs != [] {
      RoundKeepsValid(listener, t, envs[0]);
      TableStaysSound(listener, Round(listener, t, envs[0]).table, envs[1..]);
    }
  }

  // poll reports a hang-up of the listener and nothing that an earlier branch takes.
  ghost predicate HangsUp(listener: nat, env: Env) {
    env.ready.Some? &&
    var flags := env.ready.value(listener);
    flags.pollhup && !flags.pollin && !flags.pollerr
  }

  lemma ListenerInRound(listener: nat, t: Table, env: Env)
    requires Valid(listener, t) && Legal(t, env) && Valid(listener, Round(listener, t, env).table)
    ensures HasListener(listener, Round(listener, t, env).table)
            <==> HasListener(listener, t) && !HangsUp(listener, env)
  {
    if env.ready.Some? {
      var t1 := Poll(t, env.ready.value);
      var all := t1.entries + Newcomer(listener, t1, env);
      var t2 := Scan(listener, t1, 0, env).table;
      RoundKeepsSurvivors(listener, t1, env);
      assert forall e :: e in Elements(t2.entries) <==> e in Kept(listener, all, env);
      if HasListener(listener, t) && !HangsUp(listener, env) {
        assert all[0] in Kept(listener, all, env);
        assert all[0] in t2.entries;
      }
      if HasListener(listener, t2) {
        assert t2.entries[0] in Elements(t2.entries);
      }
    }
  }

  /** The listener is lost in the first round in which it hangs up with no other flag that counts,
      and in no other; once lost it does not come back. */
  lemma {:induction false} ListenerLastsIff(listener: nat, t: Table, envs: seq<Env>)
    requires Valid(listener, t) && LegalRun(listener, t, envs)
    ensures HasListener(listener, Rounds(listener, t, envs))
            <==> HasListener(listener, t) && forall i | 0 <= i < |envs| :: !HangsUp(listener, envs[i])
    decreases |envs|
  {
    if envs != [] {
      RoundKeepsValid(listener, t, envs[0]);
      ListenerInRound(listener, t, envs[0]);
      ListenerLastsIff(listener, Round(listener, t, envs[0]).table, envs[1..]);
      assert forall i | 1 <= i < |envs| :: envs[i] == envs[1..][i - 1];
    }
  }
}
