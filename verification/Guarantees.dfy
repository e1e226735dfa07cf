/** What holds in every reachable state of the server and its devices. */
module Guarantees {
  import opened Conflict
  import opened Accounts
  import opened Tables
  import opened Replica
  import opened LiveSync

  ghost predicate Reachable(s: System) {
    exists run :: Possible(INIT, run) && After(INIT, run) == s
  }

  lemma ReachableInv(s: System)
    requires Reachable(s)
    ensures Inv(s)
  {
    var run :| Possible(INIT, run) && After(INIT, run) == s;
    InitInv();
    RunKeepsInv(INIT, run);
  }

  // What the invariant says of one device and its user's account.
  lemma ReachableDevice(s: System, id: DeviceID)
    requires Reachable(s) && id in s.devices
    ensures Sound(AccountOf(s.db, id.user))
    ensures DeviceOk(AccountOf(s.db, id.user), id.user in s.inFlight, s.devices[id])
  {
    ReachableInv(s);
  }

  ghost predicate WaitsQuietly(s: System, id: DeviceID) {
    && id in s.devices && s.devices[id].link.Online?
    && s.devices[id].link.conn.phase.Waiting? && !s.devices[id].link.conn.signal && id.user !in s.inFlight
  }

  /** No lost wakeup: a connection that waits below some row of its user holds a signal, or a
      push of that user has committed and will still notify. */
  lemma NoLostWakeup(s: System, id: DeviceID, k: Key)
    requires Reachable(s) && id in s.devices && s.devices[id].link.Online?
    ensures var c := s.devices[id].link.conn;
            var rows := AccountOf(s.db, id.user).rows;
            c.phase.Waiting? && k in rows && rows[k].serverSeq > c.since ==> c.signal || id.user in s.inFlight
  {
    ReachableDevice(s, id);
  }

  lemma DrainedDeviceIsEqual(a: Account, d: Device)
    requires Sound(a) && DeviceOk(a, false, d) && d.issued
    requires d.link.Online? && d.link.conn.phase.Waiting? && !d.link.conn.signal
    requires d.link.conn.received == |d.link.conn.log|
    ensures d.copy.rows == RowsAfter(a, d.from) && (d.from == 0 ==> d.copy.rows == a.rows)
  {
    assert d.link.conn.Wire() == [];
    assert !Behind(a, d.link.conn.since);
    CaughtUpIsEqual(a, d.from, d.copy);
  }

  /** A waiting connection with no signal and no push in flight has sent everything; a device
      that received it holds exactly the user's rows after its start, all of them when it began at zero. */
  lemma QuietMeansCaughtUp(s: System, id: DeviceID)
    requires Reachable(s) && WaitsQuietly(s, id)
    ensures var d := s.devices[id];
            var a := AccountOf(s.db, id.user);
            && (forall k <- a.rows :: a.rows[k].serverSeq <= d.link.conn.since)
            && (d.issued && d.link.conn.received == |d.link.conn.log| ==>
                  d.copy.rows == RowsAfter(a, d.from) && (d.from == 0 ==> d.copy.rows == a.rows))
  {
    ReachableDevice(s, id);
    var d := s.devices[id];
    assert !Behind(AccountOf(s.db, id.user), d.link.conn.since);
    if d.issued && d.link.conn.received == |d.link.conn.log| {
      DrainedDeviceIsEqual(AccountOf(s.db, id.user), d);
    }
  }

  /** Replica agreement: whatever was pushed, read, cut off and resumed, every row stored after
      the device's starting cursor is above its cursor or is exactly the version it holds. */
  lemma ReplicaAgreement(s: System, id: DeviceID, k: Key)
    requires Reachable(s) && id in s.devices && s.devices[id].issued
    ensures var d := s.devices[id];
            var a := AccountOf(s.db, id.user);
            && d.copy.cursor <= a.nextSeq
            && (k in a.rows ==> || a.rows[k].serverSeq <= d.from
                                || a.rows[k].serverSeq > d.copy.cursor
                                || (k in d.copy.rows && d.copy.rows[k] == a.rows[k]))
            && (k in d.copy.rows ==> k in a.rows)
  {
    ReachableDevice(s, id);
  }

  // --- Resume safety ---

  lemma {:induction false} HighestBounds(start: int, log: seq<Event>, i: nat)
    requires LogOk(start, log) && i < |log| && log[i].EnvelopeEvent?
    ensures start < log[i].env.serverSeq <= Highest(start, log)
  {
    var n := |log| - 1;
    if i < n {
      HighestBounds(start, log[..n], i);
    } else {
      HighestFromStart(start, log[..n]);
    }
  }

  lemma {:induction false} HighestFromStart(start: int, log: seq<Event>)
    requires LogOk(start, log)
    ensures start <= Highest(start, log)
  {
    if log != [] {
      HighestFromStart(start, log[..|log| - 1]);
    }
  }

  lemma {:induction false} LogPrefixOk(start: int, log: seq<Event>, n: nat)
    requires LogOk(start, log) && n <= |log|
    ensures LogOk(start, log[..n])
  {
    if n == |log| {
      assert log[..n] == log;
    } else {
      LogPrefixOk(start, log[..|log| - 1], n);
      assert log[..|log| - 1][..n] == log[..n];
    }
  }

  // The highest number of a log is its start or the number of one of its envelopes.
  lemma {:induction false} HighestIsSent(start: int, log: seq<Event>)
    ensures Highest(start, log) == start
            || exists ev <- log :: ev.EnvelopeEvent? && ev.env.serverSeq == Highest(start, log)
  {
    if log != [] {
      HighestIsSent(start, log[..|log| - 1]);
      assert log[|log| - 1] in log;
    }
  }

  // Event j is an envelope above everything sent before it and above the start, or the cursor of all that.
  ghost predicate InOrder(start: int, log: seq<Event>, j: nat)
    requires j < |log|
  {
    match log[j]
    case EnvelopeEvent(env) =>
      && start < env.serverSeq
      && forall i | 0 <= i < j && log[i].EnvelopeEvent? :: log[i].env.serverSeq < env.serverSeq
    case CursorEvent(n) =>
      && start <= n
      && (forall i | 0 <= i < j && log[i].EnvelopeEvent? :: log[i].env.serverSeq <= n)
      && (n == start || exists i | 0 <= i < j && log[i].EnvelopeEvent? :: log[i].env.serverSeq == n)
  }

  lemma LogReads(start: int, log: seq<Event>, j: nat)
    requires LogOk(start, log) && j < |log|
    ensures InOrder(start, log, j)
  {
    LogPrefixOk(start, log, j + 1);
    var earlier := log[..j];
    assert log[..j + 1][..j] == earlier;
    LogPrefixOk(start, log, j);
    HighestFromStart(start, earlier);
    HighestIsSent(start, earlier);
    forall i | 0 <= i < j && log[i].EnvelopeEvent? ensures log[i].env.serverSeq <= Highest(start, earlier) {
      HighestBounds(start, earlier, i);
    }
    if exists ev <- earlier :: ev.EnvelopeEvent? && ev.env.serverSeq == Highest(start, earlier) {
      var ev :| ev in earlier && ev.EnvelopeEvent? && ev.env.serverSeq == Highest(start, earlier);
      var i :| 0 <= i < j && earlier[i] == ev;
      assert log[i] == ev;
    }
  }

  /** Over a whole connection, pushes interleaved: each envelope's number exceeds the initial cursor and
      every earlier number, and each cursor event, the first included, is the greatest number sent
      before it, or the initial cursor when nothing was. */
  lemma StreamOrder(s: System, id: DeviceID, j: nat)
    requires Reachable(s) && id in s.devices && s.devices[id].link.Online?
    requires j < |s.devices[id].link.conn.log|
    ensures InOrder(s.devices[id].link.conn.start, s.devices[id].link.conn.log, j)
  {
    ReachableDevice(s, id);
    LogReads(s.devices[id].link.conn.start, s.devices[id].link.conn.log, j);
  }

  // The connection a device opens after losing its last one.
  ghost function Reopened(a: Account, d: Device, mode: Mode, limit: nat): Device
    requires d.link.Online? && 1 <= limit
  {
    Acted(a, Acted(a, d, Drop), Connect(mode, limit))
  }

  lemma ReopenedFromCursor(a: Account, d: Device, mode: Mode, limit: nat)
    requires d.link.Online? && 1 <= limit
    ensures var again := Reopened(a, d, mode, limit);
            && again.copy == d.copy && again.from == d.from && again.link.Online?
            && again.link.conn.since == d.copy.cursor && again.link.conn.log == []
  {
  }

  /** A device cut off after any event resumes from the last cursor event it saw: nothing stored
      since its start is at or below that cursor without being held, so what follows the cursor
      repeats some rows at most and skips none. */
  lemma ResumeAnywhere(s: System, id: DeviceID, mode: Mode, limit: nat, k: Key)
    requires Reachable(s) && id in s.devices && s.devices[id].issued && s.devices[id].link.Online? && 1 <= limit
    ensures var a := AccountOf(s.db, id.user);
            var d := Reopened(a, s.devices[id], mode, limit);
            && d.copy == s.devices[id].copy && d.link.Online? && d.link.conn.since == d.copy.cursor
            && (k in a.rows && a.rows[k].serverSeq > d.from ==>
                  a.rows[k].serverSeq > d.link.conn.since || (k in d.copy.rows && d.copy.rows[k] == a.rows[k]))
  {
    ReachableDevice(s, id);
    ReopenedFromCursor(AccountOf(s.db, id.user), s.devices[id], mode, limit);
  }

  // --- Sequence numbers ---

  /** Distinct numbers in 1..next_seq for every user, in every reachable state. */
  lemma NumbersAreDistinct(s: System, user: Text, j: Key, k: Key)
    requires Reachable(s)
    requires j in AccountOf(s.db, user).rows && k in AccountOf(s.db, user).rows
    ensures var a := AccountOf(s.db, user);
            && 1 <= a.rows[k].serverSeq <= a.nextSeq
            && (a.rows[j].serverSeq == a.rows[k].serverSeq ==> j == k)
  {
    ReachableInv(s);
    assert Sound(AccountOf(s.db, user));
  }

  // Numbers a step takes from one user's counter: one per envelope, won or lost, or one bare reservation.
  function Taken(step: Step, user: Text): nat {
    match step
    case Commit(u, batch) => if u == user then |batch| else 0
    case Reserve(u) => if u == user then 1 else 0
    case _ => 0
  }

  function Consumed(run: seq<Step>, user: Text): nat {
    if run == [] then 0 else Taken(run[0], user) + Consumed(run[1..], user)
  }

  lemma CommitAccount(s: System, u: Text, batch: seq<Envelope>, user: Text)
    requires Sound(AccountOf(s.db, user)) && Enabled(s, Commit(u, batch))
    ensures var b := AccountOf(Exec(s, Commit(u, batch)).db, user);
            && Sound(b) && Grew(AccountOf(s.db, user), b)
            && b.nextSeq == AccountOf(s.db, user).nextSeq + Taken(Commit(u, batch), user)
  {
    CommitRefines(s.db, u, batch);
    if u == user {
      WriteAllGrows(AccountOf(s.db, user), batch);
    } else {
      GrewIsReflexive(AccountOf(s.db, user));
    }
  }

  lemma ReserveAccount(s: System, u: Text, user: Text)
    requires Sound(AccountOf(s.db, user))
    ensures var b := AccountOf(Exec(s, Reserve(u)).db, user);
            && Sound(b) && Grew(AccountOf(s.db, user), b)
            && b.nextSeq == AccountOf(s.db, user).nextSeq + Taken(Reserve(u), user)
  {
    AllocationRefines(s.db, u);
    if u == user {
      AllocateGrows(AccountOf(s.db, user));
    } else {
      GrewIsReflexive(AccountOf(s.db, user));
    }
  }

  lemma StepAccount(s: System, step: Step, user: Text)
    requires Sound(AccountOf(s.db, user)) && Enabled(s, step)
    ensures Sound(AccountOf(Exec(s, step).db, user))
    ensures Grew(AccountOf(s.db, user), AccountOf(Exec(s, step).db, user))
    ensures AccountOf(Exec(s, step).db, user).nextSeq == AccountOf(s.db, user).nextSeq + Taken(step, user)
  {
    match step
    case Commit(u, batch) => CommitAccount(s, u, batch, user);
    case Reserve(u) => ReserveAccount(s, u, user);
    case _ =>
      assert Exec(s, step).db == s.db;
      GrewIsReflexive(AccountOf(s.db, user));
  }

  /** Along any run no row is removed, no stored rank goes down, a row that changed moved above
      every number issued before, and the counter rises by exactly the numbers consumed. */
  lemma {:induction false} RunGrows(s: System, run: seq<Step>, user: Text)
    requires Sound(AccountOf(s.db, user)) && Possible(s, run)
    ensures Sound(AccountOf(After(s, run).db, user))
    ensures Grew(AccountOf(s.db, user), AccountOf(After(s, run).db, user))
    ensures AccountOf(After(s, run).db, user).nextSeq == AccountOf(s.db, user).nextSeq + Consumed(run, user)
    decreases run
  {
    if run == [] {
      GrewIsReflexive(AccountOf(s.db, user));
    } else {
      var t := Exec(s, run[0]);
      StepAccount(s, run[0], user);
      RunGrows(t, run[1..], user);
      assert After(s, run) == After(t, run[1..]);
      GrewIsTransitive(AccountOf(s.db, user), AccountOf(t.db, user), AccountOf(After(s, run).db, user));
    }
  }
}
