/** The server and its devices as one transition system: any number of pushes, devices and open
    connections, interleaved step by step. */
module LiveSync {
  import opened Conflict
  import opened Accounts
  import opened Tables
  import opened Paging
  import opened Replica
  import opened Divergence

  datatype Mode = Once | Poll | Sse

  // Where the pull handler of a connection stands. It subscribes before its first query.
  datatype Phase = Querying(woken: bool) | Waiting | Finished

  // `log` is every event written so far, of which the device has received a prefix.
  datatype Connection = Connection(
    mode: Mode, limit: nat, start: int, since: int, phase: Phase, signal: bool, log: seq<Event>, received: nat)
  {
    predicate Subscribed() { mode != Once && phase != Finished }

    function Wire(): seq<Event>
      requires received <= |log|
    {
      log[received..]
    }
  }

  // `from` is the cursor the device was set up with; `issued` says the server could have issued it.
  datatype Device = Device(from: nat, issued: bool, copy: Copy, link: Link)

  datatype Link = Offline | Online(conn: Connection)

  datatype DeviceID = DeviceID(user: Text, number: nat)

  // `inFlight` counts, per user, the pushes that committed an applied row and have not notified yet.
  datatype System = System(db: Database, inFlight: multiset<Text>, devices: map<DeviceID, Device>)

  datatype Action =
    | Connect(mode: Mode, limit: nat)
    | Query(page: seq<Envelope>)
    | Deliver
    | Wake
    | Timeout
    | Close
    | Drop

  datatype Step =
    | Commit(user: Text, batch: seq<Envelope>)
    | Reserve(user: Text)
    | Notify(user: Text)
    | Diff(user: Text, items: seq<Item>)
    | Enroll(id: DeviceID, since: nat)
    | Act(id: DeviceID, action: Action)
  {
    function Owner(): Text {
      if Enroll? || Act? then id.user else user
    }
  }

  // --- One device ---

  ghost predicate CanAct(a: Account, d: Device, action: Action) {
    match action
    case Connect(_, limit) => d.link.Offline? && 1 <= limit
    case Query(page) => d.link.Online? && d.link.conn.phase.Querying?
                        && IsPage(a, d.link.conn.since, d.link.conn.limit, page)
    case Deliver => d.link.Online? && d.link.conn.received < |d.link.conn.log|
    case Wake => d.link.Online? && d.link.conn.phase.Waiting? && d.link.conn.signal
    case Timeout => d.link.Online? && d.link.conn.phase.Waiting? && d.link.conn.mode.Poll?
    case Close => d.link.Online?
    case Drop => d.link.Online?
  }

  // A query answers, or an empty first poll waits; a stream asks again until a page is short.
  function Queried(c: Connection, page: seq<Envelope>): Connection {
    var next := NextCursor(c.since, page);
    var log := c.log + PageEvents(c.since, page);
    match c.mode
    case Once => c.(since := next, phase := Finished, log := log)
    case Poll =>
      if page == [] && c.phase != Querying(true) then c.(phase := Waiting)
      else c.(since := next, phase := Finished, log := log)
    case Sse => c.(since := next, phase := if |page| < c.limit then Waiting else c.phase, log := log)
  }

  ghost function Acted(a: Account, d: Device, action: Action): Device
    requires CanAct(a, d, action)
  {
    match action
    case Connect(mode, limit) =>
      d.(link := Online(Connection(mode, limit, d.copy.cursor, d.copy.cursor, Querying(false), false, [], 0)))
    case Query(page) => d.(link := Online(Queried(d.link.conn, page)))
    case Deliver =>
      var c := d.link.conn;
      d.(copy := Receive(d.copy, c.log[c.received]), link := Online(c.(received := c.received + 1)))
    case Wake => d.(link := Online(d.link.conn.(signal := false, phase := Querying(true))))
    case Timeout =>
      var c := d.link.conn;
      d.(link := Online(c.(phase := Finished, log := c.log + [CursorEvent(c.since)])))
    case Close => d.(link := Online(d.link.conn.(phase := Finished)))
    case Drop => d.(link := Offline)
  }

  function Signalled(d: Device): Device {
    if d.link.Online? && d.link.conn.Subscribed() then d.(link := Online(d.link.conn.(signal := true))) else d
  }

  // --- The system ---

  const INIT := System(FRESH, multiset{}, map[])

  ghost predicate Enabled(s: System, step: Step) {
    match step
    case Commit(_, batch) => batch != []
    case Reserve(_) => true
    case Notify(user) => user in s.inFlight
    case Diff(_, items) => items != []
    case Enroll(id, _) => id !in s.devices
    case Act(id, action) => id in s.devices && CanAct(AccountOf(s.db, id.user), s.devices[id], action)
  }

  ghost function Exec(s: System, step: Step): System
    requires Enabled(s, step)
  {
    match step
    case Commit(user, batch) =>
      var (db, flags) := UpsertAll(s.db, user, batch);
      s.(db := db, inFlight := if true in flags then s.inFlight + multiset{user} else s.inFlight)
    case Reserve(user) => s.(db := AllocateSql(s.db, user).0)
    case Notify(user) =>
      s.(inFlight := s.inFlight - multiset{user},
         devices := map id <- s.devices :: if id.user == user then Signalled(s.devices[id]) else s.devices[id])
    case Diff(_, _) => s
    case Enroll(id, since) =>
      s.(devices := s.devices[id := Device(since, since <= AccountOf(s.db, id.user).nextSeq, Copy(since, map[]), Offline)])
    case Act(id, action) =>
      s.(devices := s.devices[id := Acted(AccountOf(s.db, id.user), s.devices[id], action)])
  }

  ghost predicate Possible(s: System, run: seq<Step>)
    decreases run
  {
    run != [] ==> Enabled(s, run[0]) && Possible(Exec(s, run[0]), run[1..])
  }

  ghost function After(s: System, run: seq<Step>): System
    requires Possible(s, run)
    decreases run
  {
    if run == [] then s else After(Exec(s, run[0]), run[1..])
  }

  // --- The invariant ---

  // The highest number sent on a connection so far, or the cursor it was opened with.
  function Highest(start: int, log: seq<Event>): int {
    if log == [] then start
    else
      var last := log[|log| - 1];
      if last.EnvelopeEvent? then last.env.serverSeq else Highest(start, log[..|log| - 1])
  }

  // Envelope numbers strictly increase and every cursor event is the highest number sent before it.
  predicate LogOk(start: int, log: seq<Event>) {
    if log == [] then true
    else
      var earlier, last := log[..|log| - 1], log[|log| - 1];
      && LogOk(start, earlier)
      && match last {
           case EnvelopeEvent(env) => env.serverSeq > Highest(start, earlier)
           case CursorEvent(n) => n == Highest(start, earlier)
         }
  }

  ghost predicate Behind(a: Account, since: int) {
    exists k <- a.rows :: a.rows[k].serverSeq > since
  }

  ghost predicate ConnectionOk(a: Account, pending: bool, d: Device, c: Connection) {
    && 1 <= c.limit && c.received <= |c.log| && (c.mode.Once? ==> !c.phase.Waiting?)
    && LogOk(c.start, c.log) && c.since == Highest(c.start, c.log)
    && (c.phase.Waiting? && Behind(a, c.since) ==> c.signal || pending)
    && (d.issued ==> FollowsThrough(a, d.from, d.copy, c.Wire()) && ReceiveAll(d.copy, c.Wire()).cursor == c.since)
  }

  ghost predicate DeviceOk(a: Account, pending: bool, d: Device) {
    && (d.issued ==> Follows(a, d.from, d.copy))
    && (d.link.Online? ==> ConnectionOk(a, pending, d, d.link.conn))
  }

  ghost predicate AllSound(db: Database) {
    forall user: Text :: Sound(AccountOf(db, user))
  }

  ghost predicate Inv(s: System) {
    && AllSound(s.db)
    && forall id <- s.devices :: DeviceOk(AccountOf(s.db, id.user), id.user in s.inFlight, s.devices[id])
  }

  // --- Logs ---

  lemma LogAppend(start: int, log: seq<Event>, ev: Event)
    requires LogOk(start, log)
    requires match ev case EnvelopeEvent(env) => env.serverSeq > Highest(start, log)
                      case CursorEvent(n) => n == Highest(start, log)
    ensures LogOk(start, log + [ev])
    ensures Highest(start, log + [ev]) == if ev.EnvelopeEvent? then ev.env.serverSeq else Highest(start, log)
  {
    assert (log + [ev])[..|log|] == log;
  }

  lemma {:induction false} LogEnvelopes(start: int, log: seq<Event>, page: seq<Envelope>, evs: seq<Event>)
    requires LogOk(start, log)
    requires |evs| == |page| && forall i | 0 <= i < |page| :: evs[i] == EnvelopeEvent(page[i])
    requires forall i, j | 0 <= i < j < |page| :: page[i].serverSeq < page[j].serverSeq
    requires forall i | 0 <= i < |page| :: page[i].serverSeq > Highest(start, log)
    ensures LogOk(start, log + evs)
    ensures Highest(start, log + evs) == NextCursor(Highest(start, log), page)
    decreases page
  {
    if page == [] {
      assert log + evs == log;
    } else {
      var longer := log + [evs[0]];
      LogAppend(start, log, evs[0]);
      LogEnvelopes(start, longer, page[1..], evs[1..]);
      assert log + evs == longer + evs[1..];
    }
  }

  lemma LogPage(a: Account, limit: nat, c: Connection, page: seq<Envelope>)
    requires Sound(a) && IsPage(a, c.since, limit, page)
    requires LogOk(c.start, c.log) && c.since == Highest(c.start, c.log)
    ensures LogOk(c.start, c.log + PageEvents(c.since, page))
    ensures Highest(c.start, c.log + PageEvents(c.since, page)) == NextCursor(c.since, page)
  {
    PageAscends(a, c.since, limit, page);
    LogEnvelopes(c.start, c.log, page, EnvelopeEvents(page));
    LogAppend(c.start, c.log + EnvelopeEvents(page), CursorEvent(NextCursor(c.since, page)));
    assert c.log + PageEvents(c.since, page)
        == c.log + EnvelopeEvents(page) + [CursorEvent(NextCursor(c.since, page))];
  }

  // --- What each step keeps ---

  // A push or a reservation: rows move up, and a signal is owed whenever some row moved.
  lemma GrowthKeepsDevice(a: Account, b: Account, before: bool, owed: bool, d: Device)
    requires Sound(a) && Grew(a, b) && DeviceOk(a, before, d)
    requires before ==> owed
    requires b.rows != a.rows ==> owed
    ensures DeviceOk(b, owed, d)
  {
    if d.issued {
      GrowthKeepsFollows(a, b, d.from, d.copy);
      if d.link.Online? {
        GrowthKeepsFollowsThrough(a, b, d.from, d.copy, d.link.conn.Wire());
      }
    }
  }

  // The log grows behind what the device has received; so does the wire.
  lemma WireGrows(c: Connection, more: seq<Event>)
    requires c.received <= |c.log|
    ensures (c.log + more)[c.received..] == c.Wire() + more
  {
  }

  // A connection that wrote the page waits only when the page was short, and then nothing is above it.
  lemma AnswerKeepsConnection(a: Account, pending: bool, d: Device, c: Connection, page: seq<Envelope>, phase: Phase)
    requires Sound(a) && ConnectionOk(a, pending, d, c) && IsPage(a, c.since, c.limit, page)
    requires phase.Waiting? ==> |page| < c.limit && !c.mode.Once?
    ensures ConnectionOk(a, pending, d, c.(since := NextCursor(c.since, page), phase := phase,
                                           log := c.log + PageEvents(c.since, page)))
  {
    PageAscends(a, c.since, c.limit, page);
    LogPage(a, c.limit, c, page);
    WireGrows(c, PageEvents(c.since, page));
    if d.issued {
      PageJoins(a, d.from, d.copy, c.Wire(), c.since, c.limit, page);
    }
  }

  lemma QueryKeepsDevice(a: Account, pending: bool, d: Device, page: seq<Envelope>)
    requires Sound(a) && DeviceOk(a, pending, d) && CanAct(a, d, Query(page))
    ensures DeviceOk(a, pending, Acted(a, d, Query(page)))
  {
    var c := d.link.conn;
    if c.mode.Poll? && page == [] && c.phase != Querying(true) {
      PageAscends(a, c.since, c.limit, page);
      assert Queried(c, page).Wire() == c.Wire();
    } else {
      AnswerKeepsConnection(a, pending, d, c, page, Queried(c, page).phase);
    }
  }

  lemma TimeoutKeepsDevice(a: Account, pending: bool, d: Device)
    requires DeviceOk(a, pending, d) && CanAct(a, d, Timeout)
    ensures DeviceOk(a, pending, Acted(a, d, Timeout))
  {
    var c := d.link.conn;
    var after := Acted(a, d, Timeout).link.conn;
    var ev := CursorEvent(c.since);
    LogAppend(c.start, c.log, ev);
    assert after.Wire() == c.Wire() + [ev];
    if d.issued {
      var drained := ReceiveAll(d.copy, c.Wire());
      FollowsNow(a, d.from, d.copy, c.Wire());
      assert Receive(drained, ev) == drained;
      assert [ev][1..] == [] && FollowsThrough(a, d.from, drained, []) && ReceiveAll(drained, []) == drained;
      assert FollowsThrough(a, d.from, drained, [ev]) && ReceiveAll(drained, [ev]) == drained;
      FollowsThroughAppend(a, d.from, d.copy, c.Wire(), [ev]);
    }
  }

  lemma DeliverKeepsDevice(a: Account, pending: bool, d: Device)
    requires DeviceOk(a, pending, d) && CanAct(a, d, Deliver)
    ensures DeviceOk(a, pending, Acted(a, d, Deliver))
  {
    var c := d.link.conn;
    var after := Acted(a, d, Deliver).link.conn;
    assert after.Wire() == c.Wire()[1..] && c.Wire()[0] == c.log[c.received];
    if d.issued {
      assert FollowsThrough(a, d.from, Receive(d.copy, c.Wire()[0]), after.Wire());
    }
  }

  lemma ActKeepsDevice(a: Account, pending: bool, d: Device, action: Action)
    requires Sound(a) && DeviceOk(a, pending, d) && CanAct(a, d, action)
    ensures DeviceOk(a, pending, Acted(a, d, action))
  {
    match action
    case Query(page) => QueryKeepsDevice(a, pending, d, page);
    case Timeout => TimeoutKeepsDevice(a, pending, d);
    case Deliver => DeliverKeepsDevice(a, pending, d);
    case Connect(mode, limit) =>
      var c := Acted(a, d, action).link.conn;
      assert c.Wire() == [];
    case Wake => assert Acted(a, d, action).link.conn.Wire() == d.link.conn.Wire();
    case Close => assert Acted(a, d, action).link.conn.Wire() == d.link.conn.Wire();
    case Drop =>
  }

  // A signal serves a waiting connection as well as the push that owed it.
  lemma SignalKeepsDevice(a: Account, pending: bool, d: Device)
    requires DeviceOk(a, true, d)
    ensures DeviceOk(a, pending, Signalled(d))
  {
    if d.link.Online? && d.link.conn.Subscribed() {
      assert Signalled(d).link.conn.Wire() == d.link.conn.Wire();
    }
  }

  lemma CommitKeepsInv(s: System, user: Text, batch: seq<Envelope>)
    requires Inv(s) && Enabled(s, Commit(user, batch))
    ensures Inv(Exec(s, Commit(user, batch)))
  {
    var t := Exec(s, Commit(user, batch));
    var a := AccountOf(s.db, user);
    CommitRefines(s.db, user, batch);
    WriteAllGrows(a, batch);
    if true !in Flags(a, batch) {
      NothingAppliedNothingMoved(a, batch);
    }
    forall id <- t.devices ensures DeviceOk(AccountOf(t.db, id.user), id.user in t.inFlight, t.devices[id]) {
      if id.user == user {
        GrowthKeepsDevice(a, AccountOf(t.db, user), user in s.inFlight, user in t.inFlight, s.devices[id]);
      }
    }
  }

  lemma ReserveKeepsInv(s: System, user: Text)
    requires Inv(s)
    ensures Inv(Exec(s, Reserve(user)))
  {
    var t := Exec(s, Reserve(user));
    AllocationRefines(s.db, user);
    AllocateGrows(AccountOf(s.db, user));
    forall id <- t.devices ensures DeviceOk(AccountOf(t.db, id.user), id.user in t.inFlight, t.devices[id]) {
      if id.user == user {
        GrowthKeepsDevice(AccountOf(s.db, user), AccountOf(t.db, user), user in s.inFlight, user in t.inFlight, s.devices[id]);
      }
    }
  }

  lemma NotifyKeepsInv(s: System, user: Text)
    requires Inv(s) && Enabled(s, Notify(user))
    ensures Inv(Exec(s, Notify(user)))
  {
    var t := Exec(s, Notify(user));
    forall id <- t.devices ensures DeviceOk(AccountOf(t.db, id.user), id.user in t.inFlight, t.devices[id]) {
      if id.user == user {
        SignalKeepsDevice(AccountOf(s.db, user), user in t.inFlight, s.devices[id]);
      }
    }
  }

  // A step that touches one device and no table.
  lemma OneDeviceChanged(s: System, t: System, id: DeviceID, d: Device)
    requires Inv(s) && t == s.(devices := s.devices[id := d])
    requires DeviceOk(AccountOf(s.db, id.user), id.user in s.inFlight, d)
    ensures Inv(t)
  {
  }

  /** Every step keeps the invariant. */
  lemma StepKeepsInv(s: System, step: Step)
    requires Inv(s) && Enabled(s, step)
    ensures Inv(Exec(s, step))
  {
    match step
    case Commit(user, batch) => CommitKeepsInv(s, user, batch);
    case Reserve(user) => ReserveKeepsInv(s, user);
    case Notify(user) => NotifyKeepsInv(s, user);
    case Diff(_, _) =>
    case Enroll(id, since) => OneDeviceChanged(s, Exec(s, step), id, Exec(s, step).devices[id]);
    case Act(id, action) =>
      ActKeepsDevice(AccountOf(s.db, id.user), id.user in s.inFlight, s.devices[id], action);
      OneDeviceChanged(s, Exec(s, step), id, Exec(s, step).devices[id]);
  }

  lemma InitInv()
    ensures Inv(INIT)
  {
    forall user: Text ensures Sound(AccountOf(INIT.db, user)) {
      FreshAccount(user);
    }
  }

  /** The invariant holds in every reachable state. */
  lemma {:induction false} RunKeepsInv(s: System, run: seq<Step>)
    requires Inv(s) && Possible(s, run)
    ensures Inv(After(s, run))
    decreases run
  {
    if run != [] {
      StepKeepsInv(s, run[0]);
      RunKeepsInv(Exec(s, run[0]), run[1..]);
    }
  }
}
