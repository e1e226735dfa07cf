/** What each step of the system does, read off the state before and after it. */
module Steps {
  import opened Conflict
  import opened Accounts
  import opened Tables
  import opened Paging
  import opened Replica
  import opened LiveSync
  import opened Divergence
  import opened Guarantees
  import opened Stream

  // --- What a pull may answer ---

  // The rows above the cursor in the order of their numbers, up to the limit; a row is left out only
  // by a full page of lower ones.
  ghost predicate Lists(a: Account, since: int, limit: nat, page: seq<Envelope>) {
    && |page| <= limit
    && (forall i, j | 0 <= i < j < |page| :: page[i].serverSeq < page[j].serverSeq)
    && (forall e <- page :: since < e.serverSeq && e.RowKey() in a.rows && a.rows[e.RowKey()] == e)
    && (forall k <- a.rows | since < a.rows[k].serverSeq && a.rows[k] !in page ::
          |page| == limit && forall e <- page :: e.serverSeq < a.rows[k].serverSeq)
  }

  lemma PageLists(a: Account, since: int, limit: nat, page: seq<Envelope>)
    requires Sound(a) && IsPage(a, since, limit, page)
    ensures Lists(a, since, limit, page)
  {
    PageAscends(a, since, limit, page);
    forall k <- a.rows | since < a.rows[k].serverSeq && a.rows[k] !in page
      ensures |page| == limit && forall e <- page :: e.serverSeq < a.rows[k].serverSeq
    {
      forall e <- page ensures e.serverSeq < a.rows[k].serverSeq {
        assert a.rows[e.RowKey()] == e;
      }
    }
  }

  // The events added to a log answer with the page: its envelopes, and then the cursor after them.
  ghost predicate AnswersWith(since: int, page: seq<Envelope>, more: seq<Event>) {
    && |more| == |page| + 1
    && (forall i | 0 <= i < |page| :: more[i] == EnvelopeEvent(page[i]))
    && more[|page|] == CursorEvent(if page == [] then since else page[|page| - 1].serverSeq)
  }

  // Only what the connection sent, where it stands and its cursor may have changed.
  predicate SameConnection(c: Connection, d: Connection) {
    && d.mode == c.mode && d.limit == c.limit && d.start == c.start
    && d.signal == c.signal && d.received == c.received && c.log <= d.log
  }

  // Everything but the link of one device is as it was.
  ghost predicate OnlyLink(s: System, t: System, id: DeviceID) {
    && t.db == s.db && t.inFlight == s.inFlight && t.devices.Keys == s.devices.Keys
    && (forall other <- s.devices | other != id :: t.devices[other] == s.devices[other])
    && (id in s.devices ==> t.devices[id] == s.devices[id].(link := t.devices[id].link))
  }

  // What a query makes of a connection.
  ghost predicate Answered(c: Connection, page: seq<Envelope>, d: Connection)
    requires c.phase.Querying?
  {
    && SameConnection(c, d)
    && if c.mode.Poll? && page == [] && !c.phase.woken then
         d.log == c.log && d.since == c.since && d.phase.Waiting?
       else
         && AnswersWith(c.since, page, d.log[|c.log|..])
         && d.log[|d.log| - 1] == CursorEvent(d.since)
         && d.phase == if !c.mode.Sse? then Finished else if |page| < c.limit then Waiting else c.phase
  }

  lemma QueriedReads(c: Connection, page: seq<Envelope>)
    requires c.phase.Querying?
    ensures Answered(c, page, Queried(c, page))
  {
    var d := Queried(c, page);
    if !(c.mode.Poll? && page == [] && !c.phase.woken) {
      assert d.log[|c.log|..] == PageEvents(c.since, page);
    }
  }

  lemma ReachableSound(s: System, user: Text)
    requires Reachable(s)
    ensures Sound(AccountOf(s.db, user))
  {
    ReachableInv(s);
  }

  lemma ActChangesLink(s: System, id: DeviceID, action: Action, e: Device)
    requires Enabled(s, Act(id, action)) && e == Acted(AccountOf(s.db, id.user), s.devices[id], action)
    requires e == s.devices[id].(link := e.link)
    ensures OnlyLink(s, Exec(s, Act(id, action)), id) && Exec(s, Act(id, action)).devices[id] == e
  {
  }

  /** A query reads the rows above the connection's cursor, in order, up to its limit. A plain pull, a
      poll that found rows and a woken poll send exactly that page and its cursor, and are over. A
      stream sends it too, and waits once a page is short. A first poll that found nothing sends
      nothing and waits. */
  lemma QueryReads(s: System, id: DeviceID, page: seq<Envelope>)
    requires Reachable(s) && Enabled(s, Act(id, Query(page)))
    ensures var t := Exec(s, Act(id, Query(page)));
            var c := s.devices[id].link.conn;
            && Lists(AccountOf(s.db, id.user), c.since, c.limit, page)
            && OnlyLink(s, t, id) && t.devices[id].link.Online?
            && Answered(c, page, t.devices[id].link.conn)
  {
    QueryLists(s, id, page);
    QueryMakes(s, id, page);
  }

  lemma QueryLists(s: System, id: DeviceID, page: seq<Envelope>)
    requires Reachable(s) && Enabled(s, Act(id, Query(page)))
    ensures Lists(AccountOf(s.db, id.user), s.devices[id].link.conn.since, s.devices[id].link.conn.limit, page)
  {
    var a, c := AccountOf(s.db, id.user), s.devices[id].link.conn;
    assert Sound(a) by {
      ReachableSound(s, id.user);
    }
    assert IsPage(a, c.since, c.limit, page);
    PageLists(a, c.since, c.limit, page);
  }

  lemma QueryMakes(s: System, id: DeviceID, page: seq<Envelope>)
    requires Enabled(s, Act(id, Query(page)))
    ensures var t := Exec(s, Act(id, Query(page)));
            && OnlyLink(s, t, id) && t.devices[id] == Acted(AccountOf(s.db, id.user), s.devices[id], Query(page))
            && t.devices[id].link.Online? && Answered(s.devices[id].link.conn, page, t.devices[id].link.conn)
  {
    var d := s.devices[id];
    QueriedReads(d.link.conn, page);
    ActChangesLink(s, id, Query(page), d.(link := Online(Queried(d.link.conn, page))));
  }

  /** A poll that is not woken in time answers one cursor, the one it was asked with, and is over. A
      signal taken sends the connection back to its query, marked as woken. */
  lemma WaitEnds(s: System, id: DeviceID, action: Action)
    requires Enabled(s, Act(id, action)) && (action.Timeout? || action.Wake?)
    ensures var t := Exec(s, Act(id, action));
            var c := s.devices[id].link.conn;
            && OnlyLink(s, t, id) && t.devices[id].link.Online?
            && var d := t.devices[id].link.conn;
               if action.Timeout? then
                 d.log == c.log + [CursorEvent(c.since)] && d.phase == Finished && d.since == c.since && SameConnection(c, d)
               else
                 c.signal && d == c.(signal := false, phase := Querying(true))
  {
  }

  /** A device receives the oldest event it has not seen, or loses the connection and keeps what it
      has; it connects from its own cursor, subscribed before any query, with nothing sent. */
  lemma DeviceReads(s: System, id: DeviceID, action: Action)
    requires Enabled(s, Act(id, action)) && (action.Deliver? || action.Drop? || action.Close? || action.Connect?)
    ensures var t := Exec(s, Act(id, action));
            var d, e := s.devices[id], t.devices[id];
            && t.db == s.db && t.inFlight == s.inFlight && t.devices == s.devices[id := e]
            && e.from == d.from && e.issued == d.issued
            && match action {
                 case Deliver =>
                   && e.link == Online(d.link.conn.(received := d.link.conn.received + 1))
                   && match d.link.conn.log[d.link.conn.received] {
                        case EnvelopeEvent(env) => e.copy == Copy(d.copy.cursor, d.copy.rows[Key(env.id, env.part) := env])
                        case CursorEvent(n) => e.copy == Copy(n, d.copy.rows)
                      }
                 case Connect(mode, limit) =>
                   && e.copy == d.copy && e.link.Online?
                   && e.link.conn == Connection(mode, limit, d.copy.cursor, d.copy.cursor, Querying(false), false, [], 0)
                   && (e.link.conn.Subscribed() <==> mode == Poll || mode == Sse)
                 case Close => e.copy == d.copy && e.link == Online(d.link.conn.(phase := Finished))
                 case _ => e.copy == d.copy && e.link == Offline
               }
  {
  }

  /** A device set up at a cursor no higher than the counter holds nothing, and counts as issued. */
  lemma EnrollReads(s: System, id: DeviceID, since: nat)
    requires id !in s.devices
    ensures Enabled(s, Enroll(id, since))
    ensures var t := Exec(s, Enroll(id, since));
            && t.db == s.db && t.inFlight == s.inFlight
            && t.devices == s.devices[id := Device(since, since <= AccountOf(s.db, id.user).nextSeq, Copy(since, map[]), Offline)]
  {
  }

  /** A bare reservation takes one number of its user and nothing else; a divergence check takes nothing. */
  lemma ReserveAndDiffRead(s: System, user: Text, items: seq<Item>)
    requires items != []
    ensures Enabled(s, Reserve(user)) && Enabled(s, Diff(user, items))
    ensures var t := Exec(s, Reserve(user));
            && AccountOf(t.db, user) == AccountOf(s.db, user).(nextSeq := AccountOf(s.db, user).nextSeq + 1)
            && OthersSame(s.db, t.db, user) && t.devices == s.devices && t.inFlight == s.inFlight
    ensures Exec(s, Diff(user, items)) == s
  {
    AllocationRefines(s.db, user);
  }

  lemma {:induction false} RunSnoc(s: System, run: seq<Step>, step: Step)
    requires Possible(s, run) && Enabled(After(s, run), step)
    ensures Possible(s, run + [step]) && After(s, run + [step]) == Exec(After(s, run), step)
    decreases run
  {
    if run == [] {
      assert [] + [step] == [step] && [step][1..] == [];
      assert Possible(Exec(s, step), []) && After(Exec(s, step), []) == Exec(s, step);
    } else {
      assert (run + [step])[1..] == run[1..] + [step];
      RunSnoc(Exec(s, run[0]), run[1..], step);
    }
  }

  /** The server starts empty, and wherever it has got to it can take any enabled step. */
  lemma ReachableGoesOn(s: System, step: Step, user: Text)
    ensures Reachable(INIT) && AccountOf(INIT.db, user) == EMPTY && INIT.devices == map[] && INIT.inFlight == multiset{}
    ensures Reachable(s) && Enabled(s, step) ==> Reachable(Exec(s, step))
  {
    assert Possible(INIT, []) && After(INIT, []) == INIT;
    FreshAccount(user);
    if Reachable(s) && Enabled(s, step) {
      var run :| Possible(INIT, run) && After(INIT, run) == s;
      RunSnoc(INIT, run, step);
    }
  }

  /** A commit writes the batch, touches no device, and owes its user one notification exactly when it
      changed a row. */
  lemma CommitReads(s: System, user: Text, batch: seq<Envelope>)
    requires Reachable(s) && batch != []
    ensures Enabled(s, Commit(user, batch))
    ensures var t := Exec(s, Commit(user, batch));
            var a, b := AccountOf(s.db, user), AccountOf(t.db, user);
            && b == WriteAll(a, batch) && OthersSame(s.db, t.db, user) && t.devices == s.devices
            && t.inFlight == if b.rows != a.rows then s.inFlight + multiset{user} else s.inFlight
  {
    ReachableInv(s);
    var a := AccountOf(s.db, user);
    CommitRefines(s.db, user, batch);
    assert Sound(a);
    if true in Flags(a, batch) {
      SomethingAppliedMoved(a, batch);
    } else {
      NothingAppliedNothingMoved(a, batch);
    }
  }

  /** A notification settles one push of its user and leaves a signal with exactly those connections of
      the user that are live and not over. */
  lemma NotifyReads(s: System, user: Text)
    requires user in s.inFlight
    ensures Enabled(s, Notify(user))
    ensures var t := Exec(s, Notify(user));
            && t.db == s.db && t.devices.Keys == s.devices.Keys
            && t.inFlight + multiset{user} == s.inFlight
            && forall id <- s.devices ::
                 var d := s.devices[id];
                 t.devices[id] ==
                   if id.user == user && d.link.Online? && d.link.conn.mode in {Poll, Sse} && d.link.conn.phase != Finished
                   then d.(link := Online(d.link.conn.(signal := true))) else d
  {
  }

  /** Nothing that should be possible is ruled out: a device can come online in any mode; what queries
      gets a page; what holds a signal can take it; a waiting poll can time out; what was sent and
      not yet received can arrive. */
  lemma StepsAvailable(s: System, id: DeviceID, mode: Mode, limit: nat)
    requires Reachable(s) && id in s.devices && 1 <= limit
    ensures s.devices[id].link.Offline? ==> Enabled(s, Act(id, Connect(mode, limit)))
    ensures s.devices[id].link.Online? ==>
              var c := s.devices[id].link.conn;
              && Enabled(s, Act(id, Drop)) && Enabled(s, Act(id, Close))
              && (c.received < |c.log| ==> Enabled(s, Act(id, Deliver)))
              && (c.phase.Waiting? && c.signal ==> Enabled(s, Act(id, Wake)))
              && (c.phase.Waiting? && c.mode.Poll? ==> Enabled(s, Act(id, Timeout)))
              && (c.phase.Querying? ==> exists page :: Enabled(s, Act(id, Query(page))))
  {
    if s.devices[id].link.Online? && s.devices[id].link.conn.phase.Querying? {
      PageAvailable(s, id);
    }
  }

  lemma PageAvailable(s: System, id: DeviceID)
    requires Reachable(s) && id in s.devices && s.devices[id].link.Online? && s.devices[id].link.conn.phase.Querying?
    ensures exists page :: Enabled(s, Act(id, Query(page)))
  {
    ReachableSound(s, id.user);
    var a, c := AccountOf(s.db, id.user), s.devices[id].link.conn;
    var page := Take(RowsAbove(a, c.since), c.limit);
    FirstRowsArePage(a, c.since, c.limit);
    assert Enabled(s, Act(id, Query(page)));
  }

  // --- Whole connections ---

  // A connection that is not a stream has sent nothing, or one answer and it is over.
  ghost predicate OneAnswer(c: Connection) {
    c.mode.Sse? || c.log == [] || (c.phase == Finished && exists page :: |page| <= c.limit && AnswersWith(c.start, page, c.log))
  }

  ghost predicate OneAnswerEach(s: System) {
    forall id <- s.devices | s.devices[id].link.Online? :: OneAnswer(s.devices[id].link.conn) && NotYetAnswered(s.devices[id].link.conn)
  }

  ghost predicate NotYetAnswered(c: Connection) {
    c.mode.Sse? || c.phase == Finished || (c.log == [] && c.since == c.start)
  }

  lemma QueryAnswersOnce(c: Connection, page: seq<Envelope>)
    requires OneAnswer(c) && NotYetAnswered(c) && c.phase.Querying? && |page| <= c.limit
    ensures OneAnswer(Queried(c, page)) && NotYetAnswered(Queried(c, page))
  {
    QueriedReads(c, page);
    if !c.mode.Sse? {
      var d := Queried(c, page);
      assert d.log[|c.log|..] == d.log;
    }
  }

  lemma ActAnswersOnce(a: Account, d: Device, action: Action)
    requires CanAct(a, d, action)
    requires d.link.Online? ==> OneAnswer(d.link.conn) && NotYetAnswered(d.link.conn)
    ensures var e := Acted(a, d, action); e.link.Online? ==> OneAnswer(e.link.conn) && NotYetAnswered(e.link.conn)
  {
    match action
    case Query(page) => QueryAnswersOnce(d.link.conn, page);
    case Timeout =>
      var c := d.link.conn;
      assert AnswersWith(c.start, [], [CursorEvent(c.since)]);
    case _ =>
  }

  lemma StepAnswersOnce(s: System, step: Step)
    requires OneAnswerEach(s) && Enabled(s, step)
    ensures OneAnswerEach(Exec(s, step))
  {
    if step.Act? {
      ActAnswersOnce(AccountOf(s.db, step.id.user), s.devices[step.id], step.action);
    }
  }

  lemma {:induction false} RunAnswersOnce(s: System, run: seq<Step>)
    requires OneAnswerEach(s) && Possible(s, run)
    ensures OneAnswerEach(After(s, run))
    decreases run
  {
    if run != [] {
      StepAnswersOnce(s, run[0]);
      RunAnswersOnce(Exec(s, run[0]), run[1..]);
    }
  }

  /** However a plain pull or a poll came to its end, what it sent is one page and its cursor, or
      nothing at all when it was closed before it answered. */
  lemma OneAnswerOnly(s: System, id: DeviceID)
    requires Reachable(s) && id in s.devices && s.devices[id].link.Online? && !s.devices[id].link.conn.mode.Sse?
    ensures var c := s.devices[id].link.conn;
            || c.log == []
            || (c.phase == Finished && exists page :: |page| <= c.limit && AnswersWith(c.start, page, c.log))
  {
    var run :| Possible(INIT, run) && After(INIT, run) == s;
    RunAnswersOnce(INIT, run);
  }

  // n deliveries to one device.
  function Deliveries(id: DeviceID, n: nat): seq<Step> {
    seq(n, i => Act(id, Deliver))
  }

  lemma {:induction false} DeliverAll(s: System, id: DeviceID, n: nat)
    requires id in s.devices && s.devices[id].link.Online?
    requires s.devices[id].link.conn.received + n == |s.devices[id].link.conn.log|
    ensures Possible(s, Deliveries(id, n))
    ensures var t := After(s, Deliveries(id, n));
            && t.db == s.db && id in t.devices
            && t.devices[id].copy == ReceiveAll(s.devices[id].copy, s.devices[id].link.conn.Wire())
    decreases n
  {
    var wire := s.devices[id].link.conn.Wire();
    if n == 0 {
      assert wire == [];
    } else {
      var t := Exec(s, Act(id, Deliver));
      assert Deliveries(id, n)[1..] == Deliveries(id, n - 1);
      assert t.devices[id].link.conn.Wire() == wire[1..];
      DeliverAll(t, id, n - 1);
    }
  }

  // By receiving what was sent and has not arrived, the device will hold exactly these rows.
  ghost predicate WillHold(t: System, id: DeviceID, rows: map<Key, Envelope>) {
    && id in t.devices && t.devices[id].link.Online?
    && var c := t.devices[id].link.conn;
       && c.received <= |c.log|
       && var run := Deliveries(id, |c.log| - c.received);
          Possible(t, run) && id in After(t, run).devices && After(t, run).devices[id].copy.rows == rows
  }

  lemma DeliveriesComplete(t: System, id: DeviceID)
    requires id in t.devices && t.devices[id].link.Online?
    requires t.devices[id].link.conn.received <= |t.devices[id].link.conn.log|
    ensures WillHold(t, id, ReceiveAll(t.devices[id].copy, t.devices[id].link.conn.Wire()).rows)
  {
    var c := t.devices[id].link.conn;
    var n: nat := |c.log| - c.received;
    DeliverAll(t, id, n);
    var last := After(t, Deliveries(id, n));
    assert id in last.devices && last.devices[id].copy == ReceiveAll(t.devices[id].copy, c.Wire());
  }

  /** After a query with a page shorter than the limit, in any mode, and the delivery of all that was
      sent, the device holds exactly the rows stored after its start. */
  lemma ShortPageCompletes(s: System, id: DeviceID, page: seq<Envelope>)
    requires Reachable(s) && Enabled(s, Act(id, Query(page)))
    requires s.devices[id].issued && |page| < s.devices[id].link.conn.limit
    ensures WillHold(Exec(s, Act(id, Query(page))), id, RowsAfter(AccountOf(s.db, id.user), s.devices[id].from))
  {
    var a, d, t := AccountOf(s.db, id.user), s.devices[id], Exec(s, Act(id, Query(page)));
    QueryMakes(s, id, page);
    assert CompletesWith(a, d, t.devices[id]) by {
      ReachableAnswerCompletes(s, id, page);
    }
    DeliveriesComplete(t, id);
  }

  lemma ReachableAnswerCompletes(s: System, id: DeviceID, page: seq<Envelope>)
    requires Reachable(s) && Enabled(s, Act(id, Query(page)))
    requires s.devices[id].issued && |page| < s.devices[id].link.conn.limit
    ensures CompletesWith(AccountOf(s.db, id.user), s.devices[id], Acted(AccountOf(s.db, id.user), s.devices[id], Query(page)))
  {
    ReachableDevice(s, id);
    ShortAnswerCompletes(AccountOf(s.db, id.user), id.user in s.inFlight, s.devices[id], page);
  }

  // With what it is sent and has not received yet, the device will hold the rows after its start.
  ghost predicate CompletesWith(a: Account, d: Device, after: Device) {
    && after.link.Online? && after == d.(link := after.link) && after.link.conn.received <= |after.link.conn.log|
    && ReceiveAll(d.copy, after.link.conn.Wire()).rows == RowsAfter(a, d.from)
  }

  lemma ShortAnswerCompletes(a: Account, pending: bool, d: Device, page: seq<Envelope>)
    requires Sound(a) && DeviceOk(a, pending, d) && d.issued
    requires CanAct(a, d, Query(page)) && |page| < d.link.conn.limit
    ensures CompletesWith(a, d, Acted(a, d, Query(page)))
  {
    var after := Acted(a, d, Query(page));
    QueryKeepsDevice(a, pending, d, page);
    PageAscends(a, d.link.conn.since, d.link.conn.limit, page);
    FollowsNow(a, d.from, d.copy, after.link.conn.Wire());
    CaughtUpIsEqual(a, d.from, ReceiveAll(d.copy, after.link.conn.Wire()));
  }

  // --- The catch-up loop in the system ---

  // A stream that queries until a page is short, on a store that stays as it is.
  ghost function QueriesUntilShort(a: Account, c: Connection): Connection
    requires Sound(a) && 1 <= c.limit && c.mode.Sse? && c.phase.Querying?
    decreases |RowsAbove(a, c.since)|
  {
    var page := Take(RowsAbove(a, c.since), c.limit);
    FirstRowsArePage(a, c.since, c.limit);
    PageShortens(a, c.since, c.limit, page);
    if |page| < c.limit then Queried(c, page) else QueriesUntilShort(a, Queried(c, page))
  }

  // The page is one turn of the loop, with the rest of the burst still to come.
  lemma QueryIsTurn(a: Account, c: Connection, page: seq<Envelope>)
    requires Sound(a) && 1 <= c.limit && c.mode.Sse? && c.phase.Querying? && IsPage(a, c.since, c.limit, page)
    ensures var d := Queried(c, page);
            var rows := RowsAbove(a, c.since);
            if |page| < c.limit then
              d == c.(since := NextCursor(c.since, rows), phase := Waiting, log := c.log + Burst(c.since, rows, c.limit))
            else
              var rest := RowsAbove(a, d.since);
              && d == c.(since := d.since, log := d.log) && NextCursor(d.since, rest) == NextCursor(c.since, rows)
              && d.log + Burst(d.since, rest, c.limit) == c.log + Burst(c.since, rows, c.limit)
  {
    BurstStep(a, c.since, c.limit, page);
    var d := Queried(c, page);
    if |page| >= c.limit {
      var rest := Burst(d.since, RowsAbove(a, d.since), c.limit);
      assert c.log + PageEvents(c.since, page) + rest == c.log + (PageEvents(c.since, page) + rest);
    }
  }

  /** The loop that writes a burst is that stream: left to query an unchanging store it sends exactly
      the burst, and then waits at the last number. */
  lemma {:induction false} BurstIsQueries(a: Account, c: Connection)
    requires Sound(a) && 1 <= c.limit && c.mode.Sse? && c.phase.Querying?
    ensures var rows := RowsAbove(a, c.since);
            QueriesUntilShort(a, c)
            == c.(since := NextCursor(c.since, rows), phase := Waiting, log := c.log + Burst(c.since, rows, c.limit))
    decreases |RowsAbove(a, c.since)|
  {
    var page := Take(RowsAbove(a, c.since), c.limit);
    FirstRowsArePage(a, c.since, c.limit);
    PageShortens(a, c.since, c.limit, page);
    QueryIsTurn(a, c, page);
    if |page| >= c.limit {
      BurstIsQueries(a, Queried(c, page));
    }
  }
}
