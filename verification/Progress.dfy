/** Every stream finishes: the routine steps that serve it can only run so long, and stop only when
    its device has caught up with the store. */
module Progress {
  import opened Accounts
  import opened Tables
  import opened Paging
  import opened Replica
  import opened LiveSync
  import opened Guarantees

  ghost predicate Streaming(s: System, id: DeviceID) {
    id in s.devices && s.devices[id].link.Online?
    && s.devices[id].link.conn.mode.Sse? && !s.devices[id].link.conn.phase.Finished?
  }

  ghost predicate Done(s: System, id: DeviceID) {
    WaitsQuietly(s, id) && s.devices[id].link.conn.received == |s.devices[id].link.conn.log|
  }

  // A step of the server or the network, for this stream, that stores nothing new.
  predicate Routine(step: Step, id: DeviceID) {
    step == Notify(id.user) || (step.Act? && step.id == id && (step.action.Query? || step.action.Wake? || step.action.Deliver?))
  }

  ghost predicate AtRest(s: System, id: DeviceID) {
    forall step | Routine(step, id) :: !Enabled(s, step)
  }

  // --- What is left to do ---

  // A notification may leave a signal, a signal a query, and a query its events.
  ghost function ConnectionLeft(a: Account, c: Connection): int {
    (if c.signal then 4 else 0)
    + 3 * (|RowsAbove(a, c.since)| + if c.phase.Querying? then 1 else 0)
    + |c.log| - c.received
  }

  ghost function Left(s: System, id: DeviceID): int
    requires Streaming(s, id)
  {
    5 * s.inFlight[id.user] + ConnectionLeft(AccountOf(s.db, id.user), s.devices[id].link.conn)
  }

  // The stream is still there, set up as before, with less to do.
  ghost predicate Lowers(a: Account, d: Device, after: Device)
    requires d.link.Online?
  {
    && after.link.Online? && after.link.conn.mode.Sse? && !after.link.conn.phase.Finished?
    && after.issued == d.issued && after.from == d.from
    && ConnectionLeft(a, after.link.conn) < ConnectionLeft(a, d.link.conn)
  }

  lemma QueryLowers(a: Account, d: Device, page: seq<Envelope>)
    requires Sound(a) && CanAct(a, d, Query(page)) && d.link.conn.mode.Sse? && 1 <= d.link.conn.limit
    ensures Lowers(a, d, Acted(a, d, Query(page)))
  {
    var c := d.link.conn;
    PageShortens(a, c.since, c.limit, page);
    assert |Queried(c, page).log| == |c.log| + |page| + 1;
  }

  lemma ActionLowers(a: Account, d: Device, action: Action)
    requires Sound(a) && CanAct(a, d, action) && (action.Query? || action.Wake? || action.Deliver?)
    requires d.link.conn.mode.Sse? && !d.link.conn.phase.Finished? && 1 <= d.link.conn.limit
    ensures Lowers(a, d, Acted(a, d, action))
  {
    if action.Query? {
      QueryLowers(a, d, action.page);
    }
  }

  lemma InvDevice(s: System, id: DeviceID)
    requires Inv(s) && id in s.devices && s.devices[id].link.Online?
    ensures Sound(AccountOf(s.db, id.user))
    ensures ConnectionOk(AccountOf(s.db, id.user), id.user in s.inFlight, s.devices[id], s.devices[id].link.conn)
  {
    assert DeviceOk(AccountOf(s.db, id.user), id.user in s.inFlight, s.devices[id]);
  }

  // Same rows, same starting point, less to do.
  ghost predicate Closer(s: System, t: System, id: DeviceID)
    requires Streaming(s, id)
  {
    && Streaming(t, id) && t.db == s.db && Left(t, id) < Left(s, id)
    && t.devices[id].issued == s.devices[id].issued && t.devices[id].from == s.devices[id].from
  }

  lemma NotifyCloser(s: System, id: DeviceID)
    requires Streaming(s, id) && id.user in s.inFlight
    ensures Closer(s, Exec(s, Notify(id.user)), id)
  {
  }

  lemma ActCloser(s: System, id: DeviceID, action: Action)
    requires Streaming(s, id) && Enabled(s, Act(id, action))
    requires Lowers(AccountOf(s.db, id.user), s.devices[id], Acted(AccountOf(s.db, id.user), s.devices[id], action))
    ensures Closer(s, Exec(s, Act(id, action)), id)
  {
  }

  lemma RoutineCloser(s: System, id: DeviceID, step: Step)
    requires Inv(s) && Streaming(s, id) && Routine(step, id) && Enabled(s, step)
    ensures Closer(s, Exec(s, step), id)
  {
    match step
    case Notify(_) => NotifyCloser(s, id);
    case Act(_, action) =>
      InvDevice(s, id);
      ActionLowers(AccountOf(s.db, id.user), s.devices[id], action);
      ActCloser(s, id, action);
  }

  /** However the routine steps of a stream are scheduled, each leaves less to do, so a run of them
      is no longer than what was left at its start. */
  lemma {:induction false} RoutineRunsAreShort(s: System, id: DeviceID, run: seq<Step>)
    requires Inv(s) && Streaming(s, id)
    requires Possible(s, run) && forall step <- run :: Routine(step, id)
    ensures var t := After(s, run);
            && Inv(t) && Streaming(t, id) && t.db == s.db
            && |run| <= Left(s, id) - Left(t, id) && 0 <= Left(t, id)
            && t.devices[id].issued == s.devices[id].issued && t.devices[id].from == s.devices[id].from
    decreases run
  {
    InvDevice(s, id);
    if run != [] {
      RoutineCloser(s, id, run[0]);
      StepKeepsInv(s, run[0]);
      RoutineRunsAreShort(Exec(s, run[0]), id, run[1..]);
    }
  }

  // Unless all is done, something can be: a notification, a query, a wakeup or a delivery.
  ghost function Choose(s: System, id: DeviceID): Step
    requires Streaming(s, id)
  {
    var c := s.devices[id].link.conn;
    if id.user in s.inFlight then Notify(id.user)
    else if c.phase.Querying? then Act(id, Query(Take(RowsAbove(AccountOf(s.db, id.user), c.since), c.limit)))
    else if c.signal then Act(id, Wake)
    else Act(id, Deliver)
  }

  lemma ChooseEnabled(s: System, id: DeviceID)
    requires Inv(s) && Streaming(s, id) && !Done(s, id)
    ensures Routine(Choose(s, id), id) && Enabled(s, Choose(s, id))
  {
    InvDevice(s, id);
    var a, c := AccountOf(s.db, id.user), s.devices[id].link.conn;
    if c.phase.Querying? {
      FirstRowsArePage(a, c.since, c.limit);
    }
  }

  lemma DoneEndsRoutine(s: System, id: DeviceID, step: Step)
    requires Done(s, id) && Routine(step, id)
    ensures !Enabled(s, step)
  {
  }

  lemma RestIffDone(s: System, id: DeviceID)
    requires Inv(s) && Streaming(s, id)
    ensures AtRest(s, id) <==> Done(s, id)
  {
    if Done(s, id) {
      forall step | Routine(step, id) ensures !Enabled(s, step) {
        DoneEndsRoutine(s, id, step);
      }
    } else {
      ChooseEnabled(s, id);
    }
  }

  /** A stream always catches up. From wherever a run has led, take the notifications, wakeups,
      queries and deliveries of one stream in any order: there are at most `Left` of them, and when
      no more is possible the device holds exactly the rows stored after its start. */
  lemma EveryScheduleCatchesUp(s: System, id: DeviceID, run: seq<Step>)
    requires Reachable(s) && Streaming(s, id)
    requires Possible(s, run) && forall step <- run :: Routine(step, id)
    ensures var t := After(s, run);
            && Streaming(t, id) && t.db == s.db
            && |run| <= Left(s, id)
            && (AtRest(t, id) <==> Done(t, id))
            && (AtRest(t, id) && s.devices[id].issued ==>
                  t.devices[id].copy.rows == RowsAfter(AccountOf(s.db, id.user), s.devices[id].from))
  {
    ReachableInv(s);
    RoutineRunsAreShort(s, id, run);
    var t := After(s, run);
    RestIffDone(t, id);
    if AtRest(t, id) && t.devices[id].issued {
      assert DeviceOk(AccountOf(t.db, id.user), id.user in t.inFlight, t.devices[id]);
      DrainedDeviceIsEqual(AccountOf(t.db, id.user), t.devices[id]);
    }
  }

  lemma {:induction false} CanFinish(s: System, id: DeviceID) returns (run: seq<Step>)
    requires Inv(s) && Streaming(s, id)
    ensures Possible(s, run) && (forall step <- run :: Routine(step, id)) && AtRest(After(s, run), id)
    decreases Left(s, id)
  {
    InvDevice(s, id);
    if AtRest(s, id) {
      run := [];
    } else {
      var step :| Routine(step, id) && Enabled(s, step);
      RoutineCloser(s, id, step);
      StepKeepsInv(s, step);
      var rest := CanFinish(Exec(s, step), id);
      run := [step] + rest;
      assert run[1..] == rest;
    }
  }

  /** And such a schedule exists, whatever run came before. */
  lemma StreamCanAlwaysCatchUp(s: System, id: DeviceID)
    requires Reachable(s) && Streaming(s, id)
    ensures exists run ::
              && Possible(s, run) && (forall step <- run :: Routine(step, id))
              && After(s, run).db == s.db && id in After(s, run).devices && Done(After(s, run), id)
              && (s.devices[id].issued ==>
                    After(s, run).devices[id].copy.rows == RowsAfter(AccountOf(s.db, id.user), s.devices[id].from))
  {
    ReachableInv(s);
    var run := CanFinish(s, id);
    EveryScheduleCatchesUp(s, id, run);
  }
}
