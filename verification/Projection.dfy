/** Isolation: one user's part of a run does not depend on any other user's steps. */
module Projection {
  import opened Conflict
  import opened Accounts
  import opened Tables
  import opened Divergence
  import opened LiveSync

  // Everything of the system that belongs to one user.
  datatype View = View(account: Account, inFlight: nat, devices: map<DeviceID, Device>)

  ghost function ViewOf(s: System, user: Text): View {
    View(AccountOf(s.db, user), s.inFlight[user], map id | id in s.devices && id.user == user :: s.devices[id])
  }

  // What the server answers at a step; pull events are part of the device's connection.
  datatype Reply = Silent | Applied(flags: seq<bool>) | Differences(report: Report)

  ghost function ReplyTo(s: System, step: Step): Reply {
    match step
    case Commit(user, batch) => Applied(UpsertAll(s.db, user, batch).1)
    case Diff(user, items) => Differences(Check(AccountOf(s.db, user), items))
    case _ => Silent
  }

  lemma CommitInvisible(s: System, u: Text, batch: seq<Envelope>, user: Text)
    requires batch != [] && u != user
    ensures ViewOf(Exec(s, Commit(u, batch)), user) == ViewOf(s, user)
  {
    CommitRefines(s.db, u, batch);
    var t := Exec(s, Commit(u, batch));
    assert AccountOf(t.db, user) == AccountOf(s.db, user);
    assert t.devices == s.devices && t.inFlight[user] == s.inFlight[user];
  }

  lemma ReserveInvisible(s: System, u: Text, user: Text)
    requires u != user
    ensures ViewOf(Exec(s, Reserve(u)), user) == ViewOf(s, user)
  {
    AllocationRefines(s.db, u);
  }

  lemma OthersInvisible(s: System, step: Step, user: Text)
    requires Enabled(s, step) && step.Owner() != user
    ensures ViewOf(Exec(s, step), user) == ViewOf(s, user)
  {
    match step
    case Commit(u, batch) => CommitInvisible(s, u, batch, user);
    case Reserve(u) => ReserveInvisible(s, u, user);
    case _ => DeviceViewsEqual(Exec(s, step), s, user);
  }

  lemma SameDevices(s: System, t: System, user: Text, id: DeviceID)
    requires ViewOf(s, user).devices == ViewOf(t, user).devices && id.user == user
    ensures id in s.devices <==> id in t.devices
    ensures id in s.devices ==> s.devices[id] == t.devices[id]
  {
    assert id in s.devices <==> id in ViewOf(s, user).devices;
    assert id in t.devices <==> id in ViewOf(t, user).devices;
    assert id in s.devices ==> ViewOf(s, user).devices[id] == s.devices[id];
    assert id in t.devices ==> ViewOf(t, user).devices[id] == t.devices[id];
  }

  // Equal devices under every id of the user make equal views of the devices.
  lemma DeviceViewsEqual(s: System, t: System, user: Text)
    requires forall id: DeviceID | id.user == user :: id in s.devices <==> id in t.devices
    requires forall id <- s.devices | id.user == user && id in t.devices :: s.devices[id] == t.devices[id]
    ensures ViewOf(s, user).devices == ViewOf(t, user).devices
  {
  }

  lemma OwnCommitAgrees(s: System, t: System, user: Text, batch: seq<Envelope>)
    requires ViewOf(s, user) == ViewOf(t, user) && batch != []
    ensures UpsertAll(s.db, user, batch).1 == UpsertAll(t.db, user, batch).1
    ensures ViewOf(Exec(s, Commit(user, batch)), user) == ViewOf(Exec(t, Commit(user, batch)), user)
  {
    CommitRefines(s.db, user, batch);
    CommitRefines(t.db, user, batch);
  }

  lemma OwnNotifyAgrees(s: System, t: System, user: Text)
    requires ViewOf(s, user) == ViewOf(t, user) && user in s.inFlight
    ensures user in t.inFlight
    ensures ViewOf(Exec(s, Notify(user)), user) == ViewOf(Exec(t, Notify(user)), user)
  {
    forall id: DeviceID | id.user == user {
      SameDevices(s, t, user, id);
    }
    DeviceViewsEqual(Exec(s, Notify(user)), Exec(t, Notify(user)), user);
  }

  // One device of the user set to the same value in both systems.
  lemma OwnDeviceAgrees(s: System, t: System, user: Text, id: DeviceID, d: Device)
    requires ViewOf(s, user) == ViewOf(t, user) && id.user == user
    ensures ViewOf(s.(devices := s.devices[id := d]), user) == ViewOf(t.(devices := t.devices[id := d]), user)
  {
    forall other: DeviceID | other.user == user {
      SameDevices(s, t, user, other);
    }
    DeviceViewsEqual(s.(devices := s.devices[id := d]), t.(devices := t.devices[id := d]), user);
  }

  lemma OwnStepAgrees(s: System, t: System, step: Step, user: Text)
    requires ViewOf(s, user) == ViewOf(t, user)
    requires Enabled(s, step) && step.Owner() == user
    ensures Enabled(t, step)
    ensures ReplyTo(s, step) == ReplyTo(t, step)
    ensures ViewOf(Exec(s, step), user) == ViewOf(Exec(t, step), user)
  {
    match step
    case Commit(u, batch) => OwnCommitAgrees(s, t, user, batch);
    case Reserve(u) =>
      AllocationRefines(s.db, u);
      AllocationRefines(t.db, u);
    case Notify(u) => OwnNotifyAgrees(s, t, user);
    case Diff(_, _) =>
    case Enroll(id, since) =>
      SameDevices(s, t, user, id);
      OwnDeviceAgrees(s, t, user, id, Exec(s, step).devices[id]);
    case Act(id, action) =>
      SameDevices(s, t, user, id);
      OwnDeviceAgrees(s, t, user, id, Exec(s, step).devices[id]);
  }

  function OwnSteps(run: seq<Step>, user: Text): seq<Step> {
    if run == [] then []
    else if run[0].Owner() == user then [run[0]] + OwnSteps(run[1..], user)
    else OwnSteps(run[1..], user)
  }

  // The answers one user's steps received, in order.
  ghost function Replies(s: System, run: seq<Step>, user: Text): seq<Reply>
    requires Possible(s, run)
    decreases run
  {
    if run == [] then []
    else (if run[0].Owner() == user then [ReplyTo(s, run[0])] else []) + Replies(Exec(s, run[0]), run[1..], user)
  }

  /** Remove every other user's steps from a run: it is still a run, and the user's rows, counter,
      devices, signals, event logs and replies come out the same. */
  lemma {:induction false} RunProjects(s: System, t: System, run: seq<Step>, user: Text)
    requires ViewOf(s, user) == ViewOf(t, user) && Possible(s, run)
    ensures Possible(t, OwnSteps(run, user))
    ensures ViewOf(After(s, run), user) == ViewOf(After(t, OwnSteps(run, user)), user)
    ensures Replies(s, run, user) == Replies(t, OwnSteps(run, user), user)
    decreases run
  {
    if run != [] {
      var own := OwnSteps(run[1..], user);
      if run[0].Owner() == user {
        OwnStepAgrees(s, t, run[0], user);
        RunProjects(Exec(s, run[0]), Exec(t, run[0]), run[1..], user);
        assert OwnSteps(run, user)[1..] == own;
      } else {
        OthersInvisible(s, run[0], user);
        RunProjects(Exec(s, run[0]), t, run[1..], user);
      }
    }
  }
}
