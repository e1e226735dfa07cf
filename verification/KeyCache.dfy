/** The token verifier's key cache under concurrent requests: each request goes through sections that
    hold one lock, and the sections of different requests interleave in any order. */
module KeyCache {
  import opened Arithmetic
  import opened Conflict
  import opened Results

  // Nanoseconds of a clock that does not go back.
  type Time = int

  // kid -> public key.
  type KeySet = map<Text, Text>

  datatype Source = NoSource | File | URL

  datatype Config = Config(source: Source, ttl: int)

  // The fields behind the lock.
  datatype Cache = Cache(keys: KeySet, loadedAt: Option<Time>, slotAt: Option<Time>)

  const UNKNOWN_KID_REFETCH_INTERVAL: nat := 60_000_000_000

  // --- What each section does to the cache ---

  predicate Aged(cfg: Config, c: Cache, now: Time) {
    0 < cfg.ttl && c.loadedAt.Some? && now - c.loadedAt.value >= cfg.ttl
  }

  predicate SlotFree(c: Cache, now: Time) {
    c.slotAt.Some? ==> now - c.slotAt.value >= UNKNOWN_KID_REFETCH_INTERVAL
  }

  // Start-up: a file must load; a URL that does not answer leaves an empty set, aged from now.
  function Opened(cfg: Config, initial: Option<KeySet>, now: Time): Cache {
    if cfg.source == NoSource then Cache(map[], None, None)
    else Cache(if initial.Some? then initial.value else map[], Some(now), None)
  }

  // A reload that worked. Without a source there is nothing to load and nothing changes.
  function Loaded(cfg: Config, c: Cache, keys: KeySet, at: Time): Cache {
    if cfg.source == NoSource then c else c.(keys := keys, loadedAt := Some(at))
  }

  function Postponed(c: Cache, at: Time): Cache {
    c.(loadedAt := Some(at))
  }

  function SlotTaken(c: Cache, at: Time): Cache {
    c.(slotAt := Some(at))
  }

  // --- Requests ---

  // Where a request stands between two sections.
  datatype Stage =
    | Refreshing // fetching because the keys are old
    | Postponing // that fetch failed
    | Checked    // done with the age of the keys
    | Missing    // its kid is not in the cache
    | Refetching // fetching because of that kid
    | Ready      // on to the signature

  datatype State = State(cache: Cache, clock: Time, stages: map<nat, Stage>)

  datatype Section =
    | CheckAge(req: nat, now: Time)
    | Load(req: nat, keys: KeySet, at: Time)
    | Fail(req: nat)
    | Postpone(req: nat, at: Time)
    | LookUp(req: nat, kid: Text)
    | TakeSlot(req: nat, checkedAt: Time, stampedAt: Time)

  predicate At(s: State, req: nat, stage: Stage) {
    req in s.stages && s.stages[req] == stage
  }

  predicate Fetching(s: State, req: nat) {
    At(s, req, Refreshing) || At(s, req, Refetching)
  }

  // A request is done with its fetch: back to the signature, or on to the look-up.
  function AfterFetch(stage: Stage): Stage {
    if stage == Refetching then Ready else Checked
  }

  // Clock samples are taken inside the lock, in order.
  predicate Enabled(cfg: Config, s: State, x: Section) {
    match x
    case CheckAge(req, now) => req !in s.stages && s.clock <= now
    case Load(req, _, at) => Fetching(s, req) && s.clock <= at
    case Fail(req) => Fetching(s, req) && cfg.source != NoSource
    case Postpone(req, at) => At(s, req, Postponing) && s.clock <= at
    case LookUp(req, _) => At(s, req, Checked)
    case TakeSlot(req, checkedAt, stampedAt) => At(s, req, Missing) && s.clock <= checkedAt <= stampedAt
  }

  function Exec(cfg: Config, s: State, x: Section): State
    requires Enabled(cfg, s, x)
  {
    match x
    case CheckAge(req, now) =>
      s.(clock := now, stages := s.stages[req := if Aged(cfg, s.cache, now) then Refreshing else Checked])
    case Load(req, keys, at) =>
      State(Loaded(cfg, s.cache, keys, at), at, s.stages[req := AfterFetch(s.stages[req])])
    case Fail(req) =>
      s.(stages := s.stages[req := if s.stages[req] == Refreshing then Postponing else Ready])
    case Postpone(req, at) => State(Postponed(s.cache, at), at, s.stages[req := Checked])
    case LookUp(req, kid) =>
      s.(stages := s.stages[req := if kid == [] || kid in s.cache.keys then Ready else Missing])
    case TakeSlot(req, checkedAt, stampedAt) =>
      if SlotFree(s.cache, checkedAt)
      then State(SlotTaken(s.cache, stampedAt), stampedAt, s.stages[req := Refetching])
      else s.(clock := stampedAt, stages := s.stages[req := Ready])
  }

  predicate Possible(cfg: Config, s: State, run: seq<Section>)
    decreases run
  {
    run != [] ==> Enabled(cfg, s, run[0]) && Possible(cfg, Exec(cfg, s, run[0]), run[1..])
  }

  function After(cfg: Config, s: State, run: seq<Section>): State
    requires Possible(cfg, s, run)
    decreases run
  {
    if run == [] then s else After(cfg, Exec(cfg, s, run[0]), run[1..])
  }

  function Start(cfg: Config, initial: Option<KeySet>, now: Time): State {
    State(Opened(cfg, initial, now), now, map[])
  }

  // A request that found the keys old and has not stamped the cache since.
  predicate Renewing(s: State, req: nat) {
    At(s, req, Refreshing) || At(s, req, Postponing)
  }

  // Without a source nothing has an age, so nothing is ever renewed.
  ghost predicate Inv(cfg: Config, s: State) {
    cfg.source == NoSource ==> s.cache.loadedAt == None && forall req <- s.stages :: !Renewing(s, req)
  }

  lemma {:induction false} RunKeepsInv(cfg: Config, s: State, run: seq<Section>)
    requires Inv(cfg, s) && Possible(cfg, s, run)
    ensures Inv(cfg, After(cfg, s, run)) && s.clock <= After(cfg, s, run).clock
    decreases run
  {
    if run != [] {
      RunKeepsInv(cfg, Exec(cfg, s, run[0]), run[1..]);
    }
  }

  lemma {:induction false} ReadyIsFinal(cfg: Config, s: State, run: seq<Section>, req: nat)
    requires Possible(cfg, s, run) && At(s, req, Ready)
    ensures At(After(cfg, s, run), req, Ready)
    decreases run
  {
    if run != [] {
      ReadyIsFinal(cfg, Exec(cfg, s, run[0]), run[1..], req);
    }
  }

  /** A request whose kid is in the cache when it looks fetches nothing for it, then or later. */
  lemma KnownKidFetchesNothing(cfg: Config, s: State, req: nat, kid: Text, run: seq<Section>)
    requires Enabled(cfg, s, LookUp(req, kid)) && kid in s.cache.keys
    requires Possible(cfg, Exec(cfg, s, LookUp(req, kid)), run)
    ensures At(After(cfg, Exec(cfg, s, LookUp(req, kid)), run), req, Ready)
  {
    ReadyIsFinal(cfg, Exec(cfg, s, LookUp(req, kid)), run, req);
  }

  // How far a request is from the signature, in sections.
  function Ahead(stage: Stage): nat {
    match stage
    case Refreshing => 5
    case Postponing => 4
    case Checked => 3
    case Missing => 2
    case Refetching => 1
    case Ready => 0
  }

  function SectionsOf(run: seq<Section>, req: nat): nat {
    if run == [] then 0 else (if run[0].req == req then 1 else 0) + SectionsOf(run[1..], req)
  }

  lemma {:induction false} RequestIsShort(cfg: Config, s: State, run: seq<Section>, req: nat)
    requires Possible(cfg, s, run) && req in s.stages
    ensures req in After(cfg, s, run).stages
    ensures SectionsOf(run, req) + Ahead(After(cfg, s, run).stages[req]) <= Ahead(s.stages[req])
    decreases run
  {
    if run != [] {
      RequestIsShort(cfg, Exec(cfg, s, run[0]), run[1..], req);
    }
  }

  /** Whatever the others do, a request takes at most five sections after its age check, and until it
      is ready it always has a next one. */
  lemma EveryRequestGetsReady(cfg: Config, s: State, run: seq<Section>, req: nat, now: Time)
    requires Enabled(cfg, s, CheckAge(req, now))
    requires Possible(cfg, Exec(cfg, s, CheckAge(req, now)), run)
    ensures var t := After(cfg, Exec(cfg, s, CheckAge(req, now)), run);
            && SectionsOf(run, req) <= 5 && req in t.stages
            && (t.stages[req] != Ready ==> exists x: Section :: x.req == req && Enabled(cfg, t, x))
  {
    var s1 := Exec(cfg, s, CheckAge(req, now));
    RequestIsShort(cfg, s1, run, req);
    var t := After(cfg, s1, run);
    var next := match t.stages[req] {
      case Refreshing => Load(req, map[], t.clock)
      case Refetching => Load(req, map[], t.clock)
      case Postponing => Postpone(req, t.clock)
      case Checked => LookUp(req, [])
      case _ => TakeSlot(req, t.clock, t.clock)
    };
    assert next.req == req && (t.stages[req] != Ready ==> Enabled(cfg, t, next));
  }

  // --- Reloads for an unknown kid ---

  ghost predicate Spaced(times: seq<Time>, gap: int) {
    forall i | 0 < i < |times| :: times[i] - times[i - 1] >= gap
  }

  lemma SpacedAfter(now: Time, rest: seq<Time>, gap: int)
    requires Spaced(rest, gap) && (rest != [] ==> rest[0] - now >= gap)
    ensures Spaced([now] + rest, gap)
  {
    var times := [now] + rest;
    forall i | 0 < i < |times| ensures times[i] - times[i - 1] >= gap {
      assert times[i] == rest[i - 1] && (1 < i ==> rest[i - 1] - rest[i - 1 - 1] >= gap);
    }
  }

  function CountIn(times: seq<Time>, from: Time, to: Time): nat {
    if times == [] then 0
    else (if from <= times[0] <= to then 1 else 0) + CountIn(times[1..], from, to)
  }

  // The times in a window spread over at least a gap less than one each.
  lemma {:induction false} SpacedTimesSpread(times: seq<Time>, gap: nat, from: Time, to: Time)
    requires Spaced(times, gap) && 1 <= gap && 0 < CountIn(times, from, to)
    ensures times[0] <= to && (CountIn(times, from, to) - 1) * gap <= to - from
    ensures from <= times[0] ==> (CountIn(times, from, to) - 1) * gap <= to - times[0]
  {
    var rest := times[1..];
    var n := CountIn(rest, from, to);
    if 0 < n {
      assert Spaced(rest, gap) by {
        assert forall i | 0 < i < |rest| :: rest[i] == times[i + 1] && rest[i - 1] == times[i];
      }
      SpacedTimesSpread(rest, gap, from, to);
      assert rest[0] == times[1] && times[1] - times[1 - 1] >= gap;
      OneMore(n - 1, gap);
    }
  }

  // Times at least `gap` apart number at most floor(span/gap) + 1 in any span.
  lemma FewInSpan(times: seq<Time>, gap: nat, from: Time, span: nat)
    requires 1 <= gap && Spaced(times, gap)
    ensures CountIn(times, from, from + span) <= span / gap + 1
  {
    var n := CountIn(times, from, from + span);
    if n > span / gap + 1 {
      SpacedTimesSpread(times, gap, from, from + span);
      MultiplesAscend(span / gap, n - 1, gap);
    }
  }

  function Granted(s: State, x: Section): seq<Time> {
    if x.TakeSlot? && SlotFree(s.cache, x.checkedAt) then [x.stampedAt] else []
  }

  // When the run let a request fetch for its unknown kid.
  function Grants(cfg: Config, s: State, run: seq<Section>): seq<Time>
    requires Possible(cfg, s, run)
    decreases run
  {
    if run == [] then [] else Granted(s, run[0]) + Grants(cfg, Exec(cfg, s, run[0]), run[1..])
  }

  // Times that keep an interval from the slot as it stands.
  ghost predicate KeepsAway(slotAt: Option<Time>, times: seq<Time>) {
    slotAt.Some? && times != [] ==> times[0] - slotAt.value >= UNKNOWN_KID_REFETCH_INTERVAL
  }

  lemma GrantStep(cfg: Config, s: State, x: Section, rest: seq<Time>)
    requires Enabled(cfg, s, x)
    requires Spaced(rest, UNKNOWN_KID_REFETCH_INTERVAL) && KeepsAway(Exec(cfg, s, x).cache.slotAt, rest)
    ensures Spaced(Granted(s, x) + rest, UNKNOWN_KID_REFETCH_INTERVAL) && KeepsAway(s.cache.slotAt, Granted(s, x) + rest)
  {
    if x.TakeSlot? && SlotFree(s.cache, x.checkedAt) {
      SpacedAfter(x.stampedAt, rest, UNKNOWN_KID_REFETCH_INTERVAL);
    } else {
      assert Granted(s, x) + rest == rest;
    }
  }

  lemma {:induction false} GrantsAreSpaced(cfg: Config, s: State, run: seq<Section>)
    requires Possible(cfg, s, run)
    ensures Spaced(Grants(cfg, s, run), UNKNOWN_KID_REFETCH_INTERVAL)
    ensures KeepsAway(s.cache.slotAt, Grants(cfg, s, run))
    decreases run
  {
    if run != [] {
      var t := Exec(cfg, s, run[0]);
      GrantsAreSpaced(cfg, t, run[1..]);
      GrantStep(cfg, s, run[0], Grants(cfg, t, run[1..]));
    }
  }

  // The slot as it stands is the last grant.
  lemma {:induction false} LastGrantIsSlot(cfg: Config, s: State, run: seq<Section>)
    requires Possible(cfg, s, run)
    ensures var grants := Grants(cfg, s, run);
            After(cfg, s, run).cache.slotAt == if grants == [] then s.cache.slotAt else Some(grants[|grants| - 1])
    decreases run
  {
    if run != [] {
      LastGrantIsSlot(cfg, Exec(cfg, s, run[0]), run[1..]);
    }
  }

  lemma {:induction false} MissingUntilSlot(cfg: Config, s: State, run: seq<Section>, req: nat)
    requires Possible(cfg, s, run) && At(s, req, Missing)
    requires forall x <- run :: !(x.TakeSlot? && x.req == req)
    ensures At(After(cfg, s, run), req, Missing)
    decreases run
  {
    if run != [] {
      assert run[0] in run;
      MissingUntilSlot(cfg, Exec(cfg, s, run[0]), run[1..], req);
    }
  }

  /** A request whose kid is not in the cache when it looks goes on, whatever the others do, to ask for
      the slot; it then fetches exactly when nobody was granted one for a minute, and else gives up. */
  lemma UnknownKidFetchesIff(cfg: Config, s: State, req: nat, kid: Text, mid: seq<Section>, checkedAt: Time, stampedAt: Time)
    requires At(s, req, Checked) && kid != [] && kid !in s.cache.keys
    requires Possible(cfg, Exec(cfg, s, LookUp(req, kid)), mid) && forall x <- mid :: !(x.TakeSlot? && x.req == req)
    requires After(cfg, Exec(cfg, s, LookUp(req, kid)), mid).clock <= checkedAt <= stampedAt
    ensures var s1 := Exec(cfg, s, LookUp(req, kid));
            var grants := Grants(cfg, s1, mid);
            var last := if grants == [] then s.cache.slotAt else Some(grants[|grants| - 1]);
            var ask := TakeSlot(req, checkedAt, stampedAt);
            && Enabled(cfg, After(cfg, s1, mid), ask)
            && var t := Exec(cfg, After(cfg, s1, mid), ask);
               At(t, req, if last.None? || checkedAt - last.value >= 60_000_000_000 then Refetching else Ready)
  {
    var s1 := Exec(cfg, s, LookUp(req, kid));
    MissingUntilSlot(cfg, s1, mid, req);
    LastGrantIsSlot(cfg, s1, mid);
  }

  /** However requests interleave, fetches for unknown kids are granted at least one interval apart,
      so at most floor(T/interval) + 1 of them fall in any span of time T. */
  lemma GrantsAreFew(cfg: Config, initial: Option<KeySet>, booted: Time, run: seq<Section>, from: Time, span: nat)
    requires Possible(cfg, Start(cfg, initial, booted), run)
    ensures var grants := Grants(cfg, Start(cfg, initial, booted), run);
            && (forall i | 0 < i < |grants| :: grants[i] - grants[i - 1] >= 60_000_000_000)
            && CountIn(grants, from, from + span) <= span / 60_000_000_000 + 1
  {
    var s := Start(cfg, initial, booted);
    GrantsAreSpaced(cfg, s, run);
    FewInSpan(Grants(cfg, s, run), UNKNOWN_KID_REFETCH_INTERVAL, from, span);
  }

  // --- Reloads for age ---

  // When the run stamped the cache: loads for whatever reason, and postponements.
  function Stamps(cfg: Config, s: State, run: seq<Section>): seq<Time>
    requires Possible(cfg, s, run)
    decreases run
  {
    if run == [] then []
    else
      var x := run[0];
      var now := if (x.Load? && cfg.source != NoSource) || x.Postpone? then [x.at] else [];
      now + Stamps(cfg, Exec(cfg, s, x), run[1..])
  }

  // The age of the cache is that of the last stamp, and stamps follow the clock.
  lemma {:induction false} LastStampIsAge(cfg: Config, s: State, run: seq<Section>)
    requires Possible(cfg, s, run)
    ensures var stamps, t := Stamps(cfg, s, run), After(cfg, s, run);
            && s.clock <= t.clock && (forall at <- stamps :: s.clock <= at <= t.clock)
            && t.cache.loadedAt == (if stamps == [] then s.cache.loadedAt else Some(stamps[|stamps| - 1]))
            && forall i, j | 0 <= i < j < |stamps| :: stamps[i] <= stamps[j]
    decreases run
  {
    if run != [] {
      var t := Exec(cfg, s, run[0]);
      var stamps, rest := Stamps(cfg, s, run), Stamps(cfg, t, run[1..]);
      LastStampIsAge(cfg, t, run[1..]);
      forall i, j | 0 <= i < j < |stamps| ensures stamps[i] <= stamps[j] {
        if stamps != rest {
          assert stamps[j] == rest[j - 1] && rest[j - 1] in rest;
        }
      }
    }
  }

  /** A request at t1 found the keys old and began to fetch them; sections of any requests followed;
      then a request checks the age at t2. It begins another fetch exactly when every stamp in
      between is a TTL old, so within one TTL of t1 exactly when nobody stamped the cache at all. */
  lemma RefreshAgainIff(cfg: Config, s: State, first: nat, t1: Time, mid: seq<Section>, second: nat, t2: Time)
    requires Enabled(cfg, s, CheckAge(first, t1)) && Aged(cfg, s.cache, t1)
    requires Possible(cfg, Exec(cfg, s, CheckAge(first, t1)), mid)
    requires Enabled(cfg, After(cfg, Exec(cfg, s, CheckAge(first, t1)), mid), CheckAge(second, t2))
    ensures var s1 := Exec(cfg, s, CheckAge(first, t1));
            var stamps := Stamps(cfg, s1, mid);
            var again := At(Exec(cfg, After(cfg, s1, mid), CheckAge(second, t2)), second, Refreshing);
            && (forall at <- stamps :: t1 <= at <= t2)
            && (again <==> forall at <- stamps :: t2 - at >= cfg.ttl)
            && (t2 < t1 + cfg.ttl ==> (again <==> stamps == []))
  {
    var s1 := Exec(cfg, s, CheckAge(first, t1));
    LastStampIsAge(cfg, s1, mid);
    var stamps := Stamps(cfg, s1, mid);
    if stamps != [] {
      assert stamps[|stamps| - 1] in stamps;
    }
  }

  // A request that is renewing the keys stays so until it stamps the cache itself.
  lemma {:induction false} RenewingUntilStamp(cfg: Config, s: State, run: seq<Section>, req: nat)
    requires cfg.source != NoSource && Possible(cfg, s, run) && Renewing(s, req)
    ensures Stamps(cfg, s, run) == [] ==> Renewing(After(cfg, s, run), req)
    decreases run
  {
    if run != [] && Stamps(cfg, s, run) == [] {
      RenewingUntilStamp(cfg, Exec(cfg, s, run[0]), run[1..], req);
    }
  }

  /** Two fetches for age begin within one TTL only while the first of them is still unfinished. */
  lemma OverlapMeansUnfinished(cfg: Config, s: State, first: nat, t1: Time, mid: seq<Section>, second: nat, t2: Time)
    requires Inv(cfg, s) && Enabled(cfg, s, CheckAge(first, t1)) && Aged(cfg, s.cache, t1)
    requires Possible(cfg, Exec(cfg, s, CheckAge(first, t1)), mid)
    requires Enabled(cfg, After(cfg, Exec(cfg, s, CheckAge(first, t1)), mid), CheckAge(second, t2))
    requires t2 < t1 + cfg.ttl
    ensures var s2 := After(cfg, Exec(cfg, s, CheckAge(first, t1)), mid);
            At(Exec(cfg, s2, CheckAge(second, t2)), second, Refreshing) ==> Renewing(s2, first)
  {
    RefreshAgainIff(cfg, s, first, t1, mid, second, t2);
    RenewingUntilStamp(cfg, Exec(cfg, s, CheckAge(first, t1)), mid, first);
  }

  // When the run began to fetch old keys again.
  function Refreshes(cfg: Config, s: State, run: seq<Section>): seq<Time>
    requires Possible(cfg, s, run)
    decreases run
  {
    if run == [] then []
    else
      var x := run[0];
      var now := if x.CheckAge? && Aged(cfg, s.cache, x.now) then [x.now] else [];
      now + Refreshes(cfg, Exec(cfg, s, x), run[1..])
  }

  // No age check falls inside another request's renewal; everything else may interleave.
  ghost predicate OneAtATime(cfg: Config, s: State, run: seq<Section>)
    requires Possible(cfg, s, run)
    decreases run
  {
    run != [] ==>
      && (run[0].CheckAge? ==> forall req <- s.stages :: !Renewing(s, req))
      && OneAtATime(cfg, Exec(cfg, s, run[0]), run[1..])
  }

  // The last refresh began at `last`: it is still going on, or the cache is no older than that.
  ghost predicate Settles(s: State, last: Time) {
    && last <= s.clock
    && ((exists req <- s.stages :: Renewing(s, req)) || (s.cache.loadedAt.Some? && last <= s.cache.loadedAt.value))
  }

  lemma SettlesStep(cfg: Config, s: State, x: Section, last: Time)
    requires Inv(cfg, s) && Enabled(cfg, s, x) && Settles(s, last)
    ensures Settles(Exec(cfg, s, x), last)
  {
    var t := Exec(cfg, s, x);
    if exists req <- s.stages :: Renewing(s, req) {
      var req :| req in s.stages && Renewing(s, req);
      assert x.req != req || x.Fail? ==> Renewing(t, req);
    }
  }

  lemma {:induction false} SettledRefreshesAreSpaced(cfg: Config, s: State, run: seq<Section>, last: Option<Time>)
    requires Inv(cfg, s) && Possible(cfg, s, run) && OneAtATime(cfg, s, run)
    requires last.Some? ==> Settles(s, last.value)
    ensures Spaced(Refreshes(cfg, s, run), cfg.ttl)
    ensures last.Some? && Refreshes(cfg, s, run) != [] ==> Refreshes(cfg, s, run)[0] - last.value >= cfg.ttl
    decreases run
  {
    if run != [] {
      var x := run[0];
      var t := Exec(cfg, s, x);
      RunKeepsInv(cfg, s, [x]);
      if x.CheckAge? && Aged(cfg, s.cache, x.now) {
        assert Renewing(t, x.req);
        SettledRefreshesAreSpaced(cfg, t, run[1..], Some(x.now));
        SpacedAfter(x.now, Refreshes(cfg, t, run[1..]), cfg.ttl);
      } else {
        if last.Some? {
          SettlesStep(cfg, s, x, last.value);
        }
        SettledRefreshesAreSpaced(cfg, t, run[1..], last);
      }
    }
  }

  /** When no age check falls inside a renewal, fetches for age begin at least one TTL apart over the
      whole run, even if every one of them fails and whatever unknown kids do in between. */
  lemma RefreshesAreSpaced(cfg: Config, initial: Option<KeySet>, booted: Time, run: seq<Section>)
    requires Possible(cfg, Start(cfg, initial, booted), run) && OneAtATime(cfg, Start(cfg, initial, booted), run)
    ensures Spaced(Refreshes(cfg, Start(cfg, initial, booted), run), cfg.ttl)
  {
    SettledRefreshesAreSpaced(cfg, Start(cfg, initial, booted), run, None);
  }

  // n requests that check the age at one moment.
  function Crowd(n: nat, now: Time): seq<Section> {
    seq(n, i requires 0 <= i < n => CheckAge(i, now))
  }

  lemma {:induction false} CrowdFrom(cfg: Config, s: State, done: nat, n: nat, now: Time)
    requires done <= n && Aged(cfg, s.cache, now) && s.clock <= now
    requires forall req | done <= req :: req !in s.stages
    requires forall req | 0 <= req < done :: At(s, req, Refreshing)
    ensures Possible(cfg, s, Crowd(n, now)[done..])
    ensures forall req | 0 <= req < n :: At(After(cfg, s, Crowd(n, now)[done..]), req, Refreshing)
    decreases n - done
  {
    if done < n {
      assert Crowd(n, now)[done..][1..] == Crowd(n, now)[done + 1..];
      var t := Exec(cfg, s, CheckAge(done, now));
      forall req | 0 <= req < done + 1 ensures At(t, req, Refreshing) {
        assert req < done ==> At(s, req, Refreshing);
      }
      CrowdFrom(cfg, t, done + 1, n, now);
    } else {
      assert Crowd(n, now)[done..] == [];
    }
  }

  /** One TTL after start-up any number of requests can all find the keys old and all be fetching. */
  lemma AllCanRefreshAtOnce(cfg: Config, initial: Option<KeySet>, booted: Time, n: nat)
    requires cfg.source != NoSource && 0 < cfg.ttl
    ensures var s, run := Start(cfg, initial, booted), Crowd(n, booted + cfg.ttl);
            Possible(cfg, s, run) && forall req | 0 <= req < n :: At(After(cfg, s, run), req, Refreshing)
  {
    var run := Crowd(n, booted + cfg.ttl);
    assert run[0..] == run;
    CrowdFrom(cfg, Start(cfg, initial, booted), 0, n, booted + cfg.ttl);
  }
}
