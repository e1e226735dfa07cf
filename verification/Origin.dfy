/** The store's application contour: an open store is named once, an authored one by configuration. */
module Origin {
  import opened Conflict
  import opened Results

  datatype Reply = Granted(origin: Text) | OriginRequired | OriginMismatch(storeOrigin: Text, requestOrigin: Text) | Unavailable

  const META_KEY_ORIGIN := "origin"

  // The empty text stands for no origin: an unset key, an absent header, an open configuration.
  function StoredOrigin(meta: map<string, Text>): Text {
    if META_KEY_ORIGIN in meta then meta[META_KEY_ORIGIN] else []
  }

  // One request decided against what was read; the flag asks for the imprint to be written.
  function Decide(authored: Text, stored: Text, request: Text, imprint: bool): (Reply, bool) {
    if authored != [] then
      if request == [] then (OriginRequired, false)
      else if request != authored then (OriginMismatch(authored, request), false)
      else (Granted(authored), false)
    else if stored == [] then
      if request == [] && !imprint then (Granted([]), false)
      else if request == [] then (OriginRequired, false)
      else if imprint then (Granted(request), true)
      else (OriginRequired, false)
    else if request == [] && !imprint then (Granted(stored), false)
    else if request == [] then (OriginRequired, false)
    else if request == stored then (Granted(stored), false)
    else (OriginMismatch(stored, request), false)
  }

  class MetaStore {
    var meta: map<string, Text>

    constructor ()
      ensures StoredOrigin(meta) == []
    {
      meta := map[];
    }

    // Process start: refused when the configuration names another contour or the database fails.
    method BindAuthoredOrigin(authored: Text, readFails: bool, writeFails: bool) returns (started: bool)
      modifies this
      ensures started ==> Next(Down(old(StoredOrigin(meta))), Start(authored)) == Up(StoredOrigin(meta), authored)
      ensures !started ==> meta == old(meta)
      ensures started <==> authored == [] || (!readFails && (old(StoredOrigin(meta)) == authored
                                                             || (old(StoredOrigin(meta)) == [] && !writeFails)))
      ensures meta == old(meta) || meta == old(meta)[META_KEY_ORIGIN := authored]
    {
      if authored == [] {
        return true;
      }
      if readFails {
        return false;
      }
      var stored := StoredOrigin(meta);
      if stored == [] {
        if writeFails {
          return false;
        }
        meta := meta[META_KEY_ORIGIN := authored];
        return true;
      }
      return stored == authored;
    }

    method EnsureOrigin(authored: Text, request: Text, imprint: bool, readFails: bool, writeFails: bool) returns (r: Reply)
      modifies this
      ensures r.Unavailable? <==> readFails || (Decide(authored, old(StoredOrigin(meta)), request, imprint).1 && writeFails)
      ensures !r.Unavailable? ==> r == Decide(authored, old(StoredOrigin(meta)), request, imprint).0
      ensures StoredOrigin(meta) == if !r.Unavailable? && Decide(authored, old(StoredOrigin(meta)), request, imprint).1
                                    then request else old(StoredOrigin(meta))
      ensures meta == old(meta) || (imprint && authored == [] && meta == old(meta)[META_KEY_ORIGIN := request])
    {
      if readFails {
        return Unavailable;
      }
      var (reply, write) := Decide(authored, StoredOrigin(meta), request, imprint);
      if write {
        if writeFails {
          return Unavailable;
        }
        meta := meta[META_KEY_ORIGIN := request];
      }
      return reply;
    }
  }

  // --- Whole runs, each call atomic ---

  // A process runs under one configured origin; the database outlives it.
  datatype Server = Down(stored: Text) | Up(stored: Text, authored: Text)

  datatype Event = Start(authored: Text) | Stop | Call(request: Text, imprint: bool)

  function Next(s: Server, ev: Event): Server {
    match ev
    case Start(authored) =>
      if s.Up? || (authored != [] && s.stored != [] && s.stored != authored) then s
      else Up(if s.stored == [] then authored else s.stored, authored)
    case Stop => Down(s.stored)
    case Call(request, imprint) =>
      if s.Up? && Decide(s.authored, s.stored, request, imprint).1 then s.(stored := request) else s
  }

  function Run(s: Server, evs: seq<Event>): Server
    decreases evs
  {
    if evs == [] then s else Run(Next(s, evs[0]), evs[1..])
  }

  predicate Bound(s: Server) {
    s.Up? && s.authored != [] ==> s.stored == s.authored
  }

  lemma {:induction false} RunStaysBound(s: Server, evs: seq<Event>)
    requires Bound(s)
    ensures Bound(Run(s, evs))
    ensures s.stored != [] ==> Run(s, evs).stored == s.stored
    decreases evs
  {
    if evs != [] {
      RunStaysBound(Next(s, evs[0]), evs[1..]);
    }
  }

  /** Through any restarts and calls: once the store has a name it keeps it, and a granted call
      returns exactly the name stored after it. */
  lemma GrantedIsStored(evs: seq<Event>, more: seq<Event>, request: Text, imprint: bool)
    requires Run(Down([]), evs).Up?
    ensures var s := Run(Down([]), evs);
            var reply := Decide(s.authored, s.stored, request, imprint).0;
            var after := Next(s, Call(request, imprint));
            && (reply.Granted? ==> reply.origin == after.stored && (request == [] || request == after.stored))
            && (reply.OriginMismatch? ==> reply.storeOrigin == after.stored != request == reply.requestOrigin)
            && (after.stored != [] ==> Run(after, more).stored == after.stored)
  {
    RunStaysBound(Down([]), evs);
    var s := Run(Down([]), evs);
    RunStaysBound(Next(s, Call(request, imprint)), more);
  }

  /** The refusals, whatever the run: an origin is demanded of a silent handshake, of a silent request
      to an authored store, and of mail that names one before the store has it; a mismatch is a
      request that names another origin than the stored one. */
  lemma RefusalIff(evs: seq<Event>, request: Text, imprint: bool)
    requires Run(Down([]), evs).Up?
    ensures var s := Run(Down([]), evs);
            var reply := Decide(s.authored, s.stored, request, imprint).0;
            && (reply.OriginRequired? <==>
                  if request == [] then imprint || s.authored != [] else !imprint && s.stored == [])
            && (reply.OriginMismatch? <==> request != [] && s.stored != [] && request != s.stored)
            && !reply.Unavailable?
  {
    RunStaysBound(Down([]), evs);
  }

  lemma {:induction false} RunSnoc(s: Server, evs: seq<Event>, ev: Event)
    ensures Run(s, evs + [ev]) == Next(Run(s, evs), ev)
    decreases evs
  {
    if evs == [] {
      assert [ev][1..] == [];
      assert evs + [ev] == [ev];
      assert Run(Next(s, ev), []) == Next(s, ev);
    } else {
      assert (evs + [ev])[1..] == evs[1..] + [ev];
      RunSnoc(Next(s, evs[0]), evs[1..], ev);
    }
  }

  // The configuration a process runs under, as far as nothing refused its start.
  function Configured(evs: seq<Event>): Option<Text> {
    if evs == [] then None else ConfiguredNext(Configured(evs[..|evs| - 1]), evs[|evs| - 1])
  }

  function ConfiguredNext(c: Option<Text>, ev: Event): Option<Text> {
    match ev
    case Start(authored) => if c.Some? then c else Some(authored)
    case Stop => None
    case Call(_, _) => c
  }

  // What an event could name the store: an authored start, or an imprint that carries an origin.
  function Offer(c: Option<Text>, ev: Event): Text {
    match ev
    case Start(authored) => if c.None? then authored else []
    case Stop => []
    case Call(request, imprint) => if c.Some? && imprint then request else []
  }

  function NameFrom(evs: seq<Event>, i: nat): Text
    requires i < |evs|
  {
    Offer(Configured(evs[..i]), evs[i])
  }

  // An unnamed store runs under the open configuration or not at all.
  function Unnamed(c: Option<Text>): Server {
    if c.Some? then Up([], c.value) else Down([])
  }

  lemma OfferStep(c: Option<Text>, ev: Event)
    requires c.Some? ==> c.value == []
    ensures Bound(Next(Unnamed(c), ev)) && Next(Unnamed(c), ev).stored == Offer(c, ev)
    ensures Offer(c, ev) == [] ==> Next(Unnamed(c), ev) == Unnamed(ConfiguredNext(c, ev))
                                   && (ConfiguredNext(c, ev).Some? ==> ConfiguredNext(c, ev).value == [])
  {
  }

  lemma {:induction false} UnnamedSoFar(evs: seq<Event>, n: nat)
    requires n <= |evs| && forall i | 0 <= i < n :: NameFrom(evs, i) == []
    ensures Configured(evs[..n]).Some? ==> Configured(evs[..n]).value == []
    ensures Run(Down([]), evs[..n]) == Unnamed(Configured(evs[..n]))
    decreases n
  {
    if n > 0 {
      UnnamedSoFar(evs, n - 1);
      assert NameFrom(evs, n - 1) == [];
      OfferStep(Configured(evs[..n - 1]), evs[n - 1]);
      assert evs[..n] == evs[..n - 1] + [evs[n - 1]] && evs[..n][..n - 1] == evs[..n - 1];
      RunSnoc(Down([]), evs[..n - 1], evs[n - 1]);
    } else {
      assert evs[..n] == [];
    }
  }

  lemma RunSplits(s: Server, evs: seq<Event>, n: nat)
    requires n <= |evs|
    ensures Run(s, evs) == Run(Run(s, evs[..n]), evs[n..])
    decreases evs
  {
    if n == 0 {
      assert evs[..0] == [] && evs[0..] == evs;
    } else {
      assert evs[..n][1..] == evs[1..][..n - 1] && evs[n..] == evs[1..][n - 1..];
      RunSplits(Next(s, evs[0]), evs[1..], n - 1);
    }
  }

  /** Over any run from an empty database, the store's name is the first one offered: by the start
      of an authored process, or by an imprinting call that carries an origin. It stays unnamed
      exactly when the run offers none. */
  lemma NamedByFirst(evs: seq<Event>, i: nat)
    requires i < |evs| && NameFrom(evs, i) != [] && forall j | 0 <= j < i :: NameFrom(evs, j) == []
    ensures Run(Down([]), evs).stored == NameFrom(evs, i)
  {
    UnnamedSoFar(evs, i);
    var named := Next(Run(Down([]), evs[..i]), evs[i]);
    OfferStep(Configured(evs[..i]), evs[i]);
    assert evs[..i + 1] == evs[..i] + [evs[i]];
    RunSnoc(Down([]), evs[..i], evs[i]);
    RunSplits(Down([]), evs, i + 1);
    RunStaysBound(named, evs[i + 1..]);
  }

  lemma {:induction false} FirstOffer(evs: seq<Event>, n: nat) returns (i: nat)
    requires n < |evs| && NameFrom(evs, n) != []
    ensures i <= n && NameFrom(evs, i) != [] && forall j | 0 <= j < i :: NameFrom(evs, j) == []
    decreases n
  {
    if j :| 0 <= j < n && NameFrom(evs, j) != [] {
      i := FirstOffer(evs, j);
    } else {
      i := n;
    }
  }

  lemma NamedByIff(evs: seq<Event>)
    ensures Run(Down([]), evs).stored != [] <==> exists i | 0 <= i < |evs| :: NameFrom(evs, i) != []
  {
    if n :| 0 <= n < |evs| && NameFrom(evs, n) != [] {
      var i := FirstOffer(evs, n);
      NamedByFirst(evs, i);
    } else {
      UnnamedSoFar(evs, |evs|);
      assert evs[..|evs|] == evs;
    }
  }

  // --- The read and the write of a call as separate steps, on an open store ---

  // `writers` are the imprinting calls that read an empty origin and have not written yet.
  datatype Race = Race(stored: Text, writers: map<nat, Text>)

  datatype Move = ReadBy(caller: nat, request: Text, imprint: bool) | WriteBy(caller: nat) | FailBy(caller: nat)

  const OPEN := Race([], map[])

  predicate CanMove(r: Race, m: Move) {
    if m.ReadBy? then m.caller !in r.writers else m.caller in r.writers
  }

  function Moved(r: Race, m: Move): Race
    requires CanMove(r, m)
  {
    match m
    case ReadBy(caller, request, imprint) =>
      if Decide([], r.stored, request, imprint).1 then r.(writers := r.writers[caller := request]) else r
    case WriteBy(caller) => Race(r.writers[caller], r.writers - {caller})
    case FailBy(caller) => r.(writers := r.writers - {caller})
  }

  // What the caller is told by the move, if the move ends its call.
  function Told(r: Race, m: Move): Option<Reply>
    requires CanMove(r, m)
  {
    match m
    case ReadBy(_, request, imprint) =>
      var (reply, write) := Decide([], r.stored, request, imprint);
      if write then None else Some(reply)
    case WriteBy(caller) => Some(Granted(r.writers[caller]))
    case FailBy(_) => Some(Unavailable)
  }

  predicate CanMoveAll(r: Race, ms: seq<Move>)
    decreases ms
  {
    ms != [] ==> CanMove(r, ms[0]) && CanMoveAll(Moved(r, ms[0]), ms[1..])
  }

  function MovedAll(r: Race, ms: seq<Move>): Race
    requires CanMoveAll(r, ms)
    decreases ms
  {
    if ms == [] then r else MovedAll(Moved(r, ms[0]), ms[1..])
  }

  function ToldAll(r: Race, ms: seq<Move>): seq<Option<Reply>>
    requires CanMoveAll(r, ms)
    decreases ms
  {
    if ms == [] then [] else [Told(r, ms[0])] + ToldAll(Moved(r, ms[0]), ms[1..])
  }

  /** With nothing in between, the read and the write make the one step of the atomic call, and tell
      its reply. */
  lemma ReadThenWriteIsCall(r: Race, caller: nat, request: Text, imprint: bool)
    requires caller !in r.writers
    ensures var read := ReadBy(caller, request, imprint);
            var s := Up(r.stored, []);
            && CanMove(r, read)
            && var mid := Moved(r, read);
               if Told(r, read).Some? then
                 mid == r && Told(r, read).value == Decide([], r.stored, request, imprint).0 && Next(s, Call(request, imprint)) == s
               else
                 && CanMove(mid, WriteBy(caller))
                 && Moved(mid, WriteBy(caller)) == r.(stored := request)
                 && Told(mid, WriteBy(caller)) == Some(Decide([], r.stored, request, imprint).0)
                 && Next(s, Call(request, imprint)) == s.(stored := request)
  {
    if Told(r, ReadBy(caller, request, imprint)).None? {
      assert r.writers[caller := request] - {caller} == r.writers;
    }
  }

  // Two imprints that both read empty are both granted, and the second replaces the first: the
  // first caller was told a name that is no longer the store's.
  lemma TwoImprintsRace(a: Text, b: Text)
    requires a != [] && b != [] && a != b
    ensures var ms := [ReadBy(0, a, true), ReadBy(1, b, true), WriteBy(0), WriteBy(1)];
            && CanMoveAll(OPEN, ms)
            && ToldAll(OPEN, ms) == [None, None, Some(Granted(a)), Some(Granted(b))]
            && MovedAll(OPEN, ms) == Race(b, map[])
  {
    var m0, m1, m2, m3 := ReadBy(0, a, true), ReadBy(1, b, true), WriteBy(0), WriteBy(1);
    var r1 := Moved(OPEN, m0);
    var r2 := Moved(r1, m1);
    var r3 := Moved(r2, m2);
    var r4 := Moved(r3, m3);
    assert [m3][1..] == [] && [m2, m3][1..] == [m3] && [m1, m2, m3][1..] == [m2, m3];
    assert [m0, m1, m2, m3][1..] == [m1, m2, m3];
    assert CanMoveAll(r4, []) && MovedAll(r4, []) == r4 && ToldAll(r4, []) == [];
    assert CanMoveAll(r3, [m3]) && MovedAll(r3, [m3]) == r4 && ToldAll(r3, [m3]) == [Some(Granted(b))];
    assert CanMoveAll(r2, [m2, m3]) && MovedAll(r2, [m2, m3]) == r4;
    assert ToldAll(r2, [m2, m3]) == [Some(Granted(a)), Some(Granted(b))];
    assert CanMoveAll(r1, [m1, m2, m3]) && MovedAll(r1, [m1, m2, m3]) == r4;
    assert r4.writers == map[];
  }

  // Only calls that carry an origin get as far as a write.
  ghost predicate Named(r: Race) {
    forall w <- r.writers :: r.writers[w] != []
  }

  lemma {:induction false} MovedAllNamed(r: Race, ms: seq<Move>)
    requires Named(r) && CanMoveAll(r, ms)
    ensures Named(MovedAll(r, ms))
    decreases ms
  {
    if ms != [] {
      MovedAllNamed(Moved(r, ms[0]), ms[1..]);
    }
  }

  lemma {:induction false} NamedMovesOn(r: Race, ms: seq<Move>)
    requires r.stored != [] && Named(r) && CanMoveAll(r, ms)
    ensures MovedAll(r, ms).writers.Keys <= r.writers.Keys
    ensures MovedAll(r, ms).stored == r.stored || exists w <- r.writers :: MovedAll(r, ms).stored == r.writers[w]
    ensures r.writers == map[] ==> MovedAll(r, ms) == r
    decreases ms
  {
    if ms != [] {
      var next := Moved(r, ms[0]);
      NamedMovesOn(next, ms[1..]);
      if exists w <- next.writers :: MovedAll(r, ms).stored == next.writers[w] {
        var w :| w in next.writers && MovedAll(r, ms).stored == next.writers[w];
        assert w in r.writers && next.writers[w] == r.writers[w];
      }
    }
  }

  /** With reads and writes interleaved, a named store holds its name or that of an imprint that
      read empty before the naming; nobody joins those, and once they are gone nothing changes. */
  lemma LateWritersOnly(before: seq<Move>, ms: seq<Move>)
    requires CanMoveAll(OPEN, before) && MovedAll(OPEN, before).stored != []
    requires CanMoveAll(MovedAll(OPEN, before), ms)
    ensures var r := MovedAll(OPEN, before);
            var t := MovedAll(r, ms);
            && t.writers.Keys <= r.writers.Keys
            && (t.stored == r.stored || exists w <- r.writers :: t.stored == r.writers[w])
            && (r.writers == map[] ==> t == r)
  {
    MovedAllNamed(OPEN, before);
    NamedMovesOn(MovedAll(OPEN, before), ms);
  }

  // Nobody is about to write another name.
  ghost predicate Settled(r: Race) {
    forall w <- r.writers :: r.writers[w] == r.stored
  }

  // Whatever follows, the name stays.
  ghost predicate NameStays(r: Race) {
    forall ms | CanMoveAll(r, ms) :: MovedAll(r, ms).stored == r.stored
  }

  ghost predicate GrantsTell(replies: seq<Option<Reply>>, name: Text) {
    forall told <- replies :: told.Some? && told.value.Granted? ==> told.value.origin == name
  }

  // Whatever follows, every grant tells the name stored now.
  ghost predicate GrantsAgree(r: Race) {
    forall ms | CanMoveAll(r, ms) :: GrantsTell(ToldAll(r, ms), r.stored)
  }

  lemma {:induction false} SettledStays(r: Race, ms: seq<Move>)
    requires r.stored != [] && Settled(r) && CanMoveAll(r, ms)
    ensures MovedAll(r, ms).stored == r.stored
    ensures GrantsTell(ToldAll(r, ms), r.stored)
    decreases ms
  {
    if ms != [] {
      SettledStays(Moved(r, ms[0]), ms[1..]);
    }
  }

  lemma OneWrite(r: Race, w: nat)
    requires w in r.writers
    ensures CanMoveAll(r, [WriteBy(w)]) && MovedAll(r, [WriteBy(w)]).stored == r.writers[w]
    ensures ToldAll(r, [WriteBy(w)]) == [Some(Granted(r.writers[w]))]
  {
    var next := Moved(r, WriteBy(w));
    assert [WriteBy(w)][1..] == [];
    assert CanMoveAll(next, []) && MovedAll(next, []) == next && ToldAll(next, []) == [];
  }

  /** Once an open store has a name, that name can never change again, whatever follows, exactly when
      no call that read empty is about to write a different one; and exactly then every later grant
      tells the name stored now. */
  lemma NameIsFinalIff(before: seq<Move>)
    requires CanMoveAll(OPEN, before) && MovedAll(OPEN, before).stored != []
    ensures NameStays(MovedAll(OPEN, before)) <==> Settled(MovedAll(OPEN, before))
    ensures GrantsAgree(MovedAll(OPEN, before)) <==> Settled(MovedAll(OPEN, before))
  {
    var r := MovedAll(OPEN, before);
    if Settled(r) {
      forall ms | CanMoveAll(r, ms)
        ensures MovedAll(r, ms).stored == r.stored && GrantsTell(ToldAll(r, ms), r.stored)
      {
        SettledStays(r, ms);
      }
    } else {
      var w :| w in r.writers && r.writers[w] != r.stored;
      OneWrite(r, w);
      assert Some(Granted(r.writers[w])) in ToldAll(r, [WriteBy(w)]);
    }
  }
}
