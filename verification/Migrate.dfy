/** Schema migrations replayed at every open, some of which fail part way. */
module Migrate {
  import opened Conflict
  import opened Results
  import opened Sorting

  datatype Migration = Migration(version: int, name: Text, sql: Text)

  // By version, then by file name.
  function Leq(a: Migration, b: Migration): bool {
    if a.version == b.version then !TextLess(b.name, a.name) else a.version < b.version
  }

  lemma LeqIsPreorder()
    ensures TotalPreorder(Leq)
  {
    forall a: Migration, b: Migration ensures Leq(a, b) || Leq(b, a) {
      TextLessTotal(a.name, b.name);
      if TextLess(a.name, b.name) && TextLess(b.name, a.name) {
        TextLessTransitive(a.name, b.name, a.name);
      }
    }
    forall a: Migration, b: Migration, c: Migration | Leq(a, b) && Leq(b, c) ensures Leq(a, c) {
      TextLessTotal(c.name, a.name);
      TextLessTotal(a.name, b.name);
      TextLessTotal(b.name, c.name);
      if a.version == c.version && TextLess(c.name, a.name) {
        if TextLess(a.name, b.name) {
          TextLessTransitive(c.name, a.name, b.name);
        }
      }
    }
  }

  // SELECT MAX(version), or zero before the first migration.
  function MaxVersion(recorded: seq<int>): int {
    if recorded == [] then 0
    else
      var n := |recorded| - 1;
      var earlier := MaxVersion(recorded[..n]);
      if n == 0 || recorded[n] > earlier then recorded[n] else earlier
  }

  function Versions(ms: seq<Migration>): seq<int> {
    seq(|ms|, i requires 0 <= i < |ms| => ms[i].version)
  }

  // What the loop goes on to apply from the given current version.
  function Pending(ms: seq<Migration>, current: int): seq<Migration> {
    if ms == [] then []
    else if ms[0].version <= current then Pending(ms[1..], current)
    else [ms[0]] + Pending(ms[1..], ms[0].version)
  }

  predicate HasVersion(ms: seq<Migration>, v: int) {
    exists m <- ms :: m.version == v
  }

  predicate DistinctVersions(ms: seq<Migration>) {
    ms == [] || (!HasVersion(ms[1..], ms[0].version) && DistinctVersions(ms[1..]))
  }

  predicate DistinctPositive(ms: seq<Migration>) {
    (forall m <- ms :: m.version > 0) && DistinctVersions(ms)
  }

  predicate StrictlyAscending(ms: seq<Migration>) {
    forall i, j | 0 <= i < j < |ms| :: ms[i].version < ms[j].version
  }

  predicate Ascending(ms: seq<Migration>) {
    (forall m <- ms :: m.version > 0) && StrictlyAscending(ms)
  }

  lemma {:induction false} PendingSkips(ms: seq<Migration>, n: nat, current: int)
    requires n <= |ms| && forall i | 0 <= i < n :: ms[i].version <= current
    ensures Pending(ms, current) == Pending(ms[n..], current)
  {
    if n > 0 {
      PendingSkips(ms[1..], n - 1, current);
      assert ms[1..][n - 1..] == ms[n..];
    } else {
      assert ms[0..] == ms;
    }
  }

  lemma {:induction false} PendingAll(ms: seq<Migration>, current: int)
    requires Ascending(ms) && (ms != [] ==> current < ms[0].version)
    ensures Pending(ms, current) == ms
    decreases ms
  {
    if ms != [] {
      PendingAll(ms[1..], ms[0].version);
    }
  }

  lemma {:induction false} MaxOfAscending(ms: seq<Migration>)
    requires Ascending(ms)
    ensures MaxVersion(Versions(ms)) == if ms == [] then 0 else ms[|ms| - 1].version
  {
    if ms != [] {
      var n := |ms| - 1;
      MaxOfAscending(ms[..n]);
      assert Versions(ms)[..n] == Versions(ms[..n]);
      assert ms[n] in ms;
    }
  }

  // With a prefix recorded, the rest is pending.
  lemma PendingIsRest(ms: seq<Migration>, n: nat)
    requires Ascending(ms) && n <= |ms|
    ensures Pending(ms, MaxVersion(Versions(ms[..n]))) == ms[n..]
  {
    MaxOfAscending(ms[..n]);
    PendingFrom(ms, n, if n == 0 then 0 else ms[n - 1].version);
    assert n > 0 ==> ms[..n][n - 1] == ms[n - 1];
  }

  lemma PendingFrom(ms: seq<Migration>, n: nat, current: int)
    requires Ascending(ms) && n <= |ms|
    requires current == if n == 0 then 0 else ms[n - 1].version
    ensures Pending(ms, current) == ms[n..]
  {
    assert forall i | 0 <= i < n :: ms[i].version <= current;
    PendingSkips(ms, n, current);
    assert Ascending(ms[n..]) by {
      assert forall m <- ms[n..] :: m in ms;
    }
    if n < |ms| {
      assert ms[n] in ms && ms[n..][0] == ms[n];
    }
    PendingAll(ms[n..], current);
  }

  lemma {:induction false} PendingAscends(ms: seq<Migration>, current: int)
    ensures forall i, j | 0 <= i < j < |Pending(ms, current)| ::
              Pending(ms, current)[i].version < Pending(ms, current)[j].version
    ensures forall m <- Pending(ms, current) :: m.version > current
    decreases ms
  {
    if ms != [] {
      PendingAscends(ms[1..], if ms[0].version <= current then current else ms[0].version);
    }
  }

  /** A fresh database gets every migration of a positive, sorted list exactly when no two share a
      version: of two that do, the second is skipped without an error. */
  lemma AllAppliedIffDistinct(entries: seq<Migration>)
    requires forall m <- entries :: m.version > 0
    ensures Pending(Sort(entries, Leq), 0) == Sort(entries, Leq) <==> DistinctPositive(entries)
  {
    SortedIsAscendingIff(entries);
    var ms := Sort(entries, Leq);
    if Ascending(ms) {
      if ms != [] {
        assert ms[0] in ms;
      }
      PendingAll(ms, 0);
    }
    if Pending(ms, 0) == ms {
      PendingAscends(ms, 0);
    }
  }

  lemma {:induction false} InsertVersions(x: Migration, s: seq<Migration>, v: int)
    ensures HasVersion(Insert(x, s, Leq), v) <==> x.version == v || HasVersion(s, v)
    ensures DistinctVersions(Insert(x, s, Leq)) <==> !HasVersion(s, x.version) && DistinctVersions(s)
  {
    if s == [] || Leq(x, s[0]) {
      assert ([x] + s)[1..] == s;
      assert HasVersion([x] + s, v) <==> x.version == v || HasVersion(s, v) by {
        assert forall m :: m in [x] + s <==> m == x || m in s;
      }
    } else {
      var rest := Insert(x, s[1..], Leq);
      InsertVersions(x, s[1..], v);
      InsertVersions(x, s[1..], s[0].version);
      assert ([s[0]] + rest)[1..] == rest;
      assert forall m :: m in [s[0]] + rest <==> m == s[0] || m in rest;
      assert forall m :: m in s <==> m == s[0] || m in s[1..];
    }
  }

  lemma {:induction false} SortVersions(ms: seq<Migration>, v: int)
    ensures HasVersion(Sort(ms, Leq), v) <==> HasVersion(ms, v)
    ensures DistinctVersions(Sort(ms, Leq)) <==> DistinctVersions(ms)
  {
    if ms != [] {
      SortVersions(ms[1..], v);
      SortVersions(ms[1..], ms[0].version);
      InsertVersions(ms[0], Sort(ms[1..], Leq), v);
      assert forall m :: m in ms <==> m == ms[0] || m in ms[1..];
    }
  }

  lemma {:induction false} DistinctAscends(ms: seq<Migration>)
    requires Sorted(ms, Leq) && DistinctVersions(ms)
    ensures StrictlyAscending(ms)
  {
    if ms != [] {
      var rest := ms[1..];
      DistinctAscends(rest);
      forall i, j | 0 <= i < j < |ms| ensures ms[i].version < ms[j].version {
        if i == 0 {
          assert Leq(ms[0], ms[j]) && ms[j] == rest[j - 1] && ms[j] in rest;
        } else {
          assert ms[i] == rest[i - 1] && ms[j] == rest[j - 1];
        }
      }
    }
  }

  lemma {:induction false} AscendingIsDistinct(ms: seq<Migration>)
    requires StrictlyAscending(ms)
    ensures DistinctVersions(ms)
  {
    if ms != [] {
      var rest := ms[1..];
      AscendingIsDistinct(rest);
      forall m <- rest ensures m.version != ms[0].version {
        var j :| 0 <= j < |rest| && rest[j] == m;
        assert ms[0].version < ms[j + 1].version;
      }
    }
  }

  lemma SortedIsAscendingIff(entries: seq<Migration>)
    requires forall m <- entries :: m.version > 0
    ensures Ascending(Sort(entries, Leq)) <==> DistinctPositive(entries)
    ensures forall m <- Sort(entries, Leq) :: m.version > 0
  {
    var ms := Sort(entries, Leq);
    LeqIsPreorder();
    SortSorts(entries, Leq);
    SortVersions(entries, 0);
    if DistinctVersions(ms) {
      DistinctAscends(ms);
    }
    if StrictlyAscending(ms) {
      AscendingIsDistinct(ms);
    }
    forall m <- ms ensures m.version > 0 {
      assert m in multiset(ms);
      assert m in multiset(entries);
    }
  }

  lemma {:induction false} PendingTakesFirst(ms: seq<Migration>, current: int)
    requires Sorted(ms, Leq)
    ensures forall m, other | m in Pending(ms, current) && other in ms && other.version == m.version :: Leq(m, other)
    ensures forall other <- ms | other.version > current :: HasVersion(Pending(ms, current), other.version)
    ensures forall m <- Pending(ms, current) :: m in ms
    decreases ms
  {
    if ms != [] {
      var x, rest := ms[0], ms[1..];
      var next := if x.version <= current then current else x.version;
      var tail := Pending(rest, next);
      PendingTakesFirst(rest, next);
      PendingAscends(rest, next);
      LeqIsPreorder();
      assert forall other :: other in ms <==> other == x || other in rest;
      assert forall m :: m in Pending(ms, current) <==> m in tail || (x.version > current && m == x);
      forall other <- rest ensures Leq(x, other) {
        var i :| 0 <= i < |rest| && rest[i] == other;
        assert ms[i + 1] == other;
      }
    }
  }

  lemma SameElements(xs: seq<Migration>, ys: seq<Migration>)
    requires multiset(xs) == multiset(ys)
    ensures forall m :: m in xs <==> m in ys
  {
    forall m ensures m in xs <==> m in ys {
      assert m in xs <==> m in multiset(xs);
      assert m in ys <==> m in multiset(ys);
    }
  }

  lemma SortedHasEntries(entries: seq<Migration>)
    ensures Sorted(Sort(entries, Leq), Leq)
    ensures forall m :: m in Sort(entries, Leq) <==> m in entries
  {
    LeqIsPreorder();
    SortSorts(entries, Leq);
    SameElements(Sort(entries, Leq), entries);
  }

  // Nothing of m's version comes before it by name.
  ghost predicate FirstOfVersion(entries: seq<Migration>, m: Migration) {
    m in entries && forall other <- entries | other.version == m.version :: !TextLess(other.name, m.name)
  }

  /** Whatever versions the files carry, a fresh database gets each version once, in ascending order,
      from the file of that version whose name comes first. */
  lemma OnePerVersion(entries: seq<Migration>)
    requires forall m <- entries :: m.version > 0
    ensures var applied := Pending(Sort(entries, Leq), 0);
            && (forall i, j | 0 <= i < j < |applied| :: applied[i].version < applied[j].version)
            && (forall m <- applied :: FirstOfVersion(entries, m))
            && (forall other <- entries :: HasVersion(applied, other.version))
  {
    var ms := Sort(entries, Leq);
    SortedHasEntries(entries);
    PendingTakesFirst(ms, 0);
    PendingAscends(ms, 0);
    forall m <- Pending(ms, 0) ensures FirstOfVersion(entries, m) {
      forall other <- entries | other.version == m.version ensures !TextLess(other.name, m.name) {
        assert Leq(m, other);
      }
    }
  }

  // The version the loop has come to after these migrations.
  function Reached(ms: seq<Migration>, current: int): int {
    if ms == [] then current
    else Reached(ms[1..], if ms[0].version <= current then current else ms[0].version)
  }

  lemma {:induction false} PendingSnoc(ms: seq<Migration>, m: Migration, current: int)
    ensures var last := Reached(ms, current);
            && Pending(ms + [m], current) == Pending(ms, current) + (if m.version <= last then [] else [m])
            && Reached(ms + [m], current) == if m.version <= last then last else m.version
    decreases ms
  {
    if ms == [] {
      assert [m][1..] == [] && ms + [m] == [m];
      assert Pending([], m.version) == [] && Pending([], current) == [];
      assert Reached([], m.version) == m.version && Reached([], current) == current;
    } else {
      assert (ms + [m])[0] == ms[0] && (ms + [m])[1..] == ms[1..] + [m];
      PendingSnoc(ms[1..], m, if ms[0].version <= current then current else ms[0].version);
    }
  }

  // The loop comes to the failing migration and does not skip it.
  predicate MeetsFailure(ms: seq<Migration>, current: int, failsAt: Option<nat>) {
    failsAt.Some? && failsAt.value < |ms| && ms[failsAt.value].version > Reached(ms[..failsAt.value], current)
  }

  class Schema {
    // schema_migrations in insertion order, and the scripts whose effect the database carries.
    var recorded: seq<int>
    var effects: seq<Migration>

    ghost predicate Valid()
      reads this
    {
      recorded == Versions(effects)
    }

    constructor ()
      ensures Valid() && effects == []
    {
      recorded, effects := [], [];
    }

    // Script and record commit together, or neither does; a version can be recorded once.
    method ApplyMigration(m: Migration, fails: bool) returns (ok: bool)
      requires Valid()
      modifies this
      ensures Valid()
      ensures ok <==> !fails && m.version !in old(recorded)
      ensures effects == if ok then old(effects) + [m] else old(effects)
      ensures recorded == if ok then old(recorded) + [m.version] else old(recorded)
    {
      if fails || m.version in recorded {
        return false;
      }
      recorded := recorded + [m.version];
      effects := effects + [m];
      return true;
    }

    // The loop over the sorted list; it stops at the first failure.
    method ApplyInOrder(migrations: seq<Migration>, failsAt: Option<nat>) returns (ok: bool)
      requires Valid()
      modifies this
      ensures Valid()
      ensures ok <==> !MeetsFailure(migrations, MaxVersion(old(recorded)), failsAt)
      ensures effects == old(effects) + Pending(if ok then migrations else migrations[..failsAt.value], MaxVersion(old(recorded)))
    {
      ghost var from := MaxVersion(recorded);
      var current := MaxVersion(recorded);
      MaxIsGreatest(recorded);
      for i := 0 to |migrations|
        invariant Valid() && current == Reached(migrations[..i], from)
        invariant effects == old(effects) + Pending(migrations[..i], from)
        invariant forall v <- recorded :: v <= current
        invariant failsAt.Some? && failsAt.value < i ==> !MeetsFailure(migrations, from, failsAt)
      {
        var migration := migrations[i];
        assert migrations[..i + 1] == migrations[..i] + [migration];
        PendingSnoc(migrations[..i], migration, from);
        if migration.version > current {
          var applied := ApplyMigration(migration, failsAt == Some(i));
          if !applied {
            return false;
          }
          current := migration.version;
        }
      }
      assert migrations[..|migrations|] == migrations;
      return true;
    }

    /** One open. It succeeds unless there are no migrations, the version cannot be read, or the loop
        meets a failure; then it has applied what comes before that. With distinct positive versions
        the effects are always a prefix of the ascending list, each migration at most once; a
        successful open has applied all of them, and another changes nothing. */
    method ApplyMigrations(entries: seq<Migration>, queryFails: bool, failsAt: Option<nat>) returns (ok: bool)
      requires Valid()
      modifies this
      ensures Valid()
      ensures ok <==> entries != [] && !queryFails && !MeetsFailure(Sort(entries, Leq), MaxVersion(old(recorded)), failsAt)
      ensures entries == [] || queryFails ==> effects == old(effects)
      ensures entries != [] && !queryFails ==>
                effects == old(effects) + Pending(if ok then Sort(entries, Leq) else Sort(entries, Leq)[..failsAt.value], MaxVersion(old(recorded)))
      ensures old(effects) <= effects <= old(effects) + Pending(Sort(entries, Leq), MaxVersion(old(recorded)))
      ensures DistinctPositive(entries) && old(effects) <= Sort(entries, Leq) ==>
                effects <= Sort(entries, Leq) && (ok ==> effects == Sort(entries, Leq))
    {
      var migrations := Sort(entries, Leq);
      OpenTarget(entries, effects);
      if MeetsFailure(migrations, MaxVersion(recorded), failsAt) {
        PendingOfPrefix(migrations, failsAt.value, MaxVersion(recorded));
      }
      if |migrations| == 0 || queryFails {
        return false;
      }
      ok := ApplyInOrder(migrations, failsAt);
    }
  }

  // What is pending of a part is a beginning of what is pending of all.
  lemma {:induction false} PendingOfPrefix(ms: seq<Migration>, n: nat, current: int)
    requires n <= |ms|
    ensures Pending(ms[..n], current) <= Pending(ms, current)
    decreases ms
  {
    if n > 0 {
      assert ms[..n][1..] == ms[1..][..n - 1];
      PendingOfPrefix(ms[1..], n - 1, if ms[0].version <= current then current else ms[0].version);
    } else {
      assert ms[..0] == [];
    }
  }

  // Where an open is heading when a prefix of the ascending list is already in place.
  lemma OpenTarget(entries: seq<Migration>, base: seq<Migration>)
    ensures DistinctPositive(entries) && base <= Sort(entries, Leq) ==>
              base + Pending(Sort(entries, Leq), MaxVersion(Versions(base))) == Sort(entries, Leq)
    ensures entries == [] <==> Sort(entries, Leq) == []
  {
    var ms := Sort(entries, Leq);
    LeqIsPreorder();
    SortSorts(entries, Leq);
    if DistinctPositive(entries) && base <= ms {
      SortedIsAscendingIff(entries);
      PendingIsRest(ms, |base|);
      assert ms[..|base|] == base;
    }
  }

  lemma {:induction false} MaxIsGreatest(vs: seq<int>)
    ensures forall v <- vs :: v <= MaxVersion(vs)
  {
    if vs != [] {
      var n := |vs| - 1;
      MaxIsGreatest(vs[..n]);
      assert vs == vs[..n] + [vs[n]];
    }
  }
}
