/** The store: transactions over the two tables. A database call may fail at any statement;
    `fault` names the statement of the transaction that does, counted from Begin. */
module Store {
  import opened Conflict
  import opened Accounts
  import opened Tables
  import opened Paging
  import opened Results

  predicate Fails(fault: Option<nat>, statement: nat) {
    fault == Some(statement)
  }

  // A statement among the first n fails.
  predicate FailsBefore(fault: Option<nat>, n: nat) {
    fault.Some? && fault.value < n
  }

  ghost predicate Least(db: Database, ids: set<RowId>, least: RowId)
    requires ids <= db.envelopes.Keys
  {
    least in ids && forall r <- ids :: db.envelopes[least].serverSeq <= db.envelopes[r].serverSeq
  }

  lemma LeastNumbered(db: Database, ids: set<RowId>) returns (least: RowId)
    requires ids != {} && ids <= db.envelopes.Keys
    ensures Least(db, ids, least)
  {
    var r :| r in ids;
    least := r;
    if ids != {r} {
      var s := LeastNumbered(db, ids - {r});
      if db.envelopes[s].serverSeq < db.envelopes[r].serverSeq {
        least := s;
      }
    }
  }

  function Row(db: Database, rid: RowId): Envelope
    requires rid in db.envelopes
  {
    Scan(rid, db.envelopes[rid])
  }

  // Part way through a listing: `out` holds the lowest-numbered rows of `all`, `left` the others.
  ghost predicate Listing(db: Database, user: Text, all: set<RowId>, left: set<RowId>, out: seq<Envelope>) {
    && left <= all <= db.envelopes.Keys
    && (forall rid <- all :: rid.userID == user)
    && Ascending(out) && DistinctKeys(out)
    && (forall e <- out :: RowId(user, e.id, e.part) in all - left && e == Row(db, RowId(user, e.id, e.part)))
    && (forall rid <- all - left :: Row(db, rid) in out)
    && (forall e <- out, rid <- left :: e.serverSeq <= db.envelopes[rid].serverSeq)
  }

  lemma ListingStep(db: Database, user: Text, all: set<RowId>, left: set<RowId>, out: seq<Envelope>, least: RowId)
    requires Listing(db, user, all, left, out) && least in left
    requires forall rid <- left :: db.envelopes[least].serverSeq <= db.envelopes[rid].serverSeq
    ensures Listing(db, user, all, left - {least}, out + [Row(db, least)])
  {
    var env := Row(db, least);
    assert RowId(user, env.id, env.part) == least;
    forall e <- out ensures e.RowKey() != env.RowKey() && e.serverSeq <= env.serverSeq {
      assert RowId(user, e.id, e.part) !in left;
    }
    forall rid <- all - (left - {least}) ensures Row(db, rid) in out + [env] {
      assert rid == least || rid in all - left;
    }
  }

  // A listing cut at the limit is a page of the user's account.
  lemma ListingIsPage(db: Database, user: Text, since: nat, limit: nat, all: set<RowId>, left: set<RowId>, out: seq<Envelope>)
    requires all == set rid <- db.envelopes | rid.userID == user && db.envelopes[rid].serverSeq > since
    requires Listing(db, user, all, left, out)
    requires |out| <= limit && (|out| == limit || left == {})
    ensures IsPage(AccountOf(db, user), since, limit, out)
  {
    var a := AccountOf(db, user);
    forall e <- out ensures e.RowKey() in a.rows && a.rows[e.RowKey()] == e && e.serverSeq > since {
      AccountRow(db, user, e.RowKey());
    }
    forall k <- a.rows | a.rows[k].serverSeq > since && a.rows[k] !in out
      ensures |out| == limit && forall e <- out :: e.serverSeq <= a.rows[k].serverSeq
    {
      AccountRow(db, user, k);
      var rid := RowId(user, k.id, k.part);
      assert rid in all && Row(db, rid) == a.rows[k];
      assert rid in left;
    }
  }

  // The statements of an open batch transaction, each envelope's flag recorded in turn.
  method UpsertEach(db: Database, user: Text, es: seq<Envelope>, fault: Option<nat>) returns (r: Result<(Database, seq<bool>)>)
    ensures r.Err? <==> FailsBefore(fault, 2 * |es| + 1) && !Fails(fault, 0)
    ensures r.Ok? ==> r.value == UpsertAll(db, user, es)
  {
    var tx := db;
    var applied := new bool[|es|];
    for i := 0 to |es|
      invariant !FailsBefore(fault, 2 * i + 1) || Fails(fault, 0)
      invariant (tx, applied[..i]) == UpsertAll(db, user, es[..i])
    {
      if Fails(fault, 2 * i + 1) || Fails(fault, 2 * i + 2) {
        return Err;
      }
      UpsertAllNext(db, user, es, i);
      var (next, one) := UpsertOne(tx, user, es[i]);
      tx := next;
      applied[i] := one;
      assert applied[..i + 1] == applied[..i] + [one];
    }
    assert es[..|es|] == es && applied[..|es|] == applied[..];
    return Ok((tx, applied[..]));
  }

  class Store {
    var db: Database

    constructor ()
      ensures forall user: Text :: AccountOf(db, user) == EMPTY
    {
      db := FRESH;
      new;
      forall user: Text {
        FreshAccount(user);
      }
    }

    method AllocateSeq(user: Text, fails: bool) returns (r: Result<nat>)
      modifies this
      ensures r.Err? <==> fails
      ensures r.Err? ==> db == old(db)
      ensures r.Ok? ==> r.value == old(AccountOf(db, user)).nextSeq + 1
      ensures r.Ok? ==> AccountOf(db, user) == Allocate(old(AccountOf(db, user)))
      ensures OthersSame(old(db), db, user)
    {
      if fails {
        return Err;
      }
      AllocationRefines(db, user);
      var (next, seqno) := AllocateSql(db, user);
      db := next;
      return Ok(seqno);
    }

    // One envelope, one transaction: Begin, allocate, upsert, Commit.
    method Upsert(user: Text, e: Envelope, fault: Option<nat>) returns (r: Result<bool>)
      modifies this
      ensures r.Err? <==> FailsBefore(fault, 4)
      ensures r.Err? ==> db == old(db)
      ensures r.Ok? ==> r.value == Applies(old(AccountOf(db, user)), e)
      ensures r.Ok? ==> AccountOf(db, user) == Write(old(AccountOf(db, user)), e)
      ensures OthersSame(old(db), db, user)
    {
      if Fails(fault, 0) {
        return Err;
      }
      var (tx, seqno) := AllocateSql(db, user);
      if Fails(fault, 1) {
        return Err;
      }
      var (written, applied) := UpsertSql(tx, user, e, seqno);
      if Fails(fault, 2) || Fails(fault, 3) {
        return Err;
      }
      CommitOneRefines(db, user, e);
      db := written;
      return Ok(applied);
    }

    /** One transaction for the whole batch: it is the fold of single writes, or it is nothing at all. */
    method UpsertMany(user: Text, es: seq<Envelope>, fault: Option<nat>) returns (r: Result<seq<bool>>)
      modifies this
      ensures r.Err? <==> es == [] || FailsBefore(fault, 2 * |es| + 2)
      ensures r.Err? ==> db == old(db)
      ensures r.Ok? ==> r.value == Flags(old(AccountOf(db, user)), es)
      ensures r.Ok? ==> AccountOf(db, user) == WriteAll(old(AccountOf(db, user)), es)
      ensures OthersSame(old(db), db, user)
    {
      if |es| == 0 || Fails(fault, 0) {
        return Err;
      }
      var tx := UpsertEach(db, user, es, fault);
      if tx.Err? || Fails(fault, 2 * |es| + 1) {
        return Err;
      }
      CommitRefines(db, user, es);
      db := tx.value.0;
      return Ok(tx.value.1);
    }

    /** The user's page after the cursor, and the cursor to use next. */
    method Since(user: Text, since: nat, limit: nat, fails: bool) returns (r: Result<(seq<Envelope>, int)>)
      ensures r.Err? <==> fails
      ensures r.Ok? ==> IsPage(AccountOf(db, user), since, limit, r.value.0)
      ensures r.Ok? ==> r.value.1 == NextCursor(since, r.value.0)
    {
      if fails {
        return Err;
      }
      // WHERE user_id = ? AND server_seq > ?
      var matching := set rid <- db.envelopes | rid.userID == user && db.envelopes[rid].serverSeq > since;
      ghost var all := matching;
      var out: seq<Envelope> := [];
      while |out| < limit && matching != {}
        invariant |out| <= limit && Listing(db, user, all, matching, out)
        decreases |matching|
      {
        // ORDER BY server_seq, ties in any order
        ghost var lowest := LeastNumbered(db, matching);
        assert Least(db, matching, lowest);
        var least :| least in matching
                     && forall rid <- matching :: db.envelopes[least].serverSeq <= db.envelopes[rid].serverSeq;
        ListingStep(db, user, all, matching, out, least);
        out := out + [Row(db, least)];
        matching := matching - {least};
      }
      ListingIsPage(db, user, since, limit, all, matching, out);
      var next := since as int;
      if |out| > 0 {
        next := out[|out| - 1].serverSeq;
      }
      return Ok((out, next));
    }

    /** The stored ranks of the requested keys: absent keys stay out of the map. */
    method StoredRanks(user: Text, keys: seq<Key>, fault: Option<nat>) returns (r: Result<map<Key, Ranks>>)
      ensures r.Err? <==> keys != [] && FailsBefore(fault, |keys| + 3)
      ensures r.Ok? ==> forall k :: k in r.value <==> k in keys && k in AccountOf(db, user).rows
      ensures r.Ok? ==> forall k <- r.value :: r.value[k] == AccountOf(db, user).rows[k].Ranks()
    {
      if |keys| == 0 {
        return Ok(map[]);
      }
      if Fails(fault, 0) || Fails(fault, 1) {
        return Err;
      }
      var out: map<Key, Ranks> := map[];
      for i := 0 to |keys|
        invariant !FailsBefore(fault, i + 2)
        invariant forall k :: k in out <==> k in keys[..i] && k in AccountOf(db, user).rows
        invariant forall k <- out :: out[k] == AccountOf(db, user).rows[k].Ranks()
      {
        if Fails(fault, i + 2) {
          return Err;
        }
        var key := keys[i];
        AccountRow(db, user, key);
        var rid := RowId(user, key.id, key.part);
        if rid in db.envelopes {
          var c := db.envelopes[rid];
          out := out[key := Ranks(c.lastEditedAtMS, c.revision, c.sourceID)];
        }
      }
      if Fails(fault, |keys| + 2) {
        return Err;
      }
      return Ok(out);
    }
  }
}
