/** The two shared tables of every user, the SQL statements over them, and the account each user sees. */
module Tables {
  import opened Conflict
  import opened Accounts

  // Primary key of the envelopes table.
  datatype RowId = RowId(userID: Text, id: Text, part: Text)

  datatype Columns = Columns(
    entityType: Text, createdAtMS: int, lastEditedAtMS: int, revision: int, sourceID: Text,
    flags: int, schemaVersion: int, serverSeq: int, payloadEncoding: Text, payload: seq<byte>)

  datatype Database = Database(users: map<Text, nat>, envelopes: map<RowId, Columns>)

  const FRESH := Database(map[], map[])

  // INSERT (user_id, 1) ON CONFLICT next_seq + 1 RETURNING next_seq.
  function AllocateSql(db: Database, user: Text): (Database, nat) {
    var seqno := if user in db.users then db.users[user] + 1 else 1;
    (db.(users := db.users[user := seqno]), seqno)
  }

  // INSERT ... ON CONFLICT DO UPDATE SET ... WHERE ... RETURNING: the flag says whether a row came back.
  function UpsertSql(db: Database, user: Text, e: Envelope, seqno: nat): (Database, bool) {
    var rid := RowId(user, e.id, e.part);
    if rid !in db.envelopes then
      var inserted := Columns(e.entityType, e.createdAtMS, e.lastEditedAtMS, e.revision, e.sourceID,
                              e.flags, e.schemaVersion, seqno, e.payloadEncoding, e.payload);
      (db.(envelopes := db.envelopes[rid := inserted]), true)
    else
      var existing := db.envelopes[rid];
      if UpsertWhere(e.Ranks(), Ranks(existing.lastEditedAtMS, existing.revision, existing.sourceID)) then
        var updated := existing.(
          entityType := e.entityType, lastEditedAtMS := e.lastEditedAtMS, revision := e.revision,
          sourceID := e.sourceID, flags := e.flags, schemaVersion := e.schemaVersion,
          serverSeq := seqno, payloadEncoding := e.payloadEncoding, payload := e.payload);
        (db.(envelopes := db.envelopes[rid := updated]), true)
      else
        (db, false)
  }

  // Something is kept from being overwritten: a later edit, or as late a one with a greater revision,
  // or as great in both from a source that is not below.
  ghost predicate Kept(existing: Columns, e: Envelope) {
    || existing.lastEditedAtMS > e.lastEditedAtMS
    || (&& existing.lastEditedAtMS == e.lastEditedAtMS
        && (|| existing.revision > e.revision
            || (&& existing.revision == e.revision
                && forall n: nat | n < |e.sourceID| && n <= |existing.sourceID| && e.sourceID[..n] == existing.sourceID[..n] ::
                     n < |existing.sourceID| && e.sourceID[n] <= existing.sourceID[n])))
  }

  /** The statement writes exactly when there is no row yet, or the row is not to be kept. */
  lemma UpsertSqlWritesIff(db: Database, user: Text, e: Envelope, seqno: nat)
    ensures var rid := RowId(user, e.id, e.part);
            var (after, written) := UpsertSql(db, user, e, seqno);
            && (written <==> rid !in db.envelopes || !Kept(db.envelopes[rid], e))
            && (if written then rid in after.envelopes && after.envelopes[rid].serverSeq == seqno else after == db)
  {
    var rid := RowId(user, e.id, e.part);
    if rid in db.envelopes {
      var c := db.envelopes[rid];
      var stored := Ranks(c.lastEditedAtMS, c.revision, c.sourceID);
      WinsIffUpsertWhere(e.Ranks(), stored);
      WinsReads(e.Ranks(), stored);
    }
  }

  // Both statements of one envelope, inside an open transaction.
  function UpsertOne(db: Database, user: Text, e: Envelope): (Database, bool) {
    var (counted, seqno) := AllocateSql(db, user);
    UpsertSql(counted, user, e, seqno)
  }

  function UpsertAll(db: Database, user: Text, es: seq<Envelope>): (Database, seq<bool>)
    decreases es
  {
    if es == [] then (db, [])
    else
      var (first, applied) := UpsertOne(db, user, es[0]);
      var (last, flags) := UpsertAll(first, user, es[1..]);
      (last, [applied] + flags)
  }

  // One selected row, scanned into the store's envelope.
  function Scan(rid: RowId, c: Columns): Envelope {
    Envelope(rid.id, rid.part, c.entityType, c.sourceID, c.payloadEncoding, c.createdAtMS,
             c.lastEditedAtMS, c.revision, c.flags, c.schemaVersion, c.payload, c.serverSeq)
  }

  ghost function AccountOf(db: Database, user: Text): Account {
    Account(if user in db.users then db.users[user] else 0,
            map rid | rid in db.envelopes && rid.userID == user :: Key(rid.id, rid.part) := Scan(rid, db.envelopes[rid]))
  }

  lemma AccountRow(db: Database, user: Text, k: Key)
    ensures k in AccountOf(db, user).rows <==> RowId(user, k.id, k.part) in db.envelopes
    ensures k in AccountOf(db, user).rows ==>
              AccountOf(db, user).rows[k] == Scan(RowId(user, k.id, k.part), db.envelopes[RowId(user, k.id, k.part)])
  {
    if RowId(user, k.id, k.part) in db.envelopes {
      var rid := RowId(user, k.id, k.part);
      assert rid in db.envelopes && rid.userID == user && Key(rid.id, rid.part) == k;
    }
  }

  // Two accounts with the same counter and the same row under every key are the same account.
  lemma AccountsEqual(a: Account, b: Account)
    requires a.nextSeq == b.nextSeq
    requires forall k :: k in a.rows <==> k in b.rows
    requires forall k <- a.rows :: a.rows[k] == b.rows[k]
    ensures a == b
  {
    assert a.rows.Keys == b.rows.Keys;
    assert a.rows == b.rows;
  }

  lemma AllocateRefines(db: Database, user: Text, other: Text)
    ensures AllocateSql(db, user).1 == AccountOf(db, user).nextSeq + 1
    ensures AccountOf(AllocateSql(db, user).0, user) == Allocate(AccountOf(db, user))
    ensures other != user ==> AccountOf(AllocateSql(db, user).0, other) == AccountOf(db, other)
  {
  }

  lemma UpsertOneOwnRow(db: Database, user: Text, e: Envelope, k: Key)
    ensures var after := AccountOf(UpsertOne(db, user, e).0, user).rows;
            var expected := Write(AccountOf(db, user), e).rows;
            (k in after <==> k in expected) && (k in after ==> after[k] == expected[k])
    ensures UpsertOne(db, user, e).1 <==> Applies(AccountOf(db, user), e)
  {
    var rid := RowId(user, e.id, e.part);
    AccountRow(db, user, e.RowKey());
    AccountRow(db, user, k);
    AccountRow(UpsertOne(db, user, e).0, user, k);
    if rid in db.envelopes {
      var c := db.envelopes[rid];
      WinsIffUpsertWhere(e.Ranks(), Ranks(c.lastEditedAtMS, c.revision, c.sourceID));
    }
  }

  lemma UpsertOneOtherRow(db: Database, user: Text, e: Envelope, other: Text, k: Key)
    requires other != user
    ensures var after := AccountOf(UpsertOne(db, user, e).0, other).rows;
            var before := AccountOf(db, other).rows;
            (k in after <==> k in before) && (k in after ==> after[k] == before[k])
  {
    AccountRow(db, other, k);
    AccountRow(UpsertOne(db, user, e).0, other, k);
  }

  /** The two statements over the shared tables are one last-write-wins write to the
      user's account, and no other account moves. */
  lemma UpsertOneRefines(db: Database, user: Text, e: Envelope, other: Text)
    ensures UpsertOne(db, user, e).1 <==> Applies(AccountOf(db, user), e)
    ensures AccountOf(UpsertOne(db, user, e).0, user) == Write(AccountOf(db, user), e)
    ensures other != user ==> AccountOf(UpsertOne(db, user, e).0, other) == AccountOf(db, other)
  {
    var after := UpsertOne(db, user, e).0;
    forall k: Key {
      UpsertOneOwnRow(db, user, e, k);
    }
    UpsertOneOwnRow(db, user, e, e.RowKey());
    AccountsEqual(AccountOf(after, user), Write(AccountOf(db, user), e));
    if other != user {
      forall k: Key {
        UpsertOneOtherRow(db, user, e, other, k);
      }
      AccountsEqual(AccountOf(after, other), AccountOf(db, other));
    }
  }

  /** A batch on the tables is the fold of single writes on the account. */
  lemma {:induction false} UpsertAllRefines(db: Database, user: Text, es: seq<Envelope>, other: Text)
    ensures UpsertAll(db, user, es).1 == Flags(AccountOf(db, user), es)
    ensures AccountOf(UpsertAll(db, user, es).0, user) == WriteAll(AccountOf(db, user), es)
    ensures other != user ==> AccountOf(UpsertAll(db, user, es).0, other) == AccountOf(db, other)
    decreases es
  {
    if es != [] {
      UpsertOneRefines(db, user, es[0], other);
      UpsertAllRefines(UpsertOne(db, user, es[0]).0, user, es[1..], other);
    }
  }

  lemma {:induction false} UpsertAllAppend(db: Database, user: Text, es: seq<Envelope>, e: Envelope)
    ensures var (mid, flags) := UpsertAll(db, user, es);
            var (last, applied) := UpsertOne(mid, user, e);
            UpsertAll(db, user, es + [e]) == (last, flags + [applied])
    decreases es
  {
    if es == [] {
      assert es + [e] == [e];
      var (first, head) := UpsertOne(db, user, e);
      assert [e][1..] == [] && UpsertAll(first, user, [e][1..]) == (first, []);
      assert UpsertAll(db, user, [e]) == (first, [head] + []);
      assert [] + [head] == [head] + [];
    } else {
      assert (es + [e])[0] == es[0] && (es + [e])[1..] == es[1..] + [e];
      var (first, head) := UpsertOne(db, user, es[0]);
      UpsertAllAppend(first, user, es[1..], e);
      var (mid, flags) := UpsertAll(first, user, es[1..]);
      assert [head] + (flags + [UpsertOne(mid, user, e).1]) == ([head] + flags) + [UpsertOne(mid, user, e).1];
    }
  }

  lemma UpsertAllNext(db: Database, user: Text, es: seq<Envelope>, i: nat)
    requires i < |es|
    ensures var (mid, flags) := UpsertAll(db, user, es[..i]);
            var (last, applied) := UpsertOne(mid, user, es[i]);
            UpsertAll(db, user, es[..i + 1]) == (last, flags + [applied])
  {
    assert es[..i + 1] == es[..i] + [es[i]];
    UpsertAllAppend(db, user, es[..i], es[i]);
  }

  lemma FreshAccount(user: Text)
    ensures AccountOf(FRESH, user) == EMPTY
  {
    assert AccountOf(FRESH, user).rows == map[];
  }

  ghost predicate OthersSame(before: Database, after: Database, user: Text) {
    forall other: Text | other != user :: AccountOf(after, other) == AccountOf(before, other)
  }

  /** What committing a transaction means for every account at once. */
  lemma CommitRefines(db: Database, user: Text, es: seq<Envelope>)
    ensures UpsertAll(db, user, es).1 == Flags(AccountOf(db, user), es)
    ensures AccountOf(UpsertAll(db, user, es).0, user) == WriteAll(AccountOf(db, user), es)
    ensures OthersSame(db, UpsertAll(db, user, es).0, user)
  {
    UpsertAllRefines(db, user, es, user);
    forall other: Text | other != user ensures AccountOf(UpsertAll(db, user, es).0, other) == AccountOf(db, other) {
      UpsertAllRefines(db, user, es, other);
    }
  }

  lemma CommitOneRefines(db: Database, user: Text, e: Envelope)
    ensures UpsertOne(db, user, e).1 == Applies(AccountOf(db, user), e)
    ensures AccountOf(UpsertOne(db, user, e).0, user) == Write(AccountOf(db, user), e)
    ensures OthersSame(db, UpsertOne(db, user, e).0, user)
  {
    UpsertOneRefines(db, user, e, user);
    forall other: Text | other != user ensures AccountOf(UpsertOne(db, user, e).0, other) == AccountOf(db, other) {
      UpsertOneRefines(db, user, e, other);
    }
  }

  lemma AllocationRefines(db: Database, user: Text)
    ensures AllocateSql(db, user).1 == AccountOf(db, user).nextSeq + 1
    ensures AccountOf(AllocateSql(db, user).0, user) == Allocate(AccountOf(db, user))
    ensures OthersSame(db, AllocateSql(db, user).0, user)
  {
    AllocateRefines(db, user, user);
    forall other: Text | other != user ensures AccountOf(AllocateSql(db, user).0, other) == AccountOf(db, other) {
      AllocateRefines(db, user, other);
    }
  }
}
