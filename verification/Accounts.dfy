/** What last-write-wins means for one user: a counter and one row per key. */
module Accounts {
  import opened Conflict

  datatype Key = Key(id: Text, part: Text)

  datatype Envelope = Envelope(
    id: Text, part: Text, entityType: Text, sourceID: Text, payloadEncoding: Text,
    createdAtMS: int, lastEditedAtMS: int, revision: int, flags: int, schemaVersion: int,
    payload: seq<byte>, serverSeq: int)
  {
    function RowKey(): Key { Key(id, part) }

    function Ranks(): Ranks { Conflict.Ranks(lastEditedAtMS, revision, sourceID) }

    // The envelope without the two fields that depend on when it arrived.
    function Content(): Envelope { this.(createdAtMS := 0, serverSeq := 0) }
  }

  datatype Account = Account(nextSeq: nat, rows: map<Key, Envelope>)

  const EMPTY := Account(0, map[])

  predicate Applies(a: Account, e: Envelope) {
    e.RowKey() in a.rows ==> Wins(e.Ranks(), a.rows[e.RowKey()].Ranks())
  }

  // The row an applied envelope leaves behind: creation time is the first arrival's.
  function RowFor(a: Account, e: Envelope): Envelope {
    var created := if e.RowKey() in a.rows then a.rows[e.RowKey()].createdAtMS else e.createdAtMS;
    e.(createdAtMS := created, serverSeq := a.nextSeq + 1)
  }

  // A number is consumed whether or not the envelope wins.
  function Write(a: Account, e: Envelope): Account {
    Account(a.nextSeq + 1, if Applies(a, e) then a.rows[e.RowKey() := RowFor(a, e)] else a.rows)
  }

  function WriteAll(a: Account, es: seq<Envelope>): Account
    decreases es
  {
    if es == [] then a else WriteAll(Write(a, es[0]), es[1..])
  }

  function Flags(a: Account, es: seq<Envelope>): seq<bool>
    decreases es
  {
    if es == [] then [] else [Applies(a, es[0])] + Flags(Write(a, es[0]), es[1..])
  }

  function Allocate(a: Account): Account {
    a.(nextSeq := a.nextSeq + 1)
  }

  // The invariant behind the cursor: numbers identify rows and none exceeds the counter.
  ghost predicate Sound(a: Account) {
    && (forall k <- a.rows :: a.rows[k].RowKey() == k && 1 <= a.rows[k].serverSeq <= a.nextSeq)
    && (forall j, k | j in a.rows && k in a.rows && j != k :: a.rows[j].serverSeq != a.rows[k].serverSeq)
  }

  lemma WriteKeepsSound(a: Account, e: Envelope)
    requires Sound(a)
    ensures Sound(Write(a, e))
    ensures Write(a, e).nextSeq == a.nextSeq + 1
  {
  }

  // b came from a by server writes: nothing removed, and a changed row moved above every older number.
  ghost predicate Grew(a: Account, b: Account) {
    && a.nextSeq <= b.nextSeq
    && (forall k <- a.rows :: k in b.rows)
    && (forall k <- b.rows :: b.rows[k].serverSeq > a.nextSeq || (k in a.rows && b.rows[k] == a.rows[k]))
    && (forall k <- a.rows :: !Wins(a.rows[k].Ranks(), b.rows[k].Ranks()))
  }

  lemma GrewIsTransitive(a: Account, b: Account, c: Account)
    requires Grew(a, b) && Grew(b, c)
    ensures Grew(a, c)
  {
    forall k <- a.rows ensures !Wins(a.rows[k].Ranks(), c.rows[k].Ranks()) {
      NotBeatenIsTransitive(a.rows[k].Ranks(), b.rows[k].Ranks(), c.rows[k].Ranks());
    }
  }

  lemma WriteGrows(a: Account, e: Envelope)
    ensures Grew(a, Write(a, e))
  {
    forall k <- a.rows ensures !Wins(a.rows[k].Ranks(), Write(a, e).rows[k].Ranks()) {
      WinsIsStrictTotalOrder(a.rows[k].Ranks(), e.Ranks(), a.rows[k].Ranks());
    }
  }

  lemma GrewIsReflexive(a: Account)
    ensures Grew(a, a)
  {
    forall k <- a.rows ensures !Wins(a.rows[k].Ranks(), a.rows[k].Ranks()) {
      WinsIsStrictTotalOrder(a.rows[k].Ranks(), a.rows[k].Ranks(), a.rows[k].Ranks());
    }
  }

  // A bare reservation changes no row.
  lemma AllocateGrows(a: Account)
    requires Sound(a)
    ensures Sound(Allocate(a)) && Grew(a, Allocate(a))
  {
    GrewIsReflexive(a);
  }

  /** A batch keeps the invariant, consumes one number per envelope, and only ever moves rows upwards. */
  lemma {:induction false} WriteAllGrows(a: Account, es: seq<Envelope>)
    requires Sound(a)
    ensures Sound(WriteAll(a, es))
    ensures Grew(a, WriteAll(a, es))
    ensures WriteAll(a, es).nextSeq == a.nextSeq + |es|
    decreases es
  {
    if es == [] {
      GrewIsReflexive(a);
    } else {
      WriteKeepsSound(a, es[0]);
      WriteGrows(a, es[0]);
      WriteAllGrows(Write(a, es[0]), es[1..]);
      GrewIsTransitive(a, Write(a, es[0]), WriteAll(a, es));
    }
  }

  lemma {:induction false} FlagsLength(a: Account, es: seq<Envelope>)
    ensures |Flags(a, es)| == |es|
    decreases es
  {
    if es != [] {
      FlagsLength(Write(a, es[0]), es[1..]);
    }
  }

  // A batch in which nothing applied changed no row.
  lemma {:induction false} NothingAppliedNothingMoved(a: Account, es: seq<Envelope>)
    requires true !in Flags(a, es)
    ensures WriteAll(a, es).rows == a.rows
    decreases es
  {
    if es != [] {
      assert Flags(a, es)[0] == Applies(a, es[0]);
      assert forall b <- Flags(Write(a, es[0]), es[1..]) :: b in Flags(a, es);
      NothingAppliedNothingMoved(Write(a, es[0]), es[1..]);
    }
  }

  // A batch in which something applied moved a row: its number is above every older one.
  lemma {:induction false} SomethingAppliedMoved(a: Account, es: seq<Envelope>)
    requires Sound(a) && true in Flags(a, es)
    ensures WriteAll(a, es).rows != a.rows
    decreases es
  {
    var b, k := Write(a, es[0]), es[0].RowKey();
    WriteKeepsSound(a, es[0]);
    WriteAllGrows(b, es[1..]);
    if Applies(a, es[0]) {
      assert b.rows[k].serverSeq == a.nextSeq + 1;
      assert k in WriteAll(a, es).rows && WriteAll(a, es).rows[k].serverSeq > a.nextSeq;
    } else {
      assert b.rows == a.rows;
      assert true in Flags(b, es[1..]);
      SomethingAppliedMoved(b, es[1..]);
    }
  }

  lemma {:induction false} WriteAllConcat(a: Account, xs: seq<Envelope>, ys: seq<Envelope>)
    ensures WriteAll(a, xs + ys) == WriteAll(WriteAll(a, xs), ys)
    ensures Flags(a, xs + ys) == Flags(a, xs) + Flags(WriteAll(a, xs), ys)
    decreases xs
  {
    if xs == [] {
      assert xs + ys == ys;
    } else {
      assert (xs + ys)[1..] == xs[1..] + ys;
      WriteAllConcat(Write(a, xs[0]), xs[1..], ys);
    }
  }

  predicate DistinctKeys(es: seq<Envelope>) {
    forall i, j | 0 <= i < j < |es| :: es[i].RowKey() != es[j].RowKey()
  }

  // Keys the batch does not name are left as they were.
  lemma {:induction false} OtherKeysUntouched(a: Account, es: seq<Envelope>, k: Key)
    requires forall e <- es :: e.RowKey() != k
    ensures k in WriteAll(a, es).rows <==> k in a.rows
    ensures k in a.rows ==> WriteAll(a, es).rows[k] == a.rows[k]
    decreases es
  {
    if es != [] {
      OtherKeysUntouched(Write(a, es[0]), es[1..], k);
    }
  }

  /** With distinct keys each flag is decided by the store before the batch, and the
      i-th envelope, when applied, carries the (i+1)-th number after the old counter. */
  lemma {:induction false} BatchIsSimultaneous(a: Account, es: seq<Envelope>, i: nat)
    requires DistinctKeys(es) && i < |es|
    ensures |Flags(a, es)| == |es|
    ensures Flags(a, es)[i] <==> Applies(a, es[i])
    ensures Applies(a, es[i]) ==>
              && es[i].RowKey() in WriteAll(a, es).rows
              && WriteAll(a, es).rows[es[i].RowKey()] == RowFor(a, es[i]).(serverSeq := a.nextSeq + i + 1)
    ensures !Applies(a, es[i]) ==>
              && es[i].RowKey() in WriteAll(a, es).rows
              && WriteAll(a, es).rows[es[i].RowKey()] == a.rows[es[i].RowKey()]
    decreases es
  {
    var b := Write(a, es[0]);
    FlagsLength(a, es);
    if i == 0 {
      OtherKeysUntouched(b, es[1..], es[0].RowKey());
    } else {
      assert es[i] == es[1..][i - 1] && es[0].RowKey() != es[i].RowKey();
      BatchIsSimultaneous(b, es[1..], i - 1);
    }
  }
}
