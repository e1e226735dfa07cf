/** The conflict rule: three ranks, compared in Go by the divergence check and in SQL by the write path. */
module Conflict {
  type byte = b: int | 0 <= b < 256

  // A Go string or a SQLite TEXT value: its bytes.
  type Text = seq<byte>

  datatype Ranks = Ranks(lastEditedAtMS: int, revision: int, sourceID: Text)

  // Go's `<` on strings, byte by byte from the front.
  predicate TextLess(a: Text, b: Text) {
    if b == [] then false
    else if a == [] then true
    else a[0] < b[0] || (a[0] == b[0] && TextLess(a[1..], b[1..]))
  }

  // Three-way comparison of the first n bytes, as memcmp reports it.
  function Memcmp(a: Text, b: Text, n: nat): int
    requires n <= |a| && n <= |b|
  {
    if n == 0 then 0
    else
      var earlier := Memcmp(a, b, n - 1);
      if earlier != 0 then earlier else a[n - 1] as int - b[n - 1] as int
  }

  // SQLite's BINARY collation: the common length first, then the shorter value.
  predicate CollatesBefore(a: Text, b: Text) {
    var n := if |a| < |b| then |a| else |b|;
    var order := Memcmp(a, b, n);
    if order != 0 then order < 0 else |a| < |b|
  }

  // The Go rule: the first rank that differs decides, and a full tie is not a win.
  predicate Wins(incoming: Ranks, stored: Ranks) {
    if incoming.lastEditedAtMS != stored.lastEditedAtMS then incoming.lastEditedAtMS > stored.lastEditedAtMS
    else if incoming.revision != stored.revision then incoming.revision > stored.revision
    else TextLess(stored.sourceID, incoming.sourceID)
  }

  // The WHERE clause of the envelope upsert.
  predicate UpsertWhere(excluded: Ranks, existing: Ranks) {
    || excluded.lastEditedAtMS > existing.lastEditedAtMS
    || (&& excluded.lastEditedAtMS == existing.lastEditedAtMS
        && (|| excluded.revision > existing.revision
            || (&& excluded.revision == existing.revision
                && CollatesBefore(existing.sourceID, excluded.sourceID))))
  }

  lemma {:induction false} MemcmpFromFront(a: Text, b: Text, n: nat)
    requires 0 < n <= |a| && n <= |b|
    ensures Memcmp(a, b, n) == if a[0] != b[0] then a[0] as int - b[0] as int else Memcmp(a[1..], b[1..], n - 1)
  {
    if n > 1 {
      MemcmpFromFront(a, b, n - 1);
    } else {
      assert Memcmp(a, b, 0) == 0;
    }
  }

  // Strings of unequal length included, both languages order bytes alike.
  lemma {:induction false} CollationIsTextOrder(a: Text, b: Text)
    ensures CollatesBefore(a, b) <==> TextLess(a, b)
  {
    if a != [] && b != [] {
      MemcmpFromFront(a, b, if |a| < |b| then |a| else |b|);
      CollationIsTextOrder(a[1..], b[1..]);
    }
  }

  /** The rule written twice, in Go and in SQL, is one rule on all inputs. */
  lemma WinsIffUpsertWhere(incoming: Ranks, stored: Ranks)
    ensures Wins(incoming, stored) <==> UpsertWhere(incoming, stored)
  {
    CollationIsTextOrder(stored.sourceID, incoming.sourceID);
  }

  // Read without recursion: past n shared bytes, a has a byte where b has a lower one or none.
  ghost predicate AboveAt(a: Text, b: Text, n: nat) {
    n < |a| && n <= |b| && a[..n] == b[..n] && (n < |b| ==> a[n] > b[n])
  }

  lemma AboveTail(a: Text, b: Text, n: nat)
    requires AboveAt(a, b, n) && 0 < n
    ensures b != [] && a[0] == b[0] && AboveAt(a[1..], b[1..], n - 1)
  {
    assert a[..n][0] == b[..n][0];
    assert a[1..][..n - 1] == a[..n][1..] && b[1..][..n - 1] == b[..n][1..];
  }

  lemma AboveLonger(a: Text, b: Text, n: nat)
    requires a != [] && b != [] && a[0] == b[0] && AboveAt(a[1..], b[1..], n)
    ensures AboveAt(a, b, n + 1)
  {
    assert a[..n + 1] == [a[0]] + a[1..][..n] && b[..n + 1] == [b[0]] + b[1..][..n];
  }

  lemma {:induction false} TextOrderReads(a: Text, b: Text)
    ensures TextLess(b, a) <==> exists n: nat :: AboveAt(a, b, n)
    decreases a
  {
    if a != [] && b != [] {
      TextOrderReads(a[1..], b[1..]);
    }
    if n: nat :| AboveAt(a, b, n) {
      if n > 0 {
        AboveTail(a, b, n);
      }
    }
    if TextLess(b, a) {
      if b == [] || a[0] > b[0] {
        assert AboveAt(a, b, 0);
      } else {
        var n: nat :| AboveAt(a[1..], b[1..], n);
        AboveLonger(a, b, n);
      }
    }
  }

  /** Who wins: the later edit; of two edits at one time the greater revision; of two equal in both
      the source id with the greater byte at the first difference, or the longer one when the other
      is its beginning. */
  lemma WinsReads(incoming: Ranks, stored: Ranks)
    ensures incoming.lastEditedAtMS > stored.lastEditedAtMS ==> Wins(incoming, stored)
    ensures incoming.lastEditedAtMS < stored.lastEditedAtMS ==> !Wins(incoming, stored)
    ensures incoming.lastEditedAtMS == stored.lastEditedAtMS ==>
              && (incoming.revision > stored.revision ==> Wins(incoming, stored))
              && (incoming.revision < stored.revision ==> !Wins(incoming, stored))
              && (incoming.revision == stored.revision ==>
                    (Wins(incoming, stored) <==>
                       exists n: nat | n < |incoming.sourceID| && n <= |stored.sourceID| ::
                         && incoming.sourceID[..n] == stored.sourceID[..n]
                         && (n < |stored.sourceID| ==> incoming.sourceID[n] > stored.sourceID[n])))
  {
    TextOrderReads(incoming.sourceID, stored.sourceID);
    if n: nat :| AboveAt(incoming.sourceID, stored.sourceID, n) {
      assert incoming.sourceID[..n] == stored.sourceID[..n];
    }
    forall n: nat | n < |incoming.sourceID| && n <= |stored.sourceID|
                    && incoming.sourceID[..n] == stored.sourceID[..n]
                    && (n < |stored.sourceID| ==> incoming.sourceID[n] > stored.sourceID[n])
      ensures AboveAt(incoming.sourceID, stored.sourceID, n)
    {
    }
  }

  lemma {:induction false} TextLessTransitive(a: Text, b: Text, c: Text)
    requires TextLess(a, b) && TextLess(b, c)
    ensures TextLess(a, c)
  {
    if a != [] && a[0] == b[0] && b[0] == c[0] {
      TextLessTransitive(a[1..], b[1..], c[1..]);
    }
  }

  lemma {:induction false} TextLessTotal(a: Text, b: Text)
    ensures !TextLess(a, a)
    ensures a == b || TextLess(a, b) || TextLess(b, a)
    decreases |a|
  {
    if a != [] {
      TextLessTotal(a[1..], if b != [] then b[1..] else []);
      if b != [] && a[0] == b[0] && a[1..] == b[1..] {
        assert a == [a[0]] + a[1..] && b == [b[0]] + b[1..];
      }
    }
  }

  /** Any two distinct ranks have exactly one winner, and winning chains. */
  lemma WinsIsStrictTotalOrder(a: Ranks, b: Ranks, c: Ranks)
    ensures !Wins(a, a)
    ensures a != b ==> Wins(a, b) != Wins(b, a)
    ensures Wins(a, b) && Wins(b, c) ==> Wins(a, c)
  {
    TextLessTotal(a.sourceID, b.sourceID);
    if TextLess(a.sourceID, b.sourceID) && TextLess(b.sourceID, a.sourceID) {
      TextLessTransitive(a.sourceID, b.sourceID, a.sourceID);
    }
    if TextLess(c.sourceID, b.sourceID) && TextLess(b.sourceID, a.sourceID) {
      TextLessTransitive(c.sourceID, b.sourceID, a.sourceID);
    }
  }

  // "Does not lose to" chains too; this is how a stored row keeps its lead.
  lemma NotBeatenIsTransitive(a: Ranks, b: Ranks, c: Ranks)
    requires !Wins(a, b) && !Wins(b, c)
    ensures !Wins(a, c)
  {
    WinsIsStrictTotalOrder(c, b, a);
    WinsIsStrictTotalOrder(b, a, c);
    WinsIsStrictTotalOrder(c, a, b);
  }
}
