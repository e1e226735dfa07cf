/** A device that only follows cursors: what it holds, whatever prefix of the events reached it. */
module Replica {
  import opened Accounts
  import opened Paging

  // One event of a pull: an envelope, or the cursor that closes a page.
  datatype Event = EnvelopeEvent(env: Envelope) | CursorEvent(cursor: int)

  // What the device kept: the cursor it will resume from and the last version seen per key.
  datatype Copy = Copy(cursor: int, rows: map<Key, Envelope>)

  function Receive(c: Copy, ev: Event): Copy {
    match ev
    case EnvelopeEvent(env) => c.(rows := c.rows[env.RowKey() := env])
    case CursorEvent(n) => c.(cursor := n)
  }

  function ReceiveAll(c: Copy, evs: seq<Event>): Copy
    decreases evs
  {
    if evs == [] then c else ReceiveAll(Receive(c, evs[0]), evs[1..])
  }

  // The events of one page: its envelopes, then the cursor.
  function EnvelopeEvents(page: seq<Envelope>): seq<Event> {
    seq(|page|, i requires 0 <= i < |page| => EnvelopeEvent(page[i]))
  }

  function PageEvents(since: int, page: seq<Envelope>): seq<Event> {
    EnvelopeEvents(page) + [CursorEvent(NextCursor(since, page))]
  }

  /** The replica invariant. `from` is the cursor the device started with: every stored row
      numbered after it is above the device's cursor or is exactly the device's version. */
  ghost predicate Follows(a: Account, from: nat, c: Copy) {
    && from <= c.cursor <= a.nextSeq
    && (forall k <- a.rows | from < a.rows[k].serverSeq <= c.cursor :: k in c.rows && c.rows[k] == a.rows[k])
    && (forall k <- c.rows :: k in a.rows && from < a.rows[k].serverSeq)
  }

  // The invariant holds now and after every prefix of the events still on the wire.
  ghost predicate FollowsThrough(a: Account, from: nat, c: Copy, wire: seq<Event>)
    decreases wire
  {
    Follows(a, from, c) && (wire != [] ==> FollowsThrough(a, from, Receive(c, wire[0]), wire[1..]))
  }

  // Server writes of any kind cannot break the invariant: a moved row moves above every cursor.
  lemma GrowthKeepsFollows(a: Account, b: Account, from: nat, c: Copy)
    requires Sound(a) && Grew(a, b) && Follows(a, from, c)
    ensures Follows(b, from, c)
  {
    forall k <- c.rows ensures k in b.rows && from < b.rows[k].serverSeq {
      assert b.rows[k].serverSeq > a.nextSeq || b.rows[k] == a.rows[k];
    }
  }

  lemma {:induction false} GrowthKeepsFollowsThrough(a: Account, b: Account, from: nat, c: Copy, wire: seq<Event>)
    requires Sound(a) && Grew(a, b) && FollowsThrough(a, from, c, wire)
    ensures FollowsThrough(b, from, c, wire)
    decreases wire
  {
    GrowthKeepsFollows(a, b, from, c);
    if wire != [] {
      GrowthKeepsFollowsThrough(a, b, from, Receive(c, wire[0]), wire[1..]);
    }
  }

  lemma {:induction false} FollowsThroughAppend(a: Account, from: nat, c: Copy, wire: seq<Event>, more: seq<Event>)
    requires FollowsThrough(a, from, c, wire)
    requires FollowsThrough(a, from, ReceiveAll(c, wire), more)
    ensures FollowsThrough(a, from, c, wire + more)
    ensures ReceiveAll(c, wire + more) == ReceiveAll(ReceiveAll(c, wire), more)
    decreases wire
  {
    if wire == [] {
      assert wire + more == more;
    } else {
      assert (wire + more)[1..] == wire[1..] + more;
      FollowsThroughAppend(a, from, Receive(c, wire[0]), wire[1..], more);
    }
  }

  // Receiving the first i envelopes of a page, its cursor not yet seen.
  ghost predicate PartWay(a: Account, from: nat, since: int, limit: nat, page: seq<Envelope>, i: nat, c: Copy) {
    && Sound(a) && IsPage(a, since, limit, page) && i <= |page|
    && c.cursor == since && Follows(a, from, c)
    && (forall j | 0 <= j < i :: page[j].RowKey() in c.rows && c.rows[page[j].RowKey()] == page[j])
  }

  lemma EnvelopeStep(a: Account, from: nat, since: int, limit: nat, page: seq<Envelope>, i: nat, c: Copy)
    requires PartWay(a, from, since, limit, page, i, c) && i < |page|
    ensures PartWay(a, from, since, limit, page, i + 1, Receive(c, EnvelopeEvent(page[i])))
  {
    assert page[i] in page;
  }

  lemma CursorStep(a: Account, from: nat, since: int, limit: nat, page: seq<Envelope>, c: Copy)
    requires PartWay(a, from, since, limit, page, |page|, c)
    ensures Follows(a, from, Receive(c, CursorEvent(NextCursor(since, page))))
  {
    PageAscends(a, since, limit, page);
    forall k <- a.rows | from < a.rows[k].serverSeq <= NextCursor(since, page)
      ensures k in c.rows && c.rows[k] == a.rows[k]
    {
      if a.rows[k].serverSeq > since {
        var j :| 0 <= j < |page| && page[j] == a.rows[k];
      }
    }
  }

  lemma {:induction false} PageSuffixFollows(a: Account, from: nat, since: int, limit: nat, page: seq<Envelope>, i: nat, c: Copy)
    requires PartWay(a, from, since, limit, page, i, c)
    ensures FollowsThrough(a, from, c, PageEvents(since, page)[i..])
    ensures ReceiveAll(c, PageEvents(since, page)[i..]).cursor == NextCursor(since, page)
    decreases |page| - i
  {
    var wire := PageEvents(since, page)[i..];
    var next := Receive(c, wire[0]);
    assert wire[1..] == PageEvents(since, page)[i + 1..];
    if i == |page| {
      assert wire[1..] == [];
      CursorStep(a, from, since, limit, page, c);
      assert FollowsThrough(a, from, next, []);
    } else {
      EnvelopeStep(a, from, since, limit, page, i, c);
      PageSuffixFollows(a, from, since, limit, page, i + 1, next);
    }
  }

  /** A page read at any moment can be delivered in full or cut anywhere: every prefix keeps the
      invariant, and the whole page moves the cursor to the page's last number. */
  lemma PageFollows(a: Account, from: nat, c: Copy, limit: nat, page: seq<Envelope>)
    requires Sound(a) && Follows(a, from, c) && IsPage(a, c.cursor, limit, page)
    ensures FollowsThrough(a, from, c, PageEvents(c.cursor, page))
    ensures ReceiveAll(c, PageEvents(c.cursor, page)).cursor == NextCursor(c.cursor, page)
  {
    assert PageEvents(c.cursor, page)[0..] == PageEvents(c.cursor, page);
    PageSuffixFollows(a, from, c.cursor, limit, page, 0, c);
  }

  lemma {:induction false} FollowsNow(a: Account, from: nat, c: Copy, wire: seq<Event>)
    requires FollowsThrough(a, from, c, wire)
    ensures Follows(a, from, ReceiveAll(c, wire))
    decreases wire
  {
    if wire != [] {
      FollowsNow(a, from, Receive(c, wire[0]), wire[1..]);
    }
  }

  /** A new page can join whatever is still on the wire. */
  lemma PageJoins(a: Account, from: nat, c: Copy, wire: seq<Event>, since: int, limit: nat, page: seq<Envelope>)
    requires Sound(a) && IsPage(a, since, limit, page)
    requires FollowsThrough(a, from, c, wire) && ReceiveAll(c, wire).cursor == since
    ensures FollowsThrough(a, from, c, wire + PageEvents(since, page))
    ensures ReceiveAll(c, wire + PageEvents(since, page)).cursor == NextCursor(since, page)
  {
    FollowsNow(a, from, c, wire);
    PageFollows(a, from, ReceiveAll(c, wire), limit, page);
    FollowsThroughAppend(a, from, c, wire, PageEvents(since, page));
  }

  // The rows numbered after a starting cursor: all of them, for a device set up at zero.
  function RowsAfter(a: Account, from: nat): map<Key, Envelope> {
    map k <- a.rows | a.rows[k].serverSeq > from :: a.rows[k]
  }

  lemma RowsAfterZero(a: Account)
    requires Sound(a)
    ensures RowsAfter(a, 0) == a.rows
  {
    assert RowsAfter(a, 0).Keys == a.rows.Keys;
  }

  /** A device with nothing above its cursor holds exactly the rows stored after its start. */
  lemma CaughtUpIsEqual(a: Account, from: nat, c: Copy)
    requires Sound(a) && Follows(a, from, c)
    requires forall k <- a.rows :: a.rows[k].serverSeq <= c.cursor
    ensures c.rows == RowsAfter(a, from)
    ensures from == 0 ==> c.rows == a.rows
  {
    assert c.rows.Keys == RowsAfter(a, from).Keys;
    if from == 0 {
      RowsAfterZero(a);
    }
  }
}
