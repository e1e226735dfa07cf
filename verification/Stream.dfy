/** The catch-up burst of a live stream: page after page until one is short. */
module Stream {
  import opened Arithmetic
  import opened Conflict
  import opened Accounts
  import opened Tables
  import opened Paging
  import opened Replica
  import opened Results
  import opened Store

  // The response body of one stream; a write fails once the connection is broken.
  class EventWriter {
    var sent: seq<Event>
    const breaksAt: Option<nat>

    constructor (breaksAt: Option<nat>)
      ensures sent == [] && this.breaksAt == breaksAt
    {
      sent := [];
      this.breaksAt := breaksAt;
    }

    method Write(ev: Event) returns (ok: bool)
      modifies this`sent
      ensures ok <==> breaksAt != Some(|old(sent)|)
      ensures sent == if ok then old(sent) + [ev] else old(sent)
    {
      ok := breaksAt != Some(|sent|);
      if ok {
        sent := sent + [ev];
      }
    }
  }

  // The burst that lists `rows` after cursor `since`, `limit` to a page.
  function Burst(since: int, rows: seq<Envelope>, limit: nat): seq<Event>
    requires 1 <= limit
    decreases |rows|
  {
    if |rows| < limit then PageEvents(since, rows)
    else PageEvents(since, rows[..limit]) + Burst(rows[limit - 1].serverSeq, rows[limit..], limit)
  }

  function Envelopes(evs: seq<Event>): seq<Envelope> {
    if evs == [] then []
    else (if evs[0].EnvelopeEvent? then [evs[0].env] else []) + Envelopes(evs[1..])
  }

  function CursorCount(evs: seq<Event>): nat {
    if evs == [] then 0
    else (if evs[0].CursorEvent? then 1 else 0) + CursorCount(evs[1..])
  }

  lemma {:induction false} ReadConcat(xs: seq<Event>, ys: seq<Event>)
    ensures Envelopes(xs + ys) == Envelopes(xs) + Envelopes(ys)
    ensures CursorCount(xs + ys) == CursorCount(xs) + CursorCount(ys)
  {
    if xs == [] {
      assert xs + ys == ys;
      assert Envelopes(xs) + Envelopes(ys) == Envelopes(ys);
    } else {
      var rest := xs[1..];
      var head := if xs[0].EnvelopeEvent? then [xs[0].env] else [];
      assert (xs + ys)[0] == xs[0] && (xs + ys)[1..] == rest + ys;
      ReadConcat(rest, ys);
      assert Envelopes(xs + ys) == head + Envelopes(rest + ys);
      assert head + (Envelopes(rest) + Envelopes(ys)) == (head + Envelopes(rest)) + Envelopes(ys);
    }
  }

  lemma {:induction false} ReadEnvelopes(page: seq<Envelope>)
    ensures Envelopes(EnvelopeEvents(page)) == page
    ensures CursorCount(EnvelopeEvents(page)) == 0
    decreases page
  {
    if page != [] {
      assert EnvelopeEvents(page)[1..] == EnvelopeEvents(page[1..]);
      ReadEnvelopes(page[1..]);
    }
  }

  lemma ReadPage(since: int, page: seq<Envelope>)
    ensures Envelopes(PageEvents(since, page)) == page
    ensures CursorCount(PageEvents(since, page)) == 1
  {
    var close := [CursorEvent(NextCursor(since, page))];
    ReadEnvelopes(page);
    ReadConcat(EnvelopeEvents(page), close);
    assert close[1..] == [];
    assert Envelopes(close) == [] && CursorCount(close) == 1;
  }

  // Pages of a burst over n rows: full ones, then one short or empty page.
  function PageCount(n: nat, limit: nat): nat
    requires 1 <= limit
  {
    if n < limit then 1 else 1 + PageCount(n - limit, limit)
  }

  lemma {:induction false} PageCountIsQuotient(n: nat, limit: nat)
    requires 1 <= limit
    ensures PageCount(n, limit) == n / limit + 1
  {
    if n < limit {
      QuotientUnique(n, limit, 0, n);
    } else {
      PageCountIsQuotient(n - limit, limit);
      var q, r := (n - limit) / limit, (n - limit) % limit;
      assert (q + 1) * limit == q * limit + limit;
      QuotientUnique(n, limit, q + 1, r);
    }
  }

  /** A burst emits every row exactly once in order and closes floor(n/limit)+1 pages, so an
      exact multiple of the limit still ends with an empty page. */
  lemma BurstReads(since: int, rows: seq<Envelope>, limit: nat)
    requires 1 <= limit
    ensures Envelopes(Burst(since, rows, limit)) == rows
    ensures CursorCount(Burst(since, rows, limit)) == |rows| / limit + 1
    ensures EndsWith(Burst(since, rows, limit), CursorEvent(NextCursor(since, rows)))
  {
    BurstCounts(since, rows, limit);
    PageCountIsQuotient(|rows|, limit);
    BurstEnds(since, rows, limit);
  }

  predicate EndsWith(evs: seq<Event>, ev: Event) {
    evs != [] && evs[|evs| - 1] == ev
  }

  lemma {:induction false} BurstCounts(since: int, rows: seq<Envelope>, limit: nat)
    requires 1 <= limit
    ensures Envelopes(Burst(since, rows, limit)) == rows
    ensures CursorCount(Burst(since, rows, limit)) == PageCount(|rows|, limit)
    decreases |rows|
  {
    if |rows| < limit {
      ReadPage(since, rows);
    } else {
      var rest, next := rows[limit..], rows[limit - 1].serverSeq;
      ReadPage(since, rows[..limit]);
      BurstCounts(next, rest, limit);
      ReadConcat(PageEvents(since, rows[..limit]), Burst(next, rest, limit));
      assert rows == rows[..limit] + rest;
    }
  }

  lemma {:induction false} BurstEnds(since: int, rows: seq<Envelope>, limit: nat)
    requires 1 <= limit
    ensures EndsWith(Burst(since, rows, limit), CursorEvent(NextCursor(since, rows)))
    decreases |rows|
  {
    if |rows| >= limit {
      BurstEnds(rows[limit - 1].serverSeq, rows[limit..], limit);
    }
  }

  // What one query contributes to the burst, and what is left of it.
  lemma BurstStep(a: Account, since: int, limit: nat, page: seq<Envelope>)
    requires Sound(a) && 1 <= limit && IsPage(a, since, limit, page)
    ensures |page| < limit ==>
              page == RowsAbove(a, since) && Burst(since, RowsAbove(a, since), limit) == PageEvents(since, page)
    ensures |page| >= limit ==>
              && |RowsAbove(a, since)| == limit + |RowsAbove(a, NextCursor(since, page))|
              && NextCursor(since, RowsAbove(a, since)) == NextCursor(NextCursor(since, page), RowsAbove(a, NextCursor(since, page)))
              && Burst(since, RowsAbove(a, since), limit)
                 == PageEvents(since, page) + Burst(NextCursor(since, page), RowsAbove(a, NextCursor(since, page)), limit)
  {
    PageIsDetermined(a, since, limit, page);
    if |page| >= limit {
      assert page == RowsAbove(a, since)[..limit];
      RowsAboveFrom(a, since, limit);
    }
  }

  // The connection breaks at one of the events from m up to n.
  predicate BreaksIn(breaksAt: Option<nat>, m: nat, n: nat) {
    breaksAt.Some? && m <= breaksAt.value < n
  }

  // The envelope events of one page, then its cursor.
  method WritePage(w: EventWriter, since: int, rows: seq<Envelope>, next: int) returns (ok: bool)
    requires next == NextCursor(since, rows)
    modifies w`sent
    ensures ok ==> w.sent == old(w.sent) + PageEvents(since, rows)
    ensures !ok ==> old(w.sent) <= w.sent <= old(w.sent) + PageEvents(since, rows) && w.breaksAt == Some(|w.sent|)
    ensures ok ==> !BreaksIn(w.breaksAt, |old(w.sent)|, |w.sent|)
  {
    for i := 0 to |rows|
      invariant !BreaksIn(w.breaksAt, |old(w.sent)|, |w.sent|)
      invariant w.sent == old(w.sent) + PageEvents(since, rows)[..i]
    {
      ok := w.Write(EnvelopeEvent(rows[i]));
      if !ok {
        return;
      }
    }
    ok := w.Write(CursorEvent(next));
  }

  // Between queries: what was sent and what is left of the listing make up the whole burst, and what
  // was sent closed one page per query.
  ghost predicate Progress(a: Account, from: int, limit: nat, whole: seq<Event>, sent: seq<Event>, since: int, queries: nat)
    requires 1 <= limit
  {
    && sent + Burst(since, RowsAbove(a, since), limit) == whole
    && CursorCount(sent) == queries
    && queries + PageCount(|RowsAbove(a, since)|, limit) == PageCount(|RowsAbove(a, from)|, limit)
    && NextCursor(since, RowsAbove(a, since)) == NextCursor(from, RowsAbove(a, from))
  }

  // A short page finishes the burst.
  lemma ProgressEnds(a: Account, from: int, limit: nat, whole: seq<Event>, sent: seq<Event>, since: int, queries: nat, page: seq<Envelope>)
    requires Sound(a) && 1 <= limit && IsPage(a, since, limit, page) && |page| < limit
    requires Progress(a, from, limit, whole, sent, since, queries)
    ensures sent + PageEvents(since, page) == whole
    ensures NextCursor(since, page) == NextCursor(from, RowsAbove(a, from))
    ensures queries + 1 == PageCount(|RowsAbove(a, from)|, limit)
  {
    BurstStep(a, since, limit, page);
  }

  lemma PageClosesOnce(sent: seq<Event>, since: int, page: seq<Envelope>)
    ensures CursorCount(sent + PageEvents(since, page)) == CursorCount(sent) + 1
  {
    ReadPage(since, page);
    ReadConcat(sent, PageEvents(since, page));
  }

  lemma ConcatAssociates(x: seq<Event>, y: seq<Event>, z: seq<Event>)
    ensures x + (y + z) == (x + y) + z
  {
  }

  // A full page leaves a shorter listing to burst.
  lemma ProgressGoesOn(a: Account, from: int, limit: nat, whole: seq<Event>, sent: seq<Event>, since: int, queries: nat, page: seq<Envelope>)
    requires Sound(a) && 1 <= limit && IsPage(a, since, limit, page) && |page| >= limit
    requires Progress(a, from, limit, whole, sent, since, queries)
    ensures Progress(a, from, limit, whole, sent + PageEvents(since, page), NextCursor(since, page), queries + 1)
    ensures |RowsAbove(a, NextCursor(since, page))| < |RowsAbove(a, since)|
    ensures sent + PageEvents(since, page) <= whole
  {
    BurstStep(a, since, limit, page);
    PageClosesOnce(sent, since, page);
    var next := NextCursor(since, page);
    ConcatAssociates(sent, PageEvents(since, page), Burst(next, RowsAbove(a, next), limit));
  }

  // At the head of the loop: whole pages sent, nothing broken and no query failed so far.
  ghost predicate UnderWay(a: Account, from: int, limit: nat, breaksAt: Option<nat>, badQuery: Option<nat>,
                           before: seq<Event>, sent: seq<Event>, since: int, queries: nat)
    requires 1 <= limit
  {
    && before <= sent
    && Progress(a, from, limit, Burst(from, RowsAbove(a, from), limit), sent[|before|..], since, queries)
    && (sent == before || sent[|sent| - 1] == CursorEvent(since))
    && !BreaksIn(breaksAt, |before|, |sent|) && !BreaksIn(badQuery, 0, queries)
  }

  // The connection does not take the next event, or the next query fails and it is one of the burst's;
  // then as many pages were sent as were queried, and the cursor is the last one sent.
  ghost predicate CutShort(breaksAt: Option<nat>, badQuery: Option<nat>, before: seq<Event>, sent: seq<Event>,
                           cursor: int, queries: nat, most: nat) {
    || breaksAt == Some(|sent|)
    || (&& badQuery == Some(queries) && queries <= most
        && before <= sent && CursorCount(sent[|before|..]) == queries
        && (sent == before || sent[|sent| - 1] == CursorEvent(cursor)))
  }

  lemma SentIsBeginning(a: Account, from: int, limit: nat, breaksAt: Option<nat>, badQuery: Option<nat>,
                        before: seq<Event>, sent: seq<Event>, since: int, queries: nat)
    requires 1 <= limit && UnderWay(a, from, limit, breaksAt, badQuery, before, sent, since, queries)
    ensures sent <= before + Burst(from, RowsAbove(a, from), limit)
    ensures queries <= |RowsAbove(a, from)| / limit
    ensures badQuery == Some(queries) ==> CutShort(breaksAt, badQuery, before, sent, since, queries, |RowsAbove(a, from)| / limit)
  {
    PageCountIsQuotient(|RowsAbove(a, from)|, limit);
    assert sent == before + sent[|before|..];
  }

  lemma LongerTail(before: seq<Event>, sent: seq<Event>, events: seq<Event>)
    requires before <= sent
    ensures (sent + events)[|before|..] == sent[|before|..] + events
    ensures sent + events == before + (sent[|before|..] + events)
  {
  }

  // A page that goes out in full.
  lemma PageSent(a: Account, from: int, limit: nat, breaksAt: Option<nat>, badQuery: Option<nat>,
                 before: seq<Event>, sent: seq<Event>, since: int, queries: nat, page: seq<Envelope>)
    requires 1 <= limit && UnderWay(a, from, limit, breaksAt, badQuery, before, sent, since, queries)
    requires Sound(a) && IsPage(a, since, limit, page) && badQuery != Some(queries)
    requires !BreaksIn(breaksAt, |sent|, |sent + PageEvents(since, page)|)
    ensures var longer, next := sent + PageEvents(since, page), NextCursor(since, page);
            && !BreaksIn(breaksAt, |before|, |longer|) && !BreaksIn(badQuery, 0, queries + 1)
            && if |page| < limit then
                 && longer == before + Burst(from, RowsAbove(a, from), limit)
                 && next == NextCursor(from, RowsAbove(a, from)) && queries == |RowsAbove(a, from)| / limit
               else
                 && UnderWay(a, from, limit, breaksAt, badQuery, before, longer, next, queries + 1)
                 && |RowsAbove(a, next)| < |RowsAbove(a, since)|
  {
    var longer := sent + PageEvents(since, page);
    var whole := Burst(from, RowsAbove(a, from), limit);
    LongerTail(before, sent, PageEvents(since, page));
    if |page| < limit {
      PageCountIsQuotient(|RowsAbove(a, from)|, limit);
      ProgressEnds(a, from, limit, whole, sent[|before|..], since, queries, page);
    } else {
      ProgressGoesOn(a, from, limit, whole, sent[|before|..], since, queries, page);
    }
  }

  lemma PageWithin(a: Account, from: int, limit: nat, whole: seq<Event>, more: seq<Event>, since: int, queries: nat, page: seq<Envelope>)
    requires Sound(a) && 1 <= limit && IsPage(a, since, limit, page)
    requires Progress(a, from, limit, whole, more, since, queries)
    ensures more + PageEvents(since, page) <= whole
  {
    if |page| < limit {
      ProgressEnds(a, from, limit, whole, more, since, queries, page);
    } else {
      ProgressGoesOn(a, from, limit, whole, more, since, queries, page);
    }
  }

  lemma PartWithin(before: seq<Event>, sent: seq<Event>, events: seq<Event>, whole: seq<Event>, part: seq<Event>)
    requires before <= sent <= part <= sent + events && sent[|before|..] + events <= whole
    ensures before <= part <= before + whole
  {
    assert sent + events == before + (sent[|before|..] + events);
  }

  // A page that goes out in part stays within the burst.
  lemma PartSent(a: Account, from: int, limit: nat, breaksAt: Option<nat>, badQuery: Option<nat>,
                 before: seq<Event>, sent: seq<Event>, since: int, queries: nat, page: seq<Envelope>, part: seq<Event>)
    requires 1 <= limit && UnderWay(a, from, limit, breaksAt, badQuery, before, sent, since, queries)
    requires Sound(a) && IsPage(a, since, limit, page) && sent <= part <= sent + PageEvents(since, page)
    ensures before <= part <= before + Burst(from, RowsAbove(a, from), limit)
  {
    var whole := Burst(from, RowsAbove(a, from), limit);
    PageWithin(a, from, limit, whole, sent[|before|..], since, queries, page);
    PartWithin(before, sent, PageEvents(since, page), whole, part);
  }

  /** On a store that stays as it is, the burst terminates and writes exactly the listing of the
      rows above the cursor in floor(n/limit)+1 queries. It is cut short only by a query of those that
      fails, and then has written the pages before it, or by an event the connection does not take,
      and then has written the events before that. */
  method StreamCatchUp(w: EventWriter, store: Store, user: Text, from: nat, limit: nat, badQuery: Option<nat>)
    returns (ok: bool, cursor: int, queries: nat)
    requires 1 <= limit && Sound(AccountOf(store.db, user))
    modifies w`sent
    ensures old(w.sent) <= w.sent <= old(w.sent) + Burst(from, RowsAbove(AccountOf(store.db, user), from), limit)
    ensures ok ==> w.sent == old(w.sent) + Burst(from, RowsAbove(AccountOf(store.db, user), from), limit)
    ensures ok ==> cursor == NextCursor(from, RowsAbove(AccountOf(store.db, user), from))
    ensures ok ==> queries == |RowsAbove(AccountOf(store.db, user), from)| / limit + 1
    ensures ok ==> !BreaksIn(w.breaksAt, |old(w.sent)|, |w.sent|) && !BreaksIn(badQuery, 0, queries)
    ensures !ok ==> CutShort(w.breaksAt, badQuery, old(w.sent), w.sent, cursor, queries,
                             |RowsAbove(AccountOf(store.db, user), from)| / limit)
  {
    ghost var a := AccountOf(store.db, user);
    ghost var before := w.sent;
    var since: nat := from;
    queries := 0;
    assert w.sent[|before|..] == [] && [] + Burst(from, RowsAbove(a, from), limit) == Burst(from, RowsAbove(a, from), limit);
    while true
      invariant UnderWay(a, from, limit, w.breaksAt, badQuery, before, w.sent, since, queries)
      decreases |RowsAbove(a, since)|
    {
      ghost var sent := w.sent;
      SentIsBeginning(a, from, limit, w.breaksAt, badQuery, before, sent, since, queries);
      var r := store.Since(user, since, limit, badQuery == Some(queries));
      if r.Err? {
        return false, since, queries;
      }
      var (rows, next) := r.value;
      PageAscends(a, since, limit, rows);
      ok := WritePage(w, since, rows, next);
      if ok {
        PageSent(a, from, limit, w.breaksAt, badQuery, before, sent, since, queries, rows);
      } else {
        PartSent(a, from, limit, w.breaksAt, badQuery, before, sent, since, queries, rows, w.sent);
      }
      queries := queries + 1;
      if !ok || |rows| < limit {
        return ok, next, queries;
      }
      since := next;
    }
  }
}
