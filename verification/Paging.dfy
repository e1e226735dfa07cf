/** One bounded page after a cursor, as a relation any SQL plan may satisfy, and the only page that does. */
module Paging {
  import opened Accounts

  ghost predicate Ascending(page: seq<Envelope>) {
    forall i, j | 0 <= i < j < |page| :: page[i].serverSeq <= page[j].serverSeq
  }

  /** WHERE server_seq > since ORDER BY server_seq LIMIT limit, over one user's rows. Rows of
      equal number may come in any order: the index does not forbid them. */
  ghost predicate IsPage(a: Account, since: int, limit: nat, page: seq<Envelope>) {
    && |page| <= limit
    && Ascending(page)
    && DistinctKeys(page)
    && (forall e <- page :: e.RowKey() in a.rows && a.rows[e.RowKey()] == e && e.serverSeq > since)
    && LeavesOnlyHigher(a, since, limit, page)
  }

  // A row above the cursor is left out only by a full page, and only if none listed is higher.
  ghost predicate LeavesOnlyHigher(a: Account, since: int, limit: nat, page: seq<Envelope>) {
    forall k <- a.rows | a.rows[k].serverSeq > since && a.rows[k] !in page ::
      |page| == limit && forall e <- page :: e.serverSeq <= a.rows[k].serverSeq
  }

  // The cursor to use next: the last row's number, or the request's own on an empty page.
  function NextCursor(since: int, page: seq<Envelope>): int {
    if page == [] then since else page[|page| - 1].serverSeq
  }

  ghost predicate NumberTaken(a: Account, n: int) {
    exists k <- a.rows :: a.rows[k].serverSeq == n
  }

  ghost function RowNumbered(a: Account, n: int): Envelope
    requires NumberTaken(a, n)
  {
    var k :| k in a.rows && a.rows[k].serverSeq == n;
    a.rows[k]
  }

  // Every row above the cursor, in the order of its number.
  ghost function RowsAbove(a: Account, since: int): seq<Envelope>
    decreases a.nextSeq - since
  {
    if since >= a.nextSeq then []
    else if NumberTaken(a, since + 1) then [RowNumbered(a, since + 1)] + RowsAbove(a, since + 1)
    else RowsAbove(a, since + 1)
  }

  function Take(rows: seq<Envelope>, limit: nat): seq<Envelope> {
    if |rows| <= limit then rows else rows[..limit]
  }

  /** The unlimited listing is the rows above the cursor, each once, numbers strictly ascending. */
  lemma {:induction false} RowsAboveIsExact(a: Account, since: int)
    requires Sound(a)
    ensures forall k <- a.rows | a.rows[k].serverSeq > since :: a.rows[k] in RowsAbove(a, since)
    ensures forall e <- RowsAbove(a, since) :: e.RowKey() in a.rows && a.rows[e.RowKey()] == e && e.serverSeq > since
    ensures forall i, j | 0 <= i < j < |RowsAbove(a, since)| :: RowsAbove(a, since)[i].serverSeq < RowsAbove(a, since)[j].serverSeq
    decreases a.nextSeq - since
  {
    if since < a.nextSeq {
      RowsAboveIsExact(a, since + 1);
      var rest := RowsAbove(a, since + 1);
      if NumberTaken(a, since + 1) {
        var r := RowNumbered(a, since + 1);
        assert RowsAbove(a, since) == [r] + rest;
        forall k <- a.rows | a.rows[k].serverSeq > since ensures a.rows[k] in RowsAbove(a, since) {
          if a.rows[k].serverSeq == since + 1 {
            assert a.rows[k] == r;
          }
        }
      }
    }
  }

  lemma TailLeavesOnlyHigher(a: Account, since: int, limit: nat, page: seq<Envelope>)
    requires LeavesOnlyHigher(a, since, limit, page) && 1 <= limit && page != [] && page[0].serverSeq == since + 1
    ensures LeavesOnlyHigher(a, since + 1, limit - 1, page[1..])
  {
    var tail := page[1..];
    assert page == [page[0]] + tail;
    forall k <- a.rows | a.rows[k].serverSeq > since + 1 && a.rows[k] !in tail
      ensures |tail| == limit - 1 && forall e <- tail :: e.serverSeq <= a.rows[k].serverSeq
    {
      assert a.rows[k] !in page;
      assert forall e <- tail :: e in page;
    }
  }

  lemma PageTail(a: Account, since: int, limit: nat, page: seq<Envelope>)
    requires Sound(a) && IsPage(a, since, limit, page) && page != [] && page[0].serverSeq == since + 1
    ensures IsPage(a, since + 1, limit - 1, page[1..])
  {
    var tail := page[1..];
    TailLeavesOnlyHigher(a, since, limit, page);
    assert forall i | 0 <= i < |tail| :: tail[i] == page[i + 1];
    forall e <- tail ensures e.RowKey() in a.rows && a.rows[e.RowKey()] == e && e.serverSeq > since + 1 {
      var i :| 0 <= i < |tail| && tail[i] == e;
      assert page[0] in page && page[i + 1] in page && page[0].RowKey() != page[i + 1].RowKey();
    }
  }

  // The lowest number above the cursor heads every page with room for it.
  lemma PageHead(a: Account, since: int, limit: nat, page: seq<Envelope>)
    requires Sound(a) && IsPage(a, since, limit, page) && 1 <= limit && NumberTaken(a, since + 1)
    ensures page != [] && page[0] == RowNumbered(a, since + 1)
  {
    var r := RowNumbered(a, since + 1);
    assert r.RowKey() in a.rows && a.rows[r.RowKey()] == r;
    assert page != [];
    assert page[0] in page && page[0].serverSeq <= r.serverSeq;
  }

  lemma PageSkip(a: Account, since: int, limit: nat, page: seq<Envelope>)
    requires IsPage(a, since, limit, page) && !NumberTaken(a, since + 1)
    ensures IsPage(a, since + 1, limit, page)
  {
  }

  lemma PageRange(a: Account, since: int, limit: nat, page: seq<Envelope>)
    requires Sound(a) && IsPage(a, since, limit, page) && page != []
    ensures since < page[0].serverSeq <= a.nextSeq
  {
    assert page[0] in page;
  }

  lemma PageOfNothing(a: Account, since: int, limit: nat, page: seq<Envelope>)
    requires Sound(a) && IsPage(a, since, limit, page) && since >= a.nextSeq
    ensures page == []
  {
    if page != [] {
      PageRange(a, since, limit, page);
    }
  }

  // The first row above the cursor, then the page after it.
  lemma PageInFront(a: Account, since: int, limit: nat, page: seq<Envelope>)
    requires since < a.nextSeq && NumberTaken(a, since + 1) && 1 <= limit
    requires page != [] && page[0] == RowNumbered(a, since + 1)
    requires page[1..] == Take(RowsAbove(a, since + 1), limit - 1)
    ensures page == Take(RowsAbove(a, since), limit)
  {
    assert page == [page[0]] + page[1..];
    TakeFront(page[0], RowsAbove(a, since + 1), limit);
  }

  lemma TakeFront(x: Envelope, rest: seq<Envelope>, limit: nat)
    requires 1 <= limit
    ensures Take([x] + rest, limit) == [x] + Take(rest, limit - 1)
  {
  }

  // On a sound account only the first limit rows above the cursor can be a page.
  lemma {:induction false} PageIsDetermined(a: Account, since: int, limit: nat, page: seq<Envelope>)
    requires Sound(a) && IsPage(a, since, limit, page)
    ensures page == Take(RowsAbove(a, since), limit)
    decreases a.nextSeq - since
  {
    if since >= a.nextSeq {
      PageOfNothing(a, since, limit, page);
    } else if limit == 0 {
    } else if NumberTaken(a, since + 1) {
      PageHead(a, since, limit, page);
      PageTail(a, since, limit, page);
      PageIsDetermined(a, since + 1, limit - 1, page[1..]);
      PageInFront(a, since, limit, page);
    } else {
      PageSkip(a, since, limit, page);
      PageIsDetermined(a, since + 1, limit, page);
    }
  }

  // A listing cut short leaves out only higher rows.
  lemma CutLeavesOnlyHigher(a: Account, since: int, limit: nat, rows: seq<Envelope>)
    requires forall k <- a.rows | a.rows[k].serverSeq > since :: a.rows[k] in rows
    requires Ascending(rows)
    ensures LeavesOnlyHigher(a, since, limit, Take(rows, limit))
  {
    var page := Take(rows, limit);
    assert forall i | 0 <= i < |page| :: page[i] == rows[i] && rows[i] in page;
    forall k <- a.rows | a.rows[k].serverSeq > since && a.rows[k] !in page
      ensures |page| == limit && forall e <- page :: e.serverSeq <= a.rows[k].serverSeq
    {
      var j :| 0 <= j < |rows| && rows[j] == a.rows[k];
      assert j >= |page|;
    }
  }

  // Rows of the account under strictly ascending numbers have distinct keys.
  lemma AscendingRowsAreDistinct(a: Account, rows: seq<Envelope>)
    requires forall i | 0 <= i < |rows| :: rows[i].RowKey() in a.rows && a.rows[rows[i].RowKey()] == rows[i]
    requires forall i, j | 0 <= i < j < |rows| :: rows[i].serverSeq < rows[j].serverSeq
    ensures Ascending(rows) && DistinctKeys(rows)
  {
    forall i, j | 0 <= i < j < |rows| ensures rows[i].RowKey() != rows[j].RowKey() {
      assert rows[i].serverSeq < rows[j].serverSeq;
    }
  }

  // The first limit rows above the cursor do answer the query.
  lemma FirstRowsArePage(a: Account, since: int, limit: nat)
    requires Sound(a)
    ensures IsPage(a, since, limit, Take(RowsAbove(a, since), limit))
  {
    var rows := RowsAbove(a, since);
    var page := Take(rows, limit);
    RowsAboveIsExact(a, since);
    CutLeavesOnlyHigher(a, since, limit, rows);
    AscendingRowsAreDistinct(a, page);
    assert forall i | 0 <= i < |page| :: page[i] == rows[i] && rows[i] in rows;
  }

  /** The query has exactly one answer on a sound account. */
  lemma PageIff(a: Account, since: int, limit: nat, page: seq<Envelope>)
    requires Sound(a)
    ensures IsPage(a, since, limit, page) <==> page == Take(RowsAbove(a, since), limit)
    ensures IsPage(a, since, limit, page) ==>
              page <= RowsAbove(a, since) && |page| == if |RowsAbove(a, since)| <= limit then |RowsAbove(a, since)| else limit
  {
    FirstRowsArePage(a, since, limit);
    if IsPage(a, since, limit, page) {
      PageIsDetermined(a, since, limit, page);
    }
  }

  // Listing on from a listed row's number leaves the rows after it.
  lemma {:induction false} RowsAboveFrom(a: Account, since: int, n: nat)
    requires Sound(a) && 1 <= n <= |RowsAbove(a, since)|
    ensures RowsAbove(a, RowsAbove(a, since)[n - 1].serverSeq) == RowsAbove(a, since)[n..]
    decreases a.nextSeq - since
  {
    var rows := RowsAbove(a, since);
    if NumberTaken(a, since + 1) {
      assert rows == [RowNumbered(a, since + 1)] + RowsAbove(a, since + 1);
      assert rows[1..] == RowsAbove(a, since + 1);
      if n > 1 {
        RowsAboveFrom(a, since + 1, n - 1);
        assert rows[n..] == rows[1..][n - 1..];
      }
    } else {
      RowsAboveFrom(a, since + 1, n);
    }
  }

  // A page shortens what is left above the cursor by its own length.
  lemma PageShortens(a: Account, since: int, limit: nat, page: seq<Envelope>)
    requires Sound(a) && IsPage(a, since, limit, page)
    ensures |RowsAbove(a, NextCursor(since, page))| == |RowsAbove(a, since)| - |page|
  {
    PageIsDetermined(a, since, limit, page);
    if page != [] {
      RowsAboveFrom(a, since, |page|);
    }
  }

  // A page strictly ascends and its next cursor is its greatest number.
  lemma PageAscends(a: Account, since: int, limit: nat, page: seq<Envelope>)
    requires Sound(a) && IsPage(a, since, limit, page)
    ensures forall i, j | 0 <= i < j < |page| :: page[i].serverSeq < page[j].serverSeq
    ensures forall e <- page :: since < e.serverSeq <= NextCursor(since, page) <= a.nextSeq
    ensures since <= NextCursor(since, page)
    ensures forall k <- a.rows | since < a.rows[k].serverSeq <= NextCursor(since, page) :: a.rows[k] in page
    ensures |page| < limit ==> forall k <- a.rows :: a.rows[k].serverSeq <= NextCursor(since, page)
  {
    forall i, j | 0 <= i < j < |page| ensures page[i].serverSeq < page[j].serverSeq {
      assert page[i] in page && page[j] in page && page[i].RowKey() != page[j].RowKey();
    }
    if page != [] {
      assert page[|page| - 1] in page;
    }
  }

  /** Which starting cursors are safe: the next write is above the cursor exactly when the
      cursor does not exceed the counter. */
  lemma NextWriteVisibleIff(a: Account, since: int, e: Envelope)
    requires Sound(a) && Applies(a, e)
    ensures Write(a, e).rows[e.RowKey()].serverSeq > since <==> since <= a.nextSeq
    ensures since > a.nextSeq ==> forall limit, page | IsPage(Write(a, e), since, limit, page) :: page == []
  {
    WriteKeepsSound(a, e);
    forall limit, page | since > a.nextSeq && IsPage(Write(a, e), since, limit, page) ensures page == [] {
      PageIsDetermined(Write(a, e), since, limit, page);
    }
  }
}
