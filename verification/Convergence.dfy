/** Arrival order: what it cannot change, and exactly what it can. */
module Convergence {
  import opened Conflict
  import opened Accounts

  // c competes for key k: the row already stored, or an envelope of the batch.
  ghost predicate Candidate(a: Account, es: seq<Envelope>, k: Key, c: Envelope) {
    || (k in a.rows && c == a.rows[k])
    || (c in es && c.RowKey() == k)
  }

  ghost predicate Unbeaten(a: Account, es: seq<Envelope>, k: Key, r: Ranks) {
    forall c | Candidate(a, es, k, c) :: !Wins(c.Ranks(), r)
  }

  /** The surviving row is some candidate's content, and no candidate beats it. */
  lemma {:induction false} WinnerIsGreatest(a: Account, es: seq<Envelope>, k: Key) returns (w: Envelope)
    requires Sound(a)
    requires k in WriteAll(a, es).rows
    ensures Candidate(a, es, k, w)
    ensures w.Content() == WriteAll(a, es).rows[k].Content()
    ensures Unbeaten(a, es, k, w.Ranks())
    decreases es
  {
    if es == [] {
      w := a.rows[k];
      WinsIsStrictTotalOrder(w.Ranks(), w.Ranks(), w.Ranks());
    } else {
      var e, b := es[0], Write(a, es[0]);
      WriteKeepsSound(a, e);
      var v := WinnerIsGreatest(b, es[1..], k);
      // The intermediate row stands for whichever of the two it came from.
      w := if v in es[1..] && v.RowKey() == k then v
           else if e.RowKey() == k && Applies(a, e) then e else a.rows[k];
      assert w.Content() == v.Content() && w.Ranks() == v.Ranks();
      forall c | Candidate(a, es, k, c) ensures !Wins(c.Ranks(), w.Ranks()) {
        if !(c in es[1..] && c.RowKey() == k) {
          assert k in b.rows && Candidate(b, es[1..], k, b.rows[k]);
          WinsIsStrictTotalOrder(e.Ranks(), c.Ranks(), e.Ranks());
          WinsIsStrictTotalOrder(c.Ranks(), e.Ranks(), c.Ranks());
          assert !Wins(c.Ranks(), b.rows[k].Ranks());
          NotBeatenIsTransitive(c.Ranks(), b.rows[k].Ranks(), v.Ranks());
        }
      }
    }
  }

  // No byte of a exceeds b's at their first difference, and a does not go on where b ends.
  ghost predicate NotAbove(a: Text, b: Text) {
    forall n: nat | n < |a| && n <= |b| && a[..n] == b[..n] :: n < |b| && a[n] <= b[n]
  }

  /** After any sequence of writes the row of a key has the latest edit time of all that competed for
      it; among those the greatest revision; and among those no source id is above the stored one. */
  lemma StoredIsGreatest(a: Account, es: seq<Envelope>, k: Key, c: Envelope)
    requires Sound(a) && Candidate(a, es, k, c)
    ensures k in WriteAll(a, es).rows
    ensures var stored := WriteAll(a, es).rows[k];
            && c.lastEditedAtMS <= stored.lastEditedAtMS
            && (c.lastEditedAtMS == stored.lastEditedAtMS ==> c.revision <= stored.revision)
            && (c.lastEditedAtMS == stored.lastEditedAtMS && c.revision == stored.revision ==>
                  NotAbove(c.sourceID, stored.sourceID))
  {
    StoredIffCandidate(a, es, k);
    var w := WinnerIsGreatest(a, es, k);
    var stored := WriteAll(a, es).rows[k];
    assert w.Content().Ranks() == w.Ranks() && stored.Content().Ranks() == stored.Ranks();
    WinsReads(c.Ranks(), stored.Ranks());
  }

  // A key is stored exactly when something competed for it.
  lemma {:induction false} StoredIffCandidate(a: Account, es: seq<Envelope>, k: Key)
    ensures k in WriteAll(a, es).rows <==> exists c :: Candidate(a, es, k, c)
    decreases es
  {
    if k in a.rows {
      assert Candidate(a, es, k, a.rows[k]);
    }
    if es != [] {
      var b := Write(a, es[0]);
      StoredIffCandidate(b, es[1..], k);
      if exists c :: Candidate(b, es[1..], k, c) {
        var c :| Candidate(b, es[1..], k, c);
        if c in es[1..] && c.RowKey() == k {
          assert Candidate(a, es, k, c);
        } else if k !in a.rows {
          assert Candidate(a, es, k, es[0]);
        }
      }
      if exists c :: Candidate(a, es, k, c) {
        var c :| Candidate(a, es, k, c);
        if c in es[1..] && c.RowKey() == k {
          assert Candidate(b, es[1..], k, c);
        } else {
          assert Candidate(b, es[1..], k, b.rows[k]);
        }
      }
    }
  }

  ghost predicate SameEnvelopes(xs: seq<Envelope>, ys: seq<Envelope>) {
    forall e :: e in xs <==> e in ys
  }

  lemma PermutationsHaveSameEnvelopes(xs: seq<Envelope>, ys: seq<Envelope>)
    requires multiset(xs) == multiset(ys)
    ensures SameEnvelopes(xs, ys)
  {
    forall e ensures e in xs <==> e in ys {
      assert e in xs <==> e in multiset(xs);
      assert e in ys <==> e in multiset(ys);
    }
  }

  // Candidates of equal greatest rank for key k all carry the same content.
  ghost predicate TopsAgree(a: Account, es: seq<Envelope>, k: Key) {
    forall c, d | Candidate(a, es, k, c) && Candidate(a, es, k, d)
                  && Unbeaten(a, es, k, c.Ranks()) && Unbeaten(a, es, k, d.Ranks()) :: c.Content() == d.Content()
  }

  /** Two orders of the same envelopes, repeats allowed, store the same keys with the same
      ranks; and the same content wherever equal greatest ranks carry equal content. */
  lemma OrderCannotChangeRanks(a: Account, xs: seq<Envelope>, ys: seq<Envelope>, k: Key)
    requires Sound(a) && SameEnvelopes(xs, ys)
    ensures k in WriteAll(a, xs).rows <==> k in WriteAll(a, ys).rows
    ensures k in WriteAll(a, xs).rows ==>
              && WriteAll(a, xs).rows[k].Ranks() == WriteAll(a, ys).rows[k].Ranks()
              && Unbeaten(a, xs, k, WriteAll(a, xs).rows[k].Ranks())
    ensures k in WriteAll(a, xs).rows && TopsAgree(a, xs, k) ==>
              WriteAll(a, xs).rows[k].Content() == WriteAll(a, ys).rows[k].Content()
  {
    assert forall c :: Candidate(a, xs, k, c) <==> Candidate(a, ys, k, c);
    StoredIffCandidate(a, xs, k);
    StoredIffCandidate(a, ys, k);
    if k in WriteAll(a, xs).rows {
      var v := WinnerIsGreatest(a, xs, k);
      var w := WinnerIsGreatest(a, ys, k);
      assert v.Content().Ranks() == v.Ranks() && w.Content().Ranks() == w.Ranks();
      assert WriteAll(a, xs).rows[k].Content().Ranks() == WriteAll(a, xs).rows[k].Ranks();
      assert WriteAll(a, ys).rows[k].Content().Ranks() == WriteAll(a, ys).rows[k].Ranks();
      WinsIsStrictTotalOrder(v.Ranks(), w.Ranks(), v.Ranks());
      assert Unbeaten(a, xs, k, w.Ranks());
    }
  }

  /** Creation time is always the key's first arrival's, whatever wins later. */
  lemma {:induction false} CreationIsFirstArrival(a: Account, es: seq<Envelope>, k: Key, i: nat)
    requires i <= |es|
    requires forall j | 0 <= j < i :: es[j].RowKey() != k
    requires k !in a.rows ==> i < |es| && es[i].RowKey() == k
    ensures k in WriteAll(a, es).rows
    ensures WriteAll(a, es).rows[k].createdAtMS == if k in a.rows then a.rows[k].createdAtMS else es[i].createdAtMS
    decreases es
  {
    if es != [] {
      var b := Write(a, es[0]);
      CreationIsFirstArrival(b, es[1..], k, if i == 0 then 0 else i - 1);
    }
  }

  // A stored row no later envelope beats stays exactly as it is.
  lemma {:induction false} UnbeatenRowStays(a: Account, es: seq<Envelope>, k: Key)
    requires k in a.rows
    requires forall e <- es | e.RowKey() == k :: !Wins(e.Ranks(), a.rows[k].Ranks())
    ensures k in WriteAll(a, es).rows && WriteAll(a, es).rows[k] == a.rows[k]
    decreases es
  {
    if es != [] {
      UnbeatenRowStays(Write(a, es[0]), es[1..], k);
    }
  }

  ghost predicate EveryOrderAgrees(xs: seq<Envelope>, k: Key) {
    forall ys | multiset(ys) == multiset(xs) && k in WriteAll(EMPTY, xs).rows && k in WriteAll(EMPTY, ys).rows ::
      WriteAll(EMPTY, ys).rows[k].Content() == WriteAll(EMPTY, xs).rows[k].Content()
  }

  // Some order of xs stores the content of the top candidate c: the one where c comes first.
  lemma TopCanComeFirst(xs: seq<Envelope>, k: Key, c: Envelope) returns (ys: seq<Envelope>)
    requires Candidate(EMPTY, xs, k, c) && Unbeaten(EMPTY, xs, k, c.Ranks())
    ensures multiset(ys) == multiset(xs)
    ensures k in WriteAll(EMPTY, ys).rows && WriteAll(EMPTY, ys).rows[k].Content() == c.Content()
  {
    var i :| 0 <= i < |xs| && xs[i] == c;
    var rest := xs[..i] + xs[i + 1..];
    ys := [c] + rest;
    assert xs == xs[..i] + [c] + xs[i + 1..];
    assert ys[1..] == rest;
    forall e <- rest | e.RowKey() == k ensures !Wins(e.Ranks(), c.Ranks()) {
      assert Candidate(EMPTY, xs, k, e);
    }
    UnbeatenRowStays(Write(EMPTY, c), rest, k);
  }

  /** The stored content is independent of arrival order exactly when the envelopes that tie
      for the greatest ranks of the key carry the same content. */
  lemma ContentOrderFreeIff(xs: seq<Envelope>, k: Key)
    ensures EveryOrderAgrees(xs, k) <==> TopsAgree(EMPTY, xs, k)
  {
    if TopsAgree(EMPTY, xs, k) {
      forall ys | multiset(ys) == multiset(xs) && k in WriteAll(EMPTY, xs).rows && k in WriteAll(EMPTY, ys).rows
        ensures WriteAll(EMPTY, ys).rows[k].Content() == WriteAll(EMPTY, xs).rows[k].Content()
      {
        PermutationsHaveSameEnvelopes(xs, ys);
        OrderCannotChangeRanks(EMPTY, xs, ys, k);
      }
    }
    if EveryOrderAgrees(xs, k) {
      forall c, d | Candidate(EMPTY, xs, k, c) && Candidate(EMPTY, xs, k, d)
                    && Unbeaten(EMPTY, xs, k, c.Ranks()) && Unbeaten(EMPTY, xs, k, d.Ranks())
        ensures c.Content() == d.Content()
      {
        StoredIffCandidate(EMPTY, xs, k);
        var ys := TopCanComeFirst(xs, k, c);
        var zs := TopCanComeFirst(xs, k, d);
      }
    }
  }

  // Two envelopes that tie on all three ranks: the first to arrive keeps the row.
  lemma TieKeepsFirstArrival(x: Envelope, y: Envelope)
    requires x.RowKey() == y.RowKey() && x.Ranks() == y.Ranks() && x.payload != y.payload
    ensures var first, second := WriteAll(EMPTY, [x, y]).rows, WriteAll(EMPTY, [y, x]).rows;
            && x.RowKey() in first && first[x.RowKey()].payload == x.payload
            && x.RowKey() in second && second[x.RowKey()].payload == y.payload
  {
    WinsIsStrictTotalOrder(x.Ranks(), x.Ranks(), x.Ranks());
    UnbeatenRowStays(Write(EMPTY, x), [y], x.RowKey());
    UnbeatenRowStays(Write(EMPTY, y), [x], x.RowKey());
    assert [x, y][1..] == [y] && [y, x][1..] == [x];
  }
}
