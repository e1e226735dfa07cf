/** The divergence check as a read-only prediction of what a push would apply. */
module Divergence {
  import opened Conflict
  import opened Accounts
  import opened Convergence

  datatype Item = Item(id: Text, part: Text, lastEditedAtMS: int, revision: int, sourceID: Text) {
    function RowKey(): Key { Key(id, part) }

    function Ranks(): Ranks { Conflict.Ranks(lastEditedAtMS, revision, sourceID) }
  }

  datatype StaleEntry = StaleEntry(key: Key, ranks: Ranks)

  datatype Report = Report(missing: seq<Key>, stale: seq<StaleEntry>)

  predicate Named(items: seq<Item>, k: Key) {
    exists item <- items :: item.RowKey() == k
  }

  // The items that answer for their keys: the first of each.
  function FirstSeen(items: seq<Item>): seq<Item> {
    if items == [] then []
    else
      var last, earlier := items[|items| - 1], items[..|items| - 1];
      if Named(earlier, last.RowKey()) then FirstSeen(earlier) else FirstSeen(earlier) + [last]
  }

  function Missing(a: Account, order: seq<Item>): seq<Key> {
    if order == [] then []
    else
      var last := order[|order| - 1];
      Missing(a, order[..|order| - 1]) + if last.RowKey() in a.rows then [] else [last.RowKey()]
  }

  function Stale(a: Account, order: seq<Item>): seq<StaleEntry> {
    if order == [] then []
    else
      var last := order[|order| - 1];
      var k := last.RowKey();
      Stale(a, order[..|order| - 1])
      + if k in a.rows && Wins(last.Ranks(), a.rows[k].Ranks()) then [StaleEntry(k, a.rows[k].Ranks())] else []
  }

  function Check(a: Account, items: seq<Item>): Report {
    Report(Missing(a, FirstSeen(items)), Stale(a, FirstSeen(items)))
  }

  predicate First(items: seq<Item>, i: nat)
    requires i < |items|
  {
    !Named(items[..i], items[i].RowKey())
  }

  predicate Reported(r: Report, k: Key) {
    k in r.missing || exists entry <- r.stale :: entry.key == k
  }

  lemma FirstInPrefix(items: seq<Item>, n: nat, i: nat)
    requires i < n <= |items|
    ensures First(items[..n], i) <==> First(items, i)
  {
    assert items[..n][..i] == items[..i];
  }

  lemma {:induction false} FirstSeenIff(items: seq<Item>, x: Item)
    ensures x in FirstSeen(items) <==> exists i | 0 <= i < |items| :: items[i] == x && First(items, i)
  {
    if items != [] {
      var n := |items| - 1;
      var earlier := items[..n];
      FirstSeenIff(earlier, x);
      forall i | 0 <= i < n ensures First(earlier, i) <==> First(items, i) {
        FirstInPrefix(items, n, i);
      }
      assert x in FirstSeen(items) <==> x in FirstSeen(earlier) || (x == items[n] && First(items, n));
      assert forall i | 0 <= i < n :: earlier[i] == items[i];
    }
  }

  lemma LaterIsNotFirst(items: seq<Item>, i: nat, j: nat)
    requires i <= j < |items| && items[i].RowKey() == items[j].RowKey()
    ensures i < j ==> !First(items, j)
  {
    assert i < j ==> items[i] in items[..j];
  }

  lemma {:induction false} MissingIff(a: Account, order: seq<Item>, k: Key)
    ensures k in Missing(a, order) <==> Named(order, k) && k !in a.rows
  {
    if order != [] {
      var n := |order| - 1;
      MissingIff(a, order[..n], k);
      assert order == order[..n] + [order[n]];
    }
  }

  lemma {:induction false} StaleIff(a: Account, order: seq<Item>, entry: StaleEntry)
    ensures entry in Stale(a, order) <==>
              exists item <- order :: && item.RowKey() == entry.key && entry.key in a.rows
                                      && entry.ranks == a.rows[entry.key].Ranks()
                                      && Wins(item.Ranks(), entry.ranks)
  {
    if order != [] {
      var n := |order| - 1;
      StaleIff(a, order[..n], entry);
      assert order == order[..n] + [order[n]];
    }
  }

  /** A key is listed exactly when pushing an envelope with its first-seen ranks would be
      applied: as missing when nothing is stored, as stale, with the server's ranks, when the
      stored row loses. Keys the request does not name are not listed. */
  lemma CheckPredictsPush(a: Account, items: seq<Item>, i: nat, e: Envelope)
    requires i < |items| && First(items, i)
    requires e.RowKey() == items[i].RowKey() && e.Ranks() == items[i].Ranks()
    ensures Reported(Check(a, items), e.RowKey()) <==> Applies(a, e)
    ensures e.RowKey() in Check(a, items).missing <==> e.RowKey() !in a.rows
    ensures forall entry <- Check(a, items).stale | entry.key == e.RowKey() ::
              entry.key in a.rows && entry.ranks == a.rows[entry.key].Ranks() && Wins(e.Ranks(), entry.ranks)
    ensures forall k | Reported(Check(a, items), k) :: Named(items, k)
  {
    var k, order := e.RowKey(), FirstSeen(items);
    FirstSeenIff(items, items[i]);
    assert Named(order, k);
    MissingIff(a, order, k);
    forall item <- order | item.RowKey() == k ensures item == items[i] {
      FirstSeenIff(items, item);
      var j :| 0 <= j < |items| && items[j] == item && First(items, j);
      LaterIsNotFirst(items, if i < j then i else j, if i < j then j else i);
    }
    forall entry ensures entry in Stale(a, order) ==> Named(items, entry.key)
                 ensures entry in Stale(a, order) && entry.key == k ==>
                           k in a.rows && entry.ranks == a.rows[k].Ranks() && Wins(e.Ranks(), entry.ranks)
    {
      StaleIff(a, order, entry);
      if entry in Stale(a, order) {
        var item :| item in order && item.RowKey() == entry.key;
        FirstSeenIff(items, item);
      }
    }
    if k in a.rows {
      StaleIff(a, order, StaleEntry(k, a.rows[k].Ranks()));
    }
    forall q | q in Check(a, items).missing ensures Named(items, q) {
      MissingIff(a, order, q);
      var item :| item in order && item.RowKey() == q;
      FirstSeenIff(items, item);
    }
  }

  // --- What a report says and in what order, without the functions that compute it ---

  // The first item that names the key stands at p.
  predicate Occurs(items: seq<Item>, k: Key, p: int) {
    0 <= p < |items| && items[p].RowKey() == k && forall q | 0 <= q < p :: items[q].RowKey() != k
  }

  // Keys in the order of their first occurrence; in particular none of them twice.
  ghost predicate InRequestOrder(items: seq<Item>, keys: seq<Key>) {
    && (forall k <- keys :: Named(items, k))
    && (forall i, j, p, q | 0 <= i < j < |keys| && Occurs(items, keys[i], p) && Occurs(items, keys[j], q) :: p < q)
  }

  function KeysOf(order: seq<Item>): seq<Key> {
    seq(|order|, i requires 0 <= i < |order| => order[i].RowKey())
  }

  function StaleKeys(stale: seq<StaleEntry>): seq<Key> {
    seq(|stale|, i requires 0 <= i < |stale| => stale[i].key)
  }

  /** Every requested key without a row is missing; every requested key whose row loses to the ranks of
      its first item is stale, with the row's ranks; nothing else is listed, and nothing twice. */
  ghost predicate Answers(a: Account, items: seq<Item>, r: Report) {
    && InRequestOrder(items, r.missing) && InRequestOrder(items, StaleKeys(r.stale))
    && (forall k :: k in r.missing <==> Named(items, k) && k !in a.rows)
    && (forall entry :: entry in r.stale <==>
          exists p :: && Occurs(items, entry.key, p) && entry.key in a.rows
                      && entry.ranks == a.rows[entry.key].Ranks() && Wins(items[p].Ranks(), entry.ranks))
  }

  lemma {:induction false} NamedOccurs(items: seq<Item>, k: Key) returns (p: nat)
    requires Named(items, k)
    ensures Occurs(items, k, p)
  {
    var n := |items| - 1;
    if Named(items[..n], k) {
      p := NamedOccurs(items[..n], k);
      assert forall q | 0 <= q < n :: items[..n][q] == items[q];
    } else {
      p := n;
      forall q | 0 <= q < n ensures items[q].RowKey() != k {
        assert items[q] in items[..n];
      }
    }
  }

  lemma OccursIsFirst(items: seq<Item>, p: nat)
    requires p < |items|
    ensures Occurs(items, items[p].RowKey(), p) <==> First(items, p)
  {
    if !First(items, p) {
      var item :| item in items[..p] && item.RowKey() == items[p].RowKey();
      var q :| 0 <= q < p && items[..p][q] == item;
      assert items[q].RowKey() == items[p].RowKey();
    }
    forall q | 0 <= q < p && items[q].RowKey() == items[p].RowKey() ensures !First(items, p) {
      assert items[q] in items[..p];
    }
  }

  // One more key, whose first occurrence comes after those of all the others.
  lemma OrderGrows(items: seq<Item>, keys: seq<Key>, k: Key)
    requires InRequestOrder(items, keys) && Named(items, k)
    requires forall j <- keys, p, q | Occurs(items, j, p) && Occurs(items, k, q) :: p < q
    ensures InRequestOrder(items, keys + [k])
  {
    var longer := keys + [k];
    forall i, j, p, q | 0 <= i < j < |longer| && Occurs(items, longer[i], p) && Occurs(items, longer[j], q) ensures p < q {
      if j == |keys| {
        assert longer[i] == keys[i] && keys[i] in keys;
      } else {
        assert longer[i] == keys[i] && longer[j] == keys[j];
      }
    }
  }

  lemma OccursInLonger(items: seq<Item>, last: Item, k: Key, p: int)
    requires Named(items, k)
    ensures Occurs(items + [last], k, p) <==> Occurs(items, k, p)
  {
    var n := NamedOccurs(items, k);
    assert (items + [last])[n] == items[n];
    if Occurs(items + [last], k, p) {
      assert p <= n;
      assert forall q | 0 <= q <= p :: (items + [last])[q] == items[q];
    }
  }

  lemma LongerKeepsOrder(items: seq<Item>, last: Item, keys: seq<Key>)
    requires InRequestOrder(items, keys)
    ensures InRequestOrder(items + [last], keys)
  {
    forall k <- keys ensures Named(items + [last], k) {
      var item :| item in items && item.RowKey() == k;
      assert item in items + [last];
    }
    forall i, j, p, q | 0 <= i < j < |keys| && Occurs(items + [last], keys[i], p) && Occurs(items + [last], keys[j], q)
      ensures p < q
    {
      assert keys[i] in keys && keys[j] in keys;
      OccursInLonger(items, last, keys[i], p);
      OccursInLonger(items, last, keys[j], q);
    }
  }

  lemma {:induction false} FirstSeenInOrder(items: seq<Item>)
    ensures InRequestOrder(items, KeysOf(FirstSeen(items)))
  {
    if items != [] {
      var n := |items| - 1;
      var earlier, last := items[..n], items[n];
      var keys, k := KeysOf(FirstSeen(earlier)), last.RowKey();
      assert items == earlier + [last];
      FirstSeenInOrder(earlier);
      LongerKeepsOrder(earlier, last, keys);
      if !Named(earlier, k) {
        assert KeysOf(FirstSeen(items)) == keys + [k];
        assert last in items;
        assert forall q | 0 <= q < n :: items[q] == earlier[q] && earlier[q] in earlier;
        forall j <- keys, p, q | Occurs(items, j, p) && Occurs(items, k, q) ensures p < q {
          OccursInLonger(earlier, last, j, p);
        }
        OrderGrows(items, keys, k);
      }
    }
  }

  lemma OrderOfPrefix(items: seq<Item>, keys: seq<Key>, n: nat)
    requires InRequestOrder(items, keys) && n < |keys|
    ensures InRequestOrder(items, keys[..n])
    ensures forall j <- keys[..n], p, q | Occurs(items, j, p) && Occurs(items, keys[n], q) :: p < q
    ensures Named(items, keys[n])
  {
    assert keys[n] in keys;
    assert forall k <- keys[..n] :: k in keys;
  }

  lemma {:induction false} MissingInOrder(a: Account, items: seq<Item>, order: seq<Item>)
    requires InRequestOrder(items, KeysOf(order))
    ensures InRequestOrder(items, Missing(a, order))
    decreases order
  {
    if order != [] {
      var n := |order| - 1;
      var earlier := order[..n];
      assert KeysOf(order)[..n] == KeysOf(earlier);
      OrderOfPrefix(items, KeysOf(order), n);
      MissingInOrder(a, items, earlier);
      if order[n].RowKey() !in a.rows {
        forall k <- Missing(a, earlier) ensures k in KeysOf(earlier) {
          MissingIff(a, earlier, k);
          NamedIsKey(earlier, k);
        }
        OrderGrows(items, Missing(a, earlier), order[n].RowKey());
      }
    }
  }

  lemma {:induction false} StaleInOrder(a: Account, items: seq<Item>, order: seq<Item>)
    requires InRequestOrder(items, KeysOf(order))
    ensures InRequestOrder(items, StaleKeys(Stale(a, order)))
    decreases order
  {
    if order != [] {
      var n := |order| - 1;
      var earlier, k := order[..n], order[n].RowKey();
      var keys := StaleKeys(Stale(a, earlier));
      assert KeysOf(order)[..n] == KeysOf(earlier);
      OrderOfPrefix(items, KeysOf(order), n);
      StaleInOrder(a, items, earlier);
      if Stale(a, order) != Stale(a, earlier) {
        assert StaleKeys(Stale(a, order)) == keys + [k];
        forall j <- keys ensures j in KeysOf(earlier) {
          var i :| 0 <= i < |keys| && keys[i] == j;
          StaleIff(a, earlier, Stale(a, earlier)[i]);
          NamedIsKey(earlier, j);
        }
        OrderGrows(items, keys, k);
      }
    }
  }

  lemma NamedIsKey(order: seq<Item>, k: Key)
    ensures Named(order, k) <==> k in KeysOf(order)
  {
    if Named(order, k) {
      var item :| item in order && item.RowKey() == k;
      var i :| 0 <= i < |order| && order[i] == item;
      assert KeysOf(order)[i] == k;
    }
    if k in KeysOf(order) {
      var i :| 0 <= i < |order| && KeysOf(order)[i] == k;
      assert order[i] in order;
    }
  }

  // The items that answer for their keys are those that stand at first occurrences.
  lemma FirstSeenOccurs(items: seq<Item>, x: Item)
    ensures x in FirstSeen(items) <==> exists p :: Occurs(items, x.RowKey(), p) && items[p] == x
  {
    FirstSeenIff(items, x);
    if i :| 0 <= i < |items| && items[i] == x && First(items, i) {
      OccursIsFirst(items, i);
    }
    if p :| Occurs(items, x.RowKey(), p) && items[p] == x {
      OccursIsFirst(items, p);
    }
  }

  lemma FirstSeenNames(items: seq<Item>, k: Key)
    ensures Named(FirstSeen(items), k) <==> Named(items, k)
  {
    if Named(items, k) {
      var p := NamedOccurs(items, k);
      FirstSeenOccurs(items, items[p]);
    }
    if Named(FirstSeen(items), k) {
      var x :| x in FirstSeen(items) && x.RowKey() == k;
      FirstSeenOccurs(items, x);
    }
  }

  lemma StaleOccurs(a: Account, items: seq<Item>, entry: StaleEntry)
    ensures entry in Stale(a, FirstSeen(items)) <==>
              exists p :: && Occurs(items, entry.key, p) && entry.key in a.rows
                          && entry.ranks == a.rows[entry.key].Ranks() && Wins(items[p].Ranks(), entry.ranks)
  {
    StaleIff(a, FirstSeen(items), entry);
    if entry in Stale(a, FirstSeen(items)) {
      var item :| item in FirstSeen(items) && item.RowKey() == entry.key && Wins(item.Ranks(), entry.ranks);
      FirstSeenOccurs(items, item);
      var p :| Occurs(items, entry.key, p) && items[p] == item;
      assert Wins(items[p].Ranks(), entry.ranks);
    }
    if p :| && Occurs(items, entry.key, p) && entry.key in a.rows
            && entry.ranks == a.rows[entry.key].Ranks() && Wins(items[p].Ranks(), entry.ranks) {
      FirstSeenOccurs(items, items[p]);
    }
  }

  /** The report answers the request: the right keys, once each, in the order they were asked for. */
  lemma CheckAnswers(a: Account, items: seq<Item>)
    ensures Answers(a, items, Check(a, items))
  {
    var order := FirstSeen(items);
    FirstSeenInOrder(items);
    MissingInOrder(a, items, order);
    StaleInOrder(a, items, order);
    forall k ensures k in Missing(a, order) <==> Named(items, k) && k !in a.rows {
      MissingIff(a, order, k);
      FirstSeenNames(items, k);
    }
    forall entry
      ensures entry in Stale(a, order) <==>
                exists p :: && Occurs(items, entry.key, p) && entry.key in a.rows
                            && entry.ranks == a.rows[entry.key].Ranks() && Wins(items[p].Ranks(), entry.ranks)
    {
      StaleOccurs(a, items, entry);
    }
  }

  /** No key is listed twice, in one list or across both. */
  lemma NothingTwice(a: Account, items: seq<Item>, r: Report)
    requires Answers(a, items, r)
    ensures forall i, j | 0 <= i < j < |r.missing| :: r.missing[i] != r.missing[j]
    ensures forall i, j | 0 <= i < j < |r.stale| :: r.stale[i].key != r.stale[j].key
    ensures forall i, j | 0 <= i < |r.missing| && 0 <= j < |r.stale| :: r.missing[i] != r.stale[j].key
  {
    forall i, j | 0 <= i < j < |r.missing| ensures r.missing[i] != r.missing[j] {
      assert r.missing[i] in r.missing;
      var p := NamedOccurs(items, r.missing[i]);
    }
    var keys := StaleKeys(r.stale);
    forall i, j | 0 <= i < j < |r.stale| ensures r.stale[i].key != r.stale[j].key {
      assert keys[i] in keys && keys[j] == r.stale[j].key;
      var p := NamedOccurs(items, keys[i]);
    }
    forall i, j | 0 <= i < |r.missing| && 0 <= j < |r.stale| ensures r.missing[i] != r.stale[j].key {
      assert r.missing[i] in r.missing && r.stale[j] in r.stale;
    }
  }

  // Every listed key has been pushed with its first-seen ranks, somewhere among es.
  ghost predicate Answered(a: Account, items: seq<Item>, es: seq<Envelope>) {
    forall i | 0 <= i < |items| && First(items, i) && Reported(Check(a, items), items[i].RowKey()) ::
      exists e <- es :: e.RowKey() == items[i].RowKey() && e.Ranks() == items[i].Ranks()
  }

  /** Once the listed items are pushed, in any order and among any other pushes, the same
      check lists nothing. */
  lemma AnsweredCheckIsEmpty(a: Account, items: seq<Item>, es: seq<Envelope>)
    requires Sound(a) && Answered(a, items, es)
    ensures Check(WriteAll(a, es), items) == Report([], [])
  {
    var b, order := WriteAll(a, es), FirstSeen(items);
    forall item <- order
      ensures item.RowKey() in b.rows && !Wins(item.Ranks(), b.rows[item.RowKey()].Ranks())
    {
      FirstSeenIff(items, item);
      var i :| 0 <= i < |items| && items[i] == item && First(items, i);
      AnsweredItemLoses(a, items, es, i);
    }
    if Missing(b, order) != [] {
      MissingIff(b, order, Missing(b, order)[0]);
    }
    if Stale(b, order) != [] {
      StaleIff(b, order, Stale(b, order)[0]);
    }
  }

  lemma AnsweredItemLoses(a: Account, items: seq<Item>, es: seq<Envelope>, i: nat)
    requires Sound(a) && Answered(a, items, es)
    requires i < |items| && First(items, i)
    ensures items[i].RowKey() in WriteAll(a, es).rows
    ensures !Wins(items[i].Ranks(), WriteAll(a, es).rows[items[i].RowKey()].Ranks())
  {
    var item, k := items[i], items[i].RowKey();
    var e := Envelope(item.id, item.part, [], item.sourceID, [], 0, item.lastEditedAtMS, item.revision, 0, 0, [], 0);
    CheckPredictsPush(a, items, i, e);
    StoredIffCandidate(a, es, k);
    if Applies(a, e) {
      var pushed :| pushed in es && pushed.RowKey() == k && pushed.Ranks() == item.Ranks();
      assert Candidate(a, es, k, pushed);
      var w := WinnerIsGreatest(a, es, k);
      assert w.Content().Ranks() == w.Ranks();
    } else {
      assert Candidate(a, es, k, a.rows[k]);
      WriteAllGrows(a, es);
      NotBeatenIsTransitive(item.Ranks(), a.rows[k].Ranks(), WriteAll(a, es).rows[k].Ranks());
    }
  }
}
