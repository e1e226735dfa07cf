/** The divergence endpoint: validate, deduplicate, look up ranks, classify. It never writes. */
module DiffHandler {
  import opened Conflict
  import opened Accounts
  import opened Tables
  import opened Results
  import opened Store
  import opened Divergence
  import PushHandler

  const MAX_DIFF_ITEMS := 500

  datatype DiffReply =
    | NoItems
    | TooManyItems
    | InvalidItem(field: string)
    | StorageUnavailable
    | Answer(report: Report)

  predicate WellFormed(item: Item) {
    && PushHandler.Within(item.id, PushHandler.MAX_ID_BYTES) && PushHandler.Within(item.part, PushHandler.MAX_PART_BYTES)
    && PushHandler.Within(item.sourceID, PushHandler.MAX_SOURCE_ID_BYTES)
    && item.lastEditedAtMS >= 0 && item.revision >= 0
  }

  predicate AtFault(item: Item, field: string) {
    || (field == "id" && !PushHandler.Within(item.id, PushHandler.MAX_ID_BYTES))
    || (field == "part" && !PushHandler.Within(item.part, PushHandler.MAX_PART_BYTES))
    || (field == "source_id" && !PushHandler.Within(item.sourceID, PushHandler.MAX_SOURCE_ID_BYTES))
    || (field == "last_edited_at_ms" && item.lastEditedAtMS < 0)
    || (field == "revision" && item.revision < 0)
  }

  // The order in which fields are looked at.
  const ITEM_FIELDS: seq<string> := ["id", "part", "source_id", "last_edited_at_ms", "revision"]

  // The first invalid field, or the empty name.
  function ValidateDiffItem(item: Item): (field: string)
    ensures field == "" <==> WellFormed(item)
    ensures field == "" <==>
              && 1 <= |item.id| <= 128 && 1 <= |item.part| <= 64 && 1 <= |item.sourceID| <= 128
              && item.lastEditedAtMS >= 0 && item.revision >= 0
  {
    if !PushHandler.Within(item.id, PushHandler.MAX_ID_BYTES) then "id"
    else if !PushHandler.Within(item.part, PushHandler.MAX_PART_BYTES) then "part"
    else if !PushHandler.Within(item.sourceID, PushHandler.MAX_SOURCE_ID_BYTES) then "source_id"
    else if item.lastEditedAtMS < 0 then "last_edited_at_ms"
    else if item.revision < 0 then "revision"
    else ""
  }

  lemma NamedFaultIsFirst(item: Item, n: nat)
    requires n < |ITEM_FIELDS| && ValidateDiffItem(item) == ITEM_FIELDS[n]
    ensures AtFault(item, ITEM_FIELDS[n]) && forall m | 0 <= m < n :: !AtFault(item, ITEM_FIELDS[m])
  {
  }

  // A field is named exactly when it is at fault and none looked at before it is.
  lemma DiffFaultIsFirst(item: Item, n: nat)
    requires n < |ITEM_FIELDS|
    ensures ValidateDiffItem(item) == ITEM_FIELDS[n] <==>
              AtFault(item, ITEM_FIELDS[n]) && forall m | 0 <= m < n :: !AtFault(item, ITEM_FIELDS[m])
  {
    if ValidateDiffItem(item) == ITEM_FIELDS[n] {
      NamedFaultIsFirst(item, n);
    } else if AtFault(item, ITEM_FIELDS[n]) {
      assert ValidateDiffItem(item) in ITEM_FIELDS;
      var p :| 0 <= p < |ITEM_FIELDS| && ITEM_FIELDS[p] == ValidateDiffItem(item);
      NamedFaultIsFirst(item, p);
    }
  }

  ghost predicate AllWellFormed(items: seq<Item>) {
    forall item <- items :: WellFormed(item)
  }

  // The field named is the first fault of the first faulty item.
  ghost predicate FirstFault(items: seq<Item>, field: string) {
    exists i | 0 <= i < |items| :: AllWellFormed(items[..i]) && !WellFormed(items[i]) && field == ValidateDiffItem(items[i])
  }

  // What the validation loop has built from the items read so far.
  ghost predicate Indexed(items: seq<Item>, order: seq<Key>, incomingByKey: map<Key, Item>) {
    && order == KeysOf(FirstSeen(items))
    && (forall k :: k in incomingByKey <==> Named(items, k))
    && (forall item <- FirstSeen(items) :: item.RowKey() in incomingByKey && incomingByKey[item.RowKey()] == item)
  }

  lemma NamedStep(items: seq<Item>, item: Item, k: Key)
    ensures Named(items + [item], k) <==> Named(items, k) || item.RowKey() == k
  {
    if Named(items, k) {
      var other :| other in items && other.RowKey() == k;
      assert other in items + [item];
    }
    assert item in items + [item];
  }

  // An item whose key was seen adds nothing; any other is first for its key.
  lemma IndexedStep(items: seq<Item>, item: Item, order: seq<Key>, incomingByKey: map<Key, Item>)
    requires Indexed(items, order, incomingByKey)
    ensures item.RowKey() in incomingByKey ==> Indexed(items + [item], order, incomingByKey)
    ensures item.RowKey() !in incomingByKey ==>
              Indexed(items + [item], order + [item.RowKey()], incomingByKey[item.RowKey() := item])
  {
    var longer, k := items + [item], item.RowKey();
    assert longer[..|items|] == items && longer[|items|] == item;
    forall q: Key ensures Named(longer, q) <==> Named(items, q) || q == k {
      NamedStep(items, item, q);
    }
    if k in incomingByKey {
      assert FirstSeen(longer) == FirstSeen(items);
    } else {
      IndexedNewKey(items, item, order, incomingByKey);
    }
  }

  lemma IndexedNewKey(items: seq<Item>, item: Item, order: seq<Key>, incomingByKey: map<Key, Item>)
    requires Indexed(items, order, incomingByKey) && item.RowKey() !in incomingByKey
    requires forall q: Key :: Named(items + [item], q) <==> Named(items, q) || q == item.RowKey()
    ensures Indexed(items + [item], order + [item.RowKey()], incomingByKey[item.RowKey() := item])
  {
    var longer, k := items + [item], item.RowKey();
    assert longer[..|items|] == items && longer[|items|] == item;
    assert FirstSeen(longer) == FirstSeen(items) + [item];
    assert KeysOf(FirstSeen(longer)) == order + [k];
    forall other <- FirstSeen(items) ensures other.RowKey() != k {
      assert other.RowKey() in incomingByKey;
    }
  }

  lemma PassedStep(items: seq<Item>, i: nat, order: seq<Key>, incomingByKey: map<Key, Item>)
    requires i < |items| && AllWellFormed(items[..i]) && WellFormed(items[i]) && Indexed(items[..i], order, incomingByKey)
    ensures AllWellFormed(items[..i + 1])
    ensures var k := items[i].RowKey();
            if k in incomingByKey then Indexed(items[..i + 1], order, incomingByKey)
            else Indexed(items[..i + 1], order + [k], incomingByKey[k := items[i]])
  {
    IndexedStep(items[..i], items[i], order, incomingByKey);
    assert items[..i + 1] == items[..i] + [items[i]];
  }

  // The first-seen keys in order, and the first item of each.
  method ValidateDiffItems(items: seq<Item>)
    returns (fault: Option<string>, order: seq<Key>, incomingByKey: map<Key, Item>)
    ensures fault.Some? ==> FirstFault(items, fault.value)
    ensures fault.None? ==> AllWellFormed(items) && Indexed(items, order, incomingByKey)
  {
    var seen: set<Key> := {};
    order := [];
    incomingByKey := map[];
    for i := 0 to |items|
      invariant AllWellFormed(items[..i])
      invariant seen == incomingByKey.Keys && Indexed(items[..i], order, incomingByKey)
    {
      var item := items[i];
      var field := ValidateDiffItem(item);
      if field != "" {
        return Some(field), order, incomingByKey;
      }
      var key := item.RowKey();
      PassedStep(items, i, order, incomingByKey);
      if key !in seen {
        seen := seen + {key};
        order := order + [key];
        incomingByKey := incomingByKey[key := item];
      }
    }
    assert items[..|items|] == items;
    return None, order, incomingByKey;
  }

  // The classification loop over first-seen keys.
  method Classify(ghost a: Account, ghost firsts: seq<Item>, order: seq<Key>, incomingByKey: map<Key, Item>, stored: map<Key, Ranks>)
    returns (report: Report)
    requires order == KeysOf(firsts)
    requires forall item <- firsts :: item.RowKey() in incomingByKey && incomingByKey[item.RowKey()] == item
    requires forall k :: k in stored <==> k in order && k in a.rows
    requires forall k <- stored :: stored[k] == a.rows[k].Ranks()
    ensures report == Report(Missing(a, firsts), Stale(a, firsts))
  {
    var missing: seq<Key> := [];
    var stale: seq<StaleEntry> := [];
    for i := 0 to |order|
      invariant missing == Missing(a, firsts[..i]) && stale == Stale(a, firsts[..i])
    {
      var key := order[i];
      assert firsts[i] in firsts && key == firsts[i].RowKey() && key in order;
      assert firsts[..i + 1][..i] == firsts[..i];
      var incoming := incomingByKey[key].Ranks();
      if key !in stored {
        missing := missing + [key];
      } else if Wins(incoming, stored[key]) {
        stale := stale + [StaleEntry(key, stored[key])];
      }
    }
    assert firsts[..|order|] == firsts;
    return Report(missing, stale);
  }

  /** The reply is the check of the user's account as it stands, or the reason there is none. */
  method HandleDiff(store: Store, user: Text, items: seq<Item>, fault: Option<nat>) returns (reply: DiffReply)
    ensures reply.NoItems? <==> items == []
    ensures reply.TooManyItems? <==> |items| > 500
    ensures reply.InvalidItem? ==> FirstFault(items, reply.field)
    ensures reply.InvalidItem? || reply.StorageUnavailable? || reply.Answer? ==> (reply.InvalidItem? <==> !AllWellFormed(items))
    ensures reply.StorageUnavailable? ==> FailsBefore(fault, |FirstSeen(items)| + 3)
    ensures reply.Answer? ==> !FailsBefore(fault, |FirstSeen(items)| + 3)
    ensures reply.Answer? ==> reply.report == Check(AccountOf(store.db, user), items)
    ensures reply.Answer? ==> Answers(AccountOf(store.db, user), items, reply.report)
  {
    if |items| == 0 {
      return NoItems;
    }
    if |items| > MAX_DIFF_ITEMS {
      return TooManyItems;
    }
    var invalid, order, incomingByKey := ValidateDiffItems(items);
    if invalid.Some? {
      return InvalidItem(invalid.value);
    }
    assert items[0] in items;
    FirstSeenNames(items, items[0].RowKey());
    var stored := store.StoredRanks(user, order, fault);
    if stored.Err? {
      return StorageUnavailable;
    }
    var report := Classify(AccountOf(store.db, user), FirstSeen(items), order, incomingByKey, stored.value);
    CheckAnswers(AccountOf(store.db, user), items);
    return Answer(report);
  }

  // A wire envelope that would answer the item: same key, same ranks, accepted by the push gate.
  ghost predicate PushableAs(item: Item, w: PushHandler.Wire) {
    && PushHandler.Acceptable(w)
    && w.id == item.id && w.part == item.part
    && Ranks(w.lastEditedAtMS, w.revision, w.sourceID) == item.Ranks()
  }

  /** The check accepts items no push can answer: an accepted item has a pushable envelope exactly
      when its edit time and its revision are positive. */
  lemma PushableIff(item: Item)
    requires WellFormed(item)
    ensures (exists w :: PushableAs(item, w)) <==> item.lastEditedAtMS > 0 && item.revision >= 1
  {
    if item.lastEditedAtMS > 0 && item.revision >= 1 {
      var w := PushHandler.Wire(item.id, item.part, [1], 1, item.lastEditedAtMS, item.revision, item.sourceID,
                                0, 0, [1], [1], None);
      assert PushableAs(item, w);
    }
  }
}
