/** The push endpoint: the batch gate, one transaction, one notification after commit. */
module PushHandler {
  import opened Conflict
  import opened Accounts
  import opened Tables
  import opened Results
  import opened Store
  import opened LiveRegistry
  import opened Paging

  const MAX_ID_BYTES := 128
  const MAX_PART_BYTES := 64
  const MAX_ENTITY_TYPE_BYTES := 128
  const MAX_SOURCE_ID_BYTES := 128
  const MAX_PAYLOAD_ENCODING_BYTES := 32

  // One envelope on the wire: payload still base64 text; server_seq is read and ignored.
  datatype Wire = Wire(
    id: Text, part: Text, entityType: Text, createdAtMS: int, lastEditedAtMS: int, revision: int,
    sourceID: Text, flags: int, schemaVersion: int, payloadEncoding: Text, payload: Text, serverSeq: Option<int>)

  type Decoder = Text -> Option<seq<byte>>

  datatype Converted = Valid(env: Envelope) | Invalid(field: string)

  datatype PushResult = PushResult(id: Text, part: Text, applied: bool)

  datatype PushReply =
    | NoEnvelopes
    | TooManyEnvelopes(limit: nat)
    | DuplicateKey
    | InvalidEnvelope(field: string)
    | StorageUnavailable
    | Accepted(results: seq<PushResult>)

  predicate Within(t: Text, max: nat) {
    t != [] && |t| <= max
  }

  predicate Acceptable(w: Wire) {
    && Within(w.id, MAX_ID_BYTES) && Within(w.part, MAX_PART_BYTES) && Within(w.entityType, MAX_ENTITY_TYPE_BYTES)
    && Within(w.sourceID, MAX_SOURCE_ID_BYTES) && Within(w.payloadEncoding, MAX_PAYLOAD_ENCODING_BYTES)
    && w.createdAtMS > 0 && w.lastEditedAtMS > 0 && w.revision >= 1 && w.payload != []
  }

  predicate AtFault(w: Wire, field: string) {
    || (field == "id" && !Within(w.id, MAX_ID_BYTES))
    || (field == "part" && !Within(w.part, MAX_PART_BYTES))
    || (field == "entity_type" && !Within(w.entityType, MAX_ENTITY_TYPE_BYTES))
    || (field == "source_id" && !Within(w.sourceID, MAX_SOURCE_ID_BYTES))
    || (field == "payload_encoding" && !Within(w.payloadEncoding, MAX_PAYLOAD_ENCODING_BYTES))
    || (field == "created_at_ms" && w.createdAtMS <= 0)
    || (field == "last_edited_at_ms" && w.lastEditedAtMS <= 0)
    || (field == "revision" && w.revision < 1)
    || (field == "payload" && w.payload == [])
  }

  // The order in which fields are looked at.
  const WIRE_FIELDS: seq<string> := ["id", "part", "entity_type", "source_id", "payload_encoding",
                                     "created_at_ms", "last_edited_at_ms", "revision", "payload"]

  // The first invalid field, or the empty name.
  function ValidateWireEnvelope(w: Wire): (field: string)
    ensures field == "" <==> Acceptable(w)
    ensures field == "" <==>
              && 1 <= |w.id| <= 128 && 1 <= |w.part| <= 64 && 1 <= |w.entityType| <= 128
              && 1 <= |w.sourceID| <= 128 && 1 <= |w.payloadEncoding| <= 32
              && w.createdAtMS > 0 && w.lastEditedAtMS > 0 && w.revision > 0 && |w.payload| > 0
    ensures field != "" ==> AtFault(w, field)
  {
    if !Within(w.id, MAX_ID_BYTES) then "id"
    else if !Within(w.part, MAX_PART_BYTES) then "part"
    else if !Within(w.entityType, MAX_ENTITY_TYPE_BYTES) then "entity_type"
    else if !Within(w.sourceID, MAX_SOURCE_ID_BYTES) then "source_id"
    else if !Within(w.payloadEncoding, MAX_PAYLOAD_ENCODING_BYTES) then "payload_encoding"
    else if w.createdAtMS <= 0 then "created_at_ms"
    else if w.lastEditedAtMS <= 0 then "last_edited_at_ms"
    else if w.revision < 1 then "revision"
    else if w.payload == [] then "payload"
    else ""
  }

  lemma NamedFaultIsFirst(w: Wire, n: nat)
    requires n < |WIRE_FIELDS| && ValidateWireEnvelope(w) == WIRE_FIELDS[n]
    ensures AtFault(w, WIRE_FIELDS[n]) && forall m | 0 <= m < n :: !AtFault(w, WIRE_FIELDS[m])
  {
  }

  // A field is named exactly when it is at fault and none looked at before it is.
  lemma WireFaultIsFirst(w: Wire, n: nat)
    requires n < |WIRE_FIELDS|
    ensures ValidateWireEnvelope(w) == WIRE_FIELDS[n] <==>
              AtFault(w, WIRE_FIELDS[n]) && forall m | 0 <= m < n :: !AtFault(w, WIRE_FIELDS[m])
  {
    if ValidateWireEnvelope(w) == WIRE_FIELDS[n] {
      NamedFaultIsFirst(w, n);
    } else if AtFault(w, WIRE_FIELDS[n]) {
      assert ValidateWireEnvelope(w) in WIRE_FIELDS;
      var p :| 0 <= p < |WIRE_FIELDS| && WIRE_FIELDS[p] == ValidateWireEnvelope(w);
      NamedFaultIsFirst(w, p);
    }
  }

  function WireToEnvelope(w: Wire, decode: Decoder): (c: Converted)
    ensures c.Valid? <==> Acceptable(w) && decode(w.payload).Some?
    ensures c.Valid? ==> c.env.RowKey() == Key(w.id, w.part)
                         && c.env.Ranks() == Ranks(w.lastEditedAtMS, w.revision, w.sourceID)
    ensures c.Valid? ==> && c.env.entityType == w.entityType && c.env.createdAtMS == w.createdAtMS
                         && c.env.flags == w.flags && c.env.schemaVersion == w.schemaVersion
                         && c.env.payloadEncoding == w.payloadEncoding && Some(c.env.payload) == decode(w.payload)
                         && c.env.serverSeq == 0
    ensures c.Invalid? ==> c.field == if Acceptable(w) then "payload" else ValidateWireEnvelope(w)
  {
    var field := ValidateWireEnvelope(w);
    if field != "" then Invalid(field)
    else
      match decode(w.payload)
      case None => Invalid("payload")
      case Some(payload) =>
        Valid(Envelope(w.id, w.part, w.entityType, w.sourceID, w.payloadEncoding, w.createdAtMS,
                       w.lastEditedAtMS, w.revision, w.flags, w.schemaVersion, payload, 0))
  }

  // The duplicate check's key: id and part joined by a NUL byte.
  function Composite(id: Text, part: Text): Text {
    id + [0] + part
  }

  predicate Repeats(req: seq<Wire>, i: nat)
    requires i < |req|
  {
    exists j | 0 <= j < i :: Composite(req[j].id, req[j].part) == Composite(req[i].id, req[i].part)
  }

  // The first n wires pass: no repeat, valid fields, decodable payload.
  ghost predicate Clean(req: seq<Wire>, n: nat, decode: Decoder)
    requires n <= |req|
  {
    forall i | 0 <= i < n :: !Repeats(req, i) && WireToEnvelope(req[i], decode).Valid?
  }

  // What the gate hands to the store.
  ghost predicate Carries(req: seq<Wire>, decode: Decoder, es: seq<Envelope>) {
    |es| <= |req| && forall i | 0 <= i < |es| :: WireToEnvelope(req[i], decode) == Valid(es[i])
  }

  // A join splits at its first NUL, so NUL-free ids cannot collide.
  lemma {:induction false} CompositeSplits(i: Text, p: Text, j: Text, q: Text)
    requires Composite(i, p) == Composite(j, q) && |i| <= |j|
    ensures if |i| == |j| then i == j && p == q
            else j == i + [0] + j[|i| + 1..] && p == j[|i| + 1..] + [0] + q
  {
    var c, d := Composite(i, p), Composite(j, q);
    assert c[..|i|] == i && d[..|i|] == j[..|i|];
    assert c[|i| + 1..] == p;
    if |i| == |j| {
      assert d[|j| + 1..] == q && d[..|j|] == j;
    } else {
      assert j[|i|] == d[|i|] == c[|i|] == 0;
      assert j == j[..|i|] + [0] + j[|i| + 1..];
      assert d[|i| + 1..] == j[|i| + 1..] + [0] + q;
    }
  }

  /** Two different keys are taken for duplicates exactly when one id continues the other with a
      NUL and the parts absorb the difference; ids without NUL bytes never are. */
  lemma FalseDuplicateIff(k: Key, l: Key)
    requires |k.id| <= |l.id|
    ensures Composite(k.id, k.part) == Composite(l.id, l.part) && k != l <==>
              |k.id| < |l.id| && l.id[..|k.id|] == k.id && l.id[|k.id|] == 0
              && k.part == l.id[|k.id| + 1..] + [0] + l.part
    ensures 0 !in l.id ==> (Composite(k.id, k.part) == Composite(l.id, l.part) <==> k == l)
  {
    if Composite(k.id, k.part) == Composite(l.id, l.part) {
      CompositeSplits(k.id, k.part, l.id, l.part);
    }
    if |k.id| < |l.id| && l.id[..|k.id|] == k.id && l.id[|k.id|] == 0
       && k.part == l.id[|k.id| + 1..] + [0] + l.part {
      assert l.id == k.id + [0] + l.id[|k.id| + 1..];
      assert Composite(l.id, l.part) == k.id + [0] + (l.id[|k.id| + 1..] + [0] + l.part);
    }
  }

  // A clean batch has pairwise distinct keys.
  lemma CleanKeysDistinct(req: seq<Wire>, decode: Decoder, es: seq<Envelope>)
    requires |es| == |req| && Clean(req, |req|, decode) && Carries(req, decode, es)
    ensures DistinctKeys(es)
  {
    forall i, j | 0 <= i < j < |es| ensures es[i].RowKey() != es[j].RowKey() {
      assert !Repeats(req, j);
      assert WireToEnvelope(req[i], decode) == Valid(es[i]) && WireToEnvelope(req[j], decode) == Valid(es[j]);
    }
  }

  // Each result names its envelope and whether the store before the batch let it win.
  ghost predicate Answers(a: Account, es: seq<Envelope>, results: seq<PushResult>) {
    && |results| == |es|
    && forall i | 0 <= i < |es| :: results[i] == PushResult(es[i].id, es[i].part, Applies(a, es[i]))
  }

  ghost predicate Rejected(req: seq<Wire>, decode: Decoder, reply: PushReply) {
    exists i | 0 <= i < |req| ::
      && Clean(req, i, decode)
      && if Repeats(req, i) then reply == DuplicateKey
         else WireToEnvelope(req[i], decode).Invalid?
              && reply == InvalidEnvelope(WireToEnvelope(req[i], decode).field)
  }

  // Two envelopes the endpoint accepts one by one, with different keys, are refused together exactly
  // when their joined keys collide, and then as duplicates and nothing else.
  lemma PairRefusedIff(w: Wire, v: Wire, decode: Decoder, reply: PushReply)
    requires WireToEnvelope(w, decode).Valid? && WireToEnvelope(v, decode).Valid?
    ensures Clean([w, v], 2, decode) <==> Composite(w.id, w.part) != Composite(v.id, v.part)
    ensures Rejected([w, v], decode, reply) <==>
              reply == DuplicateKey && Composite(w.id, w.part) == Composite(v.id, v.part)
  {
    var req := [w, v];
    assert req[0] == w && req[1] == v;
    assert !Repeats(req, 0);
    assert Repeats(req, 1) <==> Composite(req[0].id, req[0].part) == Composite(req[1].id, req[1].part);
    assert Clean(req, 1, decode);
  }

  /** Such a pair can be sent: for any three short texts a, b and c, the keys (a, b NUL c) and
      (a NUL b, c) differ, both envelopes are acceptable, and the batch is refused as a duplicate. */
  lemma FalseDuplicateHappens(w: Wire, v: Wire, decode: Decoder, a: Text, b: Text, c: Text)
    requires WireToEnvelope(w.(id := [1], part := [1]), decode).Valid?
    requires WireToEnvelope(v.(id := [1], part := [1]), decode).Valid?
    requires a != [] && c != [] && |a| + |b| + 1 <= MAX_ID_BYTES && |b| + |c| + 1 <= MAX_PART_BYTES
    ensures var x, y := w.(id := a, part := b + [0] + c), v.(id := a + [0] + b, part := c);
            && WireToEnvelope(x, decode).Valid? && WireToEnvelope(y, decode).Valid?
            && Key(x.id, x.part) != Key(y.id, y.part)
            && Rejected([x, y], decode, DuplicateKey) && !Clean([x, y], 2, decode)
  {
    var x, y := w.(id := a, part := b + [0] + c), v.(id := a + [0] + b, part := c);
    assert Composite(x.id, x.part) == Composite(y.id, y.part);
    assert |x.id| != |y.id|;
    PairRefusedIff(x, y, decode, DuplicateKey);
  }

  // Validation and the duplicate check, before the store is touched.
  method Gate(req: seq<Wire>, decode: Decoder) returns (refusal: Option<PushReply>, stored: seq<Envelope>)
    ensures refusal.Some? ==> Rejected(req, decode, refusal.value)
    ensures refusal.None? <==> Clean(req, |req|, decode)
    ensures refusal.None? ==> Carries(req, decode, stored) && |stored| == |req|
  {
    stored := [];
    var seen: set<Text> := {};
    for i := 0 to |req|
      invariant Clean(req, i, decode) && |stored| == i && Carries(req, decode, stored)
      invariant seen == set j | 0 <= j < i :: Composite(req[j].id, req[j].part)
    {
      var key := Composite(req[i].id, req[i].part);
      if key in seen {
        return Some(DuplicateKey), stored;
      }
      seen := seen + {key};
      var c := WireToEnvelope(req[i], decode);
      if c.Invalid? {
        return Some(InvalidEnvelope(c.field)), stored;
      }
      stored := stored + [c.env];
    }
    return None, stored;
  }

  method NameResults(stored: seq<Envelope>, applied: seq<bool>) returns (results: seq<PushResult>, anyApplied: bool)
    requires |applied| == |stored|
    ensures |results| == |stored|
    ensures forall i | 0 <= i < |stored| :: results[i] == PushResult(stored[i].id, stored[i].part, applied[i])
    ensures anyApplied <==> true in applied
  {
    results, anyApplied := [], false;
    for i := 0 to |stored|
      invariant |results| == i
      invariant forall j | 0 <= j < i :: results[j] == PushResult(stored[j].id, stored[j].part, applied[j])
      invariant anyApplied <==> true in applied[..i]
    {
      if applied[i] {
        anyApplied := true;
      }
      results := results + [PushResult(stored[i].id, stored[i].part, applied[i])];
      assert applied[..i + 1] == applied[..i] + [applied[i]];
    }
    assert applied[..|stored|] == applied;
  }

  // Something in the batch would be applied: the one reason to wake anybody.
  predicate Applied(reply: PushReply) {
    reply.Accepted? && exists r <- reply.results :: r.applied
  }

  /** A refused or failed push changes nothing and wakes nobody. An accepted one writes the whole
      batch, answers each envelope from the store before the batch, and wakes this user's waiters
      exactly when something was applied. */
  method HandlePush(store: Store, registry: Registry, user: Text, req: seq<Wire>, maxEnvelopes: nat,
                    decode: Decoder, fault: Option<nat>)
    returns (reply: PushReply, ghost es: seq<Envelope>)
    requires registry.Valid()
    modifies store, registry.Bucket(user)
    ensures reply.NoEnvelopes? <==> req == []
    ensures reply.TooManyEnvelopes? <==> |req| > maxEnvelopes && req != []
    ensures reply.TooManyEnvelopes? ==> reply.limit == maxEnvelopes
    ensures reply.DuplicateKey? || reply.InvalidEnvelope? ==> Rejected(req, decode, reply)
    ensures reply.StorageUnavailable? ==> Clean(req, |req|, decode) && FailsBefore(fault, 2 * |req| + 2)
    ensures reply.Accepted? ==> Clean(req, |req|, decode) && Carries(req, decode, es) && |es| == |req|
    ensures reply.Accepted? ==> Answers(old(AccountOf(store.db, user)), es, reply.results)
    ensures reply.Accepted? ==> |reply.results| == |req| && forall i | 0 <= i < |req| ::
              reply.results[i].id == req[i].id && reply.results[i].part == req[i].part
    ensures reply.Accepted? ==> AccountOf(store.db, user) == WriteAll(old(AccountOf(store.db, user)), es)
    ensures !reply.Accepted? ==> store.db == old(store.db)
    ensures OthersSame(old(store.db), store.db, user)
    ensures Applied(reply) ==> forall w <- registry.Bucket(user) :: w.buffered == 1
    ensures !Applied(reply) ==> forall w <- registry.Bucket(user) :: w.buffered == old(w.buffered)
  {
    es := [];
    if |req| == 0 {
      return NoEnvelopes, es;
    }
    if |req| > maxEnvelopes {
      return TooManyEnvelopes(maxEnvelopes), es;
    }
    var refusal, stored := Gate(req, decode);
    if refusal.Some? {
      return refusal.value, es;
    }
    es := stored;
    CleanKeysDistinct(req, decode, es);
    FlagsAreSimultaneous(AccountOf(store.db, user), es);
    var applied := store.UpsertMany(user, stored, fault);
    if applied.Err? {
      return StorageUnavailable, es;
    }
    var results, anyApplied := NameResults(stored, applied.value);
    reply := Accepted(results);
    forall i | 0 <= i < |req| ensures results[i].id == req[i].id && results[i].part == req[i].part {
      assert WireToEnvelope(req[i], decode) == Valid(es[i]);
    }
    AppliedIff(reply, applied.value);
    if anyApplied {
      registry.Notify(user);
    }
  }

  lemma AppliedIff(reply: PushReply, applied: seq<bool>)
    requires reply.Accepted? && |reply.results| == |applied|
    requires forall i | 0 <= i < |applied| :: reply.results[i].applied == applied[i]
    ensures Applied(reply) <==> true in applied
  {
    if true in applied {
      var i :| 0 <= i < |applied| && applied[i];
      assert reply.results[i] in reply.results;
    }
  }

  lemma FlagsAreSimultaneous(a: Account, es: seq<Envelope>)
    requires DistinctKeys(es)
    ensures |Flags(a, es)| == |es|
    ensures forall i | 0 <= i < |es| :: Flags(a, es)[i] == Applies(a, es[i])
  {
    FlagsLength(a, es);
    forall i | 0 <= i < |es| ensures Flags(a, es)[i] == Applies(a, es[i]) {
      BatchIsSimultaneous(a, es, i);
    }
  }

  // One row on the pull wire: payload decoded, server_seq always present.
  datatype PullEnvelope = PullEnvelope(
    id: Text, part: Text, entityType: Text, createdAtMS: int, lastEditedAtMS: int, revision: int, sourceID: Text,
    flags: int, schemaVersion: int, payloadEncoding: Text, payload: seq<byte>, serverSeq: int)

  function ToPullEnvelope(env: Envelope): PullEnvelope {
    PullEnvelope(env.id, env.part, env.entityType, env.createdAtMS, env.lastEditedAtMS, env.revision, env.sourceID,
                 env.flags, env.schemaVersion, env.payloadEncoding, env.payload, env.serverSeq)
  }

  // What is pulled is what was pushed, numbered, and created when the key first arrived.
  ghost predicate SameAsPushed(before: Account, w: Wire, decode: Decoder, number: int, out: PullEnvelope) {
    var k := Key(w.id, w.part);
    && out.id == w.id && out.part == w.part && out.entityType == w.entityType
    && out.lastEditedAtMS == w.lastEditedAtMS && out.revision == w.revision && out.sourceID == w.sourceID
    && out.flags == w.flags && out.schemaVersion == w.schemaVersion && out.payloadEncoding == w.payloadEncoding
    && Some(out.payload) == decode(w.payload) && out.serverSeq == number
    && out.createdAtMS == if k in before.rows then before.rows[k].createdAtMS else w.createdAtMS
  }

  lemma StoredAsPushed(before: Account, req: seq<Wire>, decode: Decoder, es: seq<Envelope>, i: nat)
    requires Clean(req, |req|, decode) && Carries(req, decode, es) && |es| == |req|
    requires i < |req| && Applies(before, es[i])
    ensures var after, k := WriteAll(before, es), Key(req[i].id, req[i].part);
            && k in after.rows && SameAsPushed(before, req[i], decode, before.nextSeq + i + 1, ToPullEnvelope(after.rows[k]))
  {
    CleanKeysDistinct(req, decode, es);
    BatchIsSimultaneous(before, es, i);
    assert WireToEnvelope(req[i], decode) == Valid(es[i]);
  }

  lemma PageReaches(a: Account, since: int, limit: nat, page: seq<Envelope>, k: Key)
    requires Sound(a) && IsPage(a, since, limit, page) && k in a.rows && since < a.rows[k].serverSeq
    ensures a.rows[k] in page || (|page| == limit && NextCursor(since, page) < a.rows[k].serverSeq)
  {
    PageAscends(a, since, limit, page);
  }

  lemma BatchPulledAsPushed(before: Account, req: seq<Wire>, decode: Decoder, es: seq<Envelope>, i: nat,
                            since: int, limit: nat, page: seq<Envelope>)
    requires Sound(before) && Clean(req, |req|, decode) && Carries(req, decode, es) && |es| == |req|
    requires i < |req| && Applies(before, es[i]) && since < before.nextSeq + i + 1
    requires IsPage(WriteAll(before, es), since, limit, page)
    ensures var after, k := WriteAll(before, es), Key(req[i].id, req[i].part);
            && k in after.rows && SameAsPushed(before, req[i], decode, before.nextSeq + i + 1, ToPullEnvelope(after.rows[k]))
            && (after.rows[k] in page || (|page| == limit && NextCursor(since, page) < before.nextSeq + i + 1))
  {
    StoredAsPushed(before, req, decode, es, i);
    WriteAllGrows(before, es);
    PageReaches(WriteAll(before, es), since, limit, page, Key(req[i].id, req[i].part));
  }

  /** Through both tables and back: the i-th envelope of an accepted batch, when it applies, is
      afterwards stored as it was pushed, field by field, with the number next_seq+i+1 and the creation
      time of the key's first arrival; and a page read from below that number lists it, or is a full
      page whose cursor is still below it. */
  lemma PulledAsPushed(db: Database, user: Text, req: seq<Wire>, decode: Decoder, es: seq<Envelope>, i: nat,
                       before: Account, after: Account, since: int, limit: nat, page: seq<Envelope>)
    requires before == AccountOf(db, user) && after == AccountOf(UpsertAll(db, user, es).0, user)
    requires Sound(before) && Clean(req, |req|, decode) && Carries(req, decode, es) && |es| == |req|
    requires i < |req| && Applies(before, es[i]) && since < before.nextSeq + i + 1
    requires IsPage(after, since, limit, page)
    ensures var k := Key(req[i].id, req[i].part);
            && k in after.rows && SameAsPushed(before, req[i], decode, before.nextSeq + i + 1, ToPullEnvelope(after.rows[k]))
            && (after.rows[k] in page || (|page| == limit && NextCursor(since, page) < before.nextSeq + i + 1))
  {
    assert after == WriteAll(before, es) by {
      CommitRefines(db, user, es);
    }
    BatchPulledAsPushed(before, req, decode, es, i, since, limit, page);
  }
}
