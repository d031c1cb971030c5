/** Two messages of one tenant followed through the store: one that can be read back, and one that is stored and can
    never be read again. Every contract of the store is used at concrete inputs here. */
module PoisonMessages {
  import opened Common
  import opened Secrets
  import opened DeliveryData
  import opened OutboxContent
  import opened OutboxRows
  import opened OutboxRuns
  import opened OutboxEnqueue
  import opened OutboxStore

  const TO := Obj([Entry("channel", Str("email")), Entry("target", Str("a"))])
  const DATA := Obj([Entry("type", Str(SEALED))])
  const POSING_BODY := Obj([Entry("to", TO), Entry("templateId", Str("t")), Entry("data", DATA)])
  const GOOD_BODY := Obj([Entry("to", TO), Entry("templateId", Str("t"))])

  /** An object built field by field. */
  lemma Step(entry: Entry, rest: seq<Entry>, key: string, allowed: set<string>)
    ensures Lookup([entry] + rest, key) == if entry.key == key then entry.value else Lookup(rest, key)
    ensures OnlyKeys([entry] + rest, allowed) <==> entry.key in allowed && OnlyKeys(rest, allowed)
  {
  }

  lemma StepCosts(entry: Entry, rest: seq<Entry>, depth: nat)
    ensures EntriesPersistable([entry] + rest, depth)
            <==> SafeText(entry.key, 512, true) && Persistable(entry.value, depth) && EntriesPersistable(rest, depth)
    ensures NodesOfEntries([entry] + rest) == Nodes(entry.value) + NodesOfEntries(rest)
    ensures CharsOfEntries([entry] + rest) == |entry.key| + Chars(entry.value) + CharsOfEntries(rest)
  {
  }

  lemma AddressAccepted()
    ensures IsAddress(TO) && Persistable(TO, 1) && Nodes(TO) == 3 && Chars(TO) == 19
  {
    var channel, target := Entry("channel", Str("email")), Entry("target", Str("a"));
    assert TO.entries == [channel] + ([target] + []);
    assert |"channel"| == 7 && |"target"| == 6 && |"display"| == 7 && "channel"[0] != "display"[0];
    StepCosts(target, [], 2);
    StepCosts(channel, [target] + [], 2);
    forall key
      ensures Lookup(TO.entries, key)
              == if key == "channel" then Str("email") else if key == "target" then Str("a") else Undefined
    {
      Step(target, [], key, ADDRESS_KEYS);
      Step(channel, [target] + [], key, ADDRESS_KEYS);
    }
  }

  lemma DataAccepted()
    ensures IsData(DATA, Store) && Poses(DATA.entries) && Persistable(DATA, 1) && Nodes(DATA) == 2 && Chars(DATA) == 17
  {
    assert DATA.entries == [Entry("type", Str(SEALED))] + [];
    Step(Entry("type", Str(SEALED)), [], "type", MESSAGE_KEYS);
    StepCosts(Entry("type", Str(SEALED)), [], 2);
    assert DATA.entries[1..] == [];
  }

  const TO_FIELD := Entry("to", TO)
  const TEMPLATE_FIELD := Entry("templateId", Str("t"))
  const DATA_FIELD := Entry("data", DATA)

  lemma BodyFields(key: string)
    ensures Lookup(POSING_BODY.entries, key)
            == if key == "to" then TO else if key == "templateId" then Str("t")
               else if key == "data" then DATA else Undefined
    ensures Lookup(GOOD_BODY.entries, key)
            == if key == "to" then TO else if key == "templateId" then Str("t") else Undefined
    ensures OnlyKeys(POSING_BODY.entries, MESSAGE_KEYS) && OnlyKeys(GOOD_BODY.entries, MESSAGE_KEYS)
  {
    assert POSING_BODY.entries == [TO_FIELD] + ([TEMPLATE_FIELD] + ([DATA_FIELD] + []));
    assert GOOD_BODY.entries == [TO_FIELD] + ([TEMPLATE_FIELD] + []);
    Step(DATA_FIELD, [], key, MESSAGE_KEYS);
    Step(TEMPLATE_FIELD, [], key, MESSAGE_KEYS);
    Step(TEMPLATE_FIELD, [DATA_FIELD] + [], key, MESSAGE_KEYS);
    Step(TO_FIELD, [TEMPLATE_FIELD] + [], key, MESSAGE_KEYS);
    Step(TO_FIELD, [TEMPLATE_FIELD] + ([DATA_FIELD] + []), key, MESSAGE_KEYS);
  }

  lemma BodiesAccepted()
    ensures IsDeliveryMessage(POSING_BODY, Store) && DataPoses(POSING_BODY)
    ensures IsDeliveryMessage(GOOD_BODY, Store) && !DataPoses(GOOD_BODY)
  {
    AddressAccepted();
    DataAccepted();
    assert |"to"| == 2 && |"templateId"| == 10 && |"data"| == 4 && |"locale"| == 6 && |"metadata"| == 8;
    BodyFields("to");
    BodyFields("templateId");
    BodyFields("data");
    BodyFields("locale");
    BodyFields("metadata");
  }

  lemma FieldsAreSafe()
    ensures SafeText(TO_FIELD.key, 512, true) && SafeText(TEMPLATE_FIELD.key, 512, true)
    ensures SafeText(DATA_FIELD.key, 512, true)
    ensures |TO_FIELD.key| + |TEMPLATE_FIELD.key| + |DATA_FIELD.key| + |"t"| == 17
  {
  }

  lemma GoodBodySerializes()
    ensures Serializes(GOOD_BODY)
  {
    AddressAccepted();
    FieldsAreSafe();
    assert GOOD_BODY.entries == [TO_FIELD] + ([TEMPLATE_FIELD] + []);
    StepCosts(TEMPLATE_FIELD, [], 1);
    StepCosts(TO_FIELD, [TEMPLATE_FIELD] + [], 1);
  }

  lemma PosingBodySerializes()
    ensures Serializes(POSING_BODY)
  {
    AddressAccepted();
    DataAccepted();
    FieldsAreSafe();
    assert POSING_BODY.entries == [TO_FIELD] + ([TEMPLATE_FIELD] + ([DATA_FIELD] + []));
    StepCosts(DATA_FIELD, [], 1);
    StepCosts(TEMPLATE_FIELD, [DATA_FIELD] + [], 1);
    StepCosts(TO_FIELD, [TEMPLATE_FIELD] + ([DATA_FIELD] + []), 1);
  }

  lemma DistinctStep(entry: Entry, rest: seq<Entry>)
    ensures EntriesDistinct([entry] + rest)
            <==> DistinctKeys(entry.value) && !HasKey(rest, entry.key) && EntriesDistinct(rest)
    ensures forall key :: HasKey([entry] + rest, key) <==> entry.key == key || HasKey(rest, key)
  {
  }

  lemma BodiesDistinct()
    ensures DistinctKeys(POSING_BODY) && DistinctKeys(GOOD_BODY)
  {
    assert |"to"| == 2 && |"templateId"| == 10 && |"data"| == 4 && |"channel"| == 7 && |"target"| == 6;
    assert GOOD_BODY.entries == [TO_FIELD] + ([TEMPLATE_FIELD] + []);
    assert POSING_BODY.entries == [TO_FIELD] + ([TEMPLATE_FIELD] + ([DATA_FIELD] + []));
    assert TO.entries == [Entry("channel", Str("email"))] + ([Entry("target", Str("a"))] + []);
    assert DATA.entries == [Entry("type", Str(SEALED))] + [];
    DistinctStep(Entry("target", Str("a")), []);
    DistinctStep(Entry("channel", Str("email")), [Entry("target", Str("a"))] + []);
    DistinctStep(Entry("type", Str(SEALED)), []);
    DistinctStep(DATA_FIELD, []);
    DistinctStep(TEMPLATE_FIELD, []);
    DistinctStep(TEMPLATE_FIELD, [DATA_FIELD] + []);
    DistinctStep(TO_FIELD, [TEMPLATE_FIELD] + []);
    DistinctStep(TO_FIELD, [TEMPLATE_FIELD] + ([DATA_FIELD] + []));
  }

  // ---- The messages in the store ----

  const TENANT := "t"
  const WORKER := "w"
  const LEASE := "l"
  const OTHER_LEASE := "m"

  function Sample(messageId: string, key: Option<string>, body: Value, characters: nat): Input {
    Input(TENANT, messageId, key,
          Content(DispatchContext(TENANT, None, None, Undefined), OutboxSecretPurpose(TENANT, messageId), DELIVERY, body,
                  false, 0),
          1, None, 0, 0, true, 16, characters)
  }

  function GoodSample(messageId: string, key: Option<string>): Input {
    Sample(messageId, key, GOOD_BODY, 56)
  }

  function PosingSample(messageId: string): Input {
    Sample(messageId, None, POSING_BODY, 88)
  }

  predicate IsFine(body: Value) {
    IsDeliveryMessage(body, Store) && Serializes(body) && DistinctKeys(body)
  }

  lemma BodiesAreFine()
    ensures IsFine(GOOD_BODY) && IsFine(POSING_BODY)
  {
    BodiesAccepted();
    GoodBodySerializes();
    PosingBodySerializes();
    BodiesDistinct();
  }

  predicate IsSample(input: Input) {
    && SafeText(input.messageId, 512, true) && OptionalText(input.idempotencyKey, 512)
    && (input == GoodSample(input.messageId, input.idempotencyKey) || input == PosingSample(input.messageId))
  }

  lemma SampleIsInsertable(input: Input)
    requires IsSample(input)
    ensures Insertable(input) && Serializable(input) && DistinctKeys(input.content.body)
  {
    PurposeIsSafe(TENANT, input.messageId);
    BodiesAreFine();
  }

  lemma SampleIsAcceptable(input: Input)
    requires IsSample(input)
    ensures Acceptable([input])
  {
    SampleIsInsertable(input);
    assert Payload([input][..0]) == 0;
  }

  lemma OnlyOnePoses()
    ensures DataPoses(POSING_BODY) && !DataPoses(GOOD_BODY)
  {
    BodiesAccepted();
  }

  method EnqueueSample(store: PostgresOutboxStore, input: Input) returns (r: Result<Row, StoreReason>)
    requires store.Valid() && IsSample(input)
    requires !KeyTaken(store.db.rows, input) && input.Id() !in store.db.rows
    modifies store
    ensures store.Valid() && store.db.issued == old(store.db.issued)
    ensures store.db.rows == old(store.db.rows)[input.Id() := input.Row(|old(store.db.bounds)|)]
    ensures if DataPoses(input.content.body) then r == Err(STORE_UNAVAILABLE) else r.Ok?
  {
    SampleIsInsertable(input);
    SampleIsAcceptable(input);
    r := store.Enqueue(input);
  }

  // ---- A message that is stored and never read again ----

  lemma OneStatement(db: Database, st: Statement)
    requires Enabled(db, st)
    ensures AllEnabled(db, [st]) && ExecuteAll(db, [st]) == Execute(db, st)
  {
    assert [st][1..] == [];
  }

  lemma NothingChosen(db: Database, now: int, limit: nat)
    ensures Enabled(db, ExpireDue(now, None, limit, {})) && Execute(db, ExpireDue(now, None, limit, {})) == db
    ensures Enabled(db, ReclaimAbandoned(now, None, limit, {}))
    ensures Execute(db, ReclaimAbandoned(now, None, limit, {})) == db
  {
    assert Execute(db, ExpireDue(now, None, limit, {})).rows == db.rows;
    assert Execute(db, ReclaimAbandoned(now, None, limit, {})).rows == db.rows;
  }

  /** A claim of these rows by a store nobody else uses. */
  function LoneClaim(leases: map<RowId, LeaseId>): Claim {
    Claim(0, 2, WORKER, 1, None, {}, {}, leases, [], [])
  }

  lemma NothingElseMoves(db: Database, leases: map<RowId, LeaseId>)
    requires Enabled(db, LoneClaim(leases).Claiming()) && forall id <- leases :: SafeText(leases[id], 512, true)
    ensures LoneClaim(leases).Possible(db) && LoneClaim(leases).Outcome(db) == Execute(db, LoneClaim(leases).Claiming())
  {
    var claim := LoneClaim(leases);
    NothingChosen(db, 0, 2);
    OneStatement(db, ExpireDue(0, None, 2, {}));
    OneStatement(db, ReclaimAbandoned(0, None, 2, {}));
    assert claim.Expiring() == [ExpireDue(0, None, 2, {})] && claim.Reclaiming() == [ReclaimAbandoned(0, None, 2, {})];
  }

  lemma LoneClaimIsValid(leases: map<RowId, LeaseId>)
    ensures LoneClaim(leases).IsValid()
  {
  }

  function Leases(a: RowId, b: RowId): map<RowId, LeaseId> {
    map[a := LEASE, b := OTHER_LEASE]
  }

  lemma BothClaimable(db: Database, a: RowId, b: RowId)
    requires a in db.rows && b in db.rows && a != b && db.issued == map[]
    requires Claimable(db.rows[a], 0) && Claimable(db.rows[b], 0)
    ensures Enabled(db, LoneClaim(Leases(a, b)).Claiming()) && Leases(a, b).Keys == {a, b}
    ensures forall id <- Leases(a, b) :: SafeText(Leases(a, b)[id], 512, true)
  {
    assert LEASE[0] != OTHER_LEASE[0] && Leases(a, b).Keys == {a, b};
    assert |Leases(a, b)| == |Leases(a, b).Keys| == 2;
  }

  lemma ClaimedBy(db: Database, leases: map<RowId, LeaseId>, id: RowId)
    requires Enabled(db, LoneClaim(leases).Claiming()) && id in leases
    ensures var rows := Execute(db, LoneClaim(leases).Claiming()).rows;
            rows.Keys == db.rows.Keys && id in rows && rows[id].status.Claimed? && rows[id].content == db.rows[id].content
  {
  }

  lemma BothClaimed(db: Database, a: RowId, b: RowId)
    requires Enabled(db, LoneClaim(Leases(a, b)).Claiming()) && Leases(a, b).Keys == {a, b}
    requires b in db.rows && DataPoses(db.rows[b].content.body)
    ensures var rows := Execute(db, LoneClaim(Leases(a, b)).Claiming()).rows;
            && a in rows && b in rows && rows[a].status.Claimed? && rows[b].status.Claimed?
            && rows.Keys == db.rows.Keys && SomeClaimedPoses(rows, Leases(a, b).Keys)
  {
    assert a in Leases(a, b).Keys && b in Leases(a, b).Keys;
    ClaimedBy(db, Leases(a, b), a);
    ClaimedBy(db, Leases(a, b), b);
  }

  method ClaimBoth(store: PostgresOutboxStore, a: RowId, b: RowId) returns (r: Result<map<RowId, Row>, StoreReason>)
    requires store.Valid() && a in store.db.rows && b in store.db.rows && a != b && store.db.issued == map[]
    requires Claimable(store.db.rows[a], 0) && Claimable(store.db.rows[b], 0)
    requires DataPoses(store.db.rows[b].content.body)
    modifies store
    ensures store.Valid() && r == Err(STORE_UNAVAILABLE) && store.db.rows.Keys == old(store.db.rows).Keys
    ensures store.db.rows[a].status.Claimed? && store.db.rows[b].status.Claimed?
  {
    BothClaimable(store.db, a, b);
    BothClaimed(store.db, a, b);
    NothingElseMoves(store.db, Leases(a, b));
    LoneClaimIsValid(Leases(a, b));
    r := store.ClaimBatch(LoneClaim(Leases(a, b)));
  }

  method StoreBoth(times: Times, messageId: string, poisonId: string)
    returns (store: PostgresOutboxStore, answered: Result<Row, StoreReason>, enqueued: Result<Row, StoreReason>)
    requires Exact(times) && SafeText(messageId, 512, true) && SafeText(poisonId, 512, true) && messageId != poisonId
    ensures answered.Ok? && enqueued == Err(STORE_UNAVAILABLE)
    ensures fresh(store) && store.Valid() && store.db.issued == map[]
    ensures var (good, poison) := (RowId(TENANT, messageId), RowId(TENANT, poisonId));
            && store.db.rows.Keys == {good, poison} && DataPoses(store.db.rows[poison].content.body)
            && Claimable(store.db.rows[good], 0) && Claimable(store.db.rows[poison], 0)
  {
    store := new PostgresOutboxStore(times);
    OnlyOnePoses();
    answered := EnqueueSample(store, GoodSample(messageId, None));
    enqueued := EnqueueSample(store, PosingSample(poisonId));
  }

  /** A message whose data has a field `type` saying 'sealed-secret' is stored although its enqueue reports an unavailable
      store. Claimed together with a good message, it loses the answer for both, and both stay leased. */
  method PoisonIsKeptAndLeased(times: Times, messageId: string, poisonId: string)
    returns (answered: Result<Row, StoreReason>, enqueued: Result<Row, StoreReason>,
             claimed: Result<map<RowId, Row>, StoreReason>, rows: map<RowId, Row>)
    requires Exact(times) && SafeText(messageId, 512, true) && SafeText(poisonId, 512, true) && messageId != poisonId
    ensures answered.Ok? && enqueued == Err(STORE_UNAVAILABLE) && claimed == Err(STORE_UNAVAILABLE)
    ensures rows.Keys == {RowId(TENANT, messageId), RowId(TENANT, poisonId)}
    ensures rows[RowId(TENANT, messageId)].status.Claimed? && rows[RowId(TENANT, poisonId)].status.Claimed?
  {
    var store;
    store, answered, enqueued := StoreBoth(times, messageId, poisonId);
    claimed := ClaimBoth(store, RowId(TENANT, messageId), RowId(TENANT, poisonId));
    rows := store.db.rows;
  }

  // ---- A batch that is stored and whose answer crosses ----

  lemma PayloadOfTwo(a: Input, b: Input)
    ensures Payload([a, b])
            == a.contextCharacters + a.messageCharacters + b.contextCharacters + b.messageCharacters
  {
    assert [a, b][..1] == [a] && [a][..0] == [] && Payload([]) == 0;
  }

  lemma SamplesAreAcceptable(a: Input, b: Input)
    requires IsSample(a) && IsSample(b) && a.messageId != b.messageId
    requires a.idempotencyKey.Some? ==> a.idempotencyKey != b.idempotencyKey
    ensures Acceptable([a, b])
  {
    SampleIsInsertable(a);
    SampleIsInsertable(b);
    PayloadOfTwo(a, b);
  }

  lemma ExchangedKeysCross(rows: map<RowId, Row>, a: Input, b: Input)
    requires HoldsKey(rows, a.Id(), b) && HoldsKey(rows, b.Id(), a) && a.maxAttempts == b.maxAttempts == 1
    ensures AllUpsertable(rows, [a, b]) && Crossing(rows, [a, b])
  {
    assert KeyTaken(rows, a) && KeyTaken(rows, b);
    assert Crosses(rows, [a, b], 0, 1);
  }

  method EnqueueCrossed(store: PostgresOutboxStore, a: Input, b: Input) returns (r: Result<seq<Row>, StoreReason>)
    requires store.Valid() && IsSample(a) && IsSample(b) && a.messageId != b.messageId
    requires HoldsKey(store.db.rows, a.Id(), b) && HoldsKey(store.db.rows, b.Id(), a)
    requires a.idempotencyKey != b.idempotencyKey
    modifies store
    ensures store.Valid() && r == Err(STORE_UNAVAILABLE)
  {
    ExchangedKeysCross(store.db.rows, a, b);
    SampleIsInsertable(a);
    SampleIsInsertable(b);
    SamplesAreAcceptable(a, b);
    r := store.EnqueueBatch([a, b]);
  }

  /** Two stored messages are enqueued again with their idempotency keys exchanged: each input then matches both rows, so
      the batch is reported as an unavailable store. */
  method CrossedEnqueue(times: Times, m: string, n: string, k: string, l: string)
    returns (first: Result<Row, StoreReason>, second: Result<Row, StoreReason>,
             crossed: Result<seq<Row>, StoreReason>)
    requires Exact(times) && m != n && k != l && SafeText(m, 512, true) && SafeText(n, 512, true)
    requires SafeText(k, 512, true) && SafeText(l, 512, true)
    ensures first.Ok? && second.Ok? && crossed == Err(STORE_UNAVAILABLE)
  {
    var store := new PostgresOutboxStore(times);
    OnlyOnePoses();
    first := EnqueueSample(store, GoodSample(m, Some(k)));
    second := EnqueueSample(store, GoodSample(n, Some(l)));
    crossed := EnqueueCrossed(store, GoodSample(m, Some(l)), GoodSample(n, Some(k)));
  }
}
