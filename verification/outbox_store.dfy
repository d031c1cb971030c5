/** The outbox store: each method runs its SQL statements on the table and reads the answer. */
module OutboxStore {
  import opened Common
  import opened OutboxRows
  import opened OutboxInvariants
  import opened OutboxRuns
  import opened OutboxEnqueue
  import opened OutboxMessages
  import opened Secrets
  import opened DeliveryData
  import opened OutboxContent

  datatype StoreReason = OUTBOX_ENQUEUE_FAILED | OUTBOX_LEASE_CONFLICT | STORE_UNAVAILABLE

  const MAX_BATCH := 1000
  const MAX_BATCH_PAYLOAD_CHARACTERS := 10_000_000
  const MAX_LEASE_SECONDS := 86400

  predicate NoNul(text: string) {
    forall i :: 0 <= i < |text| ==> text[i] != '\0'
  }

  /** The key the enqueue loop keeps in its sets. */
  function KeyText(tenantId: string, text: string): string {
    tenantId + "\0" + text
  }

  lemma KeyTextIsInjective(t1: string, k1: string, t2: string, k2: string)
    requires NoNul(t1) && NoNul(t2) && KeyText(t1, k1) == KeyText(t2, k2)
    ensures t1 == t2 && k1 == k2
  {
    var whole := KeyText(t1, k1);
    assert whole[|t1|] == '\0' && whole[|t2|] == '\0';
    forall i | 0 <= i < |t1|
      ensures whole[i] != '\0'
    {
      assert whole[i] == t1[i];
    }
    forall i | 0 <= i < |t2|
      ensures whole[i] != '\0'
    {
      assert whole[i] == t2[i];
    }
    assert t1 == whole[..|t1|] && k1 == whole[|t1| + 1..];
  }

  predicate Insertable(input: Input) {
    input.wellFormed && StoreAccepts(input.Id(), input.Row(0), true)
  }

  lemma InsertableHasNoNul(input: Input)
    requires Insertable(input)
    ensures NoNul(input.tenantId) && NoNul(input.messageId)
  {
    assert IsControl('\0');
  }

  predicate Serializable(input: Input) {
    SerializesContext(input.content.context) && Serializes(input.content.body)
  }

  predicate AllInsertable(inputs: seq<Input>) {
    forall i {:trigger Insertable(inputs[i])} :: 0 <= i < |inputs| ==> Insertable(inputs[i])
  }

  predicate AllSerializable(inputs: seq<Input>) {
    forall i :: 0 <= i < |inputs| ==> Serializable(inputs[i])
  }

  function Payload(inputs: seq<Input>): nat {
    if inputs == [] then 0
    else Payload(inputs[..|inputs| - 1])
         + inputs[|inputs| - 1].contextCharacters + inputs[|inputs| - 1].messageCharacters
  }

  lemma {:induction false} PayloadOfPrefix(inputs: seq<Input>, n: nat)
    requires n <= |inputs|
    ensures Payload(inputs[..n]) <= Payload(inputs)
  {
    if n < |inputs| {
      PayloadOfPrefix(inputs[..|inputs| - 1], n);
      assert inputs[..|inputs| - 1][..n] == inputs[..n];
    } else {
      assert inputs[..n] == inputs;
    }
  }

  /** The batches the store is willing to send to the database. */
  ghost predicate Acceptable(inputs: seq<Input>) {
    && |inputs| <= MAX_BATCH
    && AllInsertable(inputs)
    && AllSerializable(inputs)
    && NoRepeats(inputs)
    && Payload(inputs) <= MAX_BATCH_PAYLOAD_CHARACTERS
  }

  predicate IsLeaseSeconds(leaseSeconds: int) {
    0 < leaseSeconds <= MAX_LEASE_SECONDS
  }

  lemma CleanupLeaves(db: Database, statuses: set<Status>, before: int, tenantId: Option<string>, limit: nat,
                      chosen: set<RowId>)
    requires Enabled(db, CleanupTerminal(statuses, before, tenantId, limit, chosen))
    ensures |chosen| == |db.rows| - |db.rows - chosen| <= limit
    ensures forall id <- db.rows :: !db.rows[id].Terminal() ==> id in db.rows - chosen
  {
    assert chosen <= db.rows.Keys && (db.rows - chosen).Keys == db.rows.Keys - chosen;
  }

  function RowsRead(rows: map<RowId, Row>, ids: seq<RowId>, times: Times): (r: seq<Row>)
    requires forall i :: 0 <= i < |ids| ==> ids[i] in rows && FromRow(ids[i], rows[ids[i]], times).Some?
    ensures |r| == |ids| && forall i :: 0 <= i < |ids| ==> Some(r[i]) == FromRow(ids[i], rows[ids[i]], times)
  {
    seq(|ids|, i requires 0 <= i < |ids| => FromRow(ids[i], rows[ids[i]], times).value)
  }

  lemma SameAsClaim(db: Database, st: Statement, rows: map<RowId, Row>)
    requires st.ClaimCandidates? && Enabled(db, st) && rows.Keys == db.rows.Keys
    requires forall id <- db.rows ::
               rows[id] == if id in st.leases
                           then ClaimedRow(db.rows[id],
                                           Lease(st.leases[id], st.workerId, LeaseEnd(st.now, st.leaseSeconds)), st.now)
                           else db.rows[id]
    ensures rows == Execute(db, st).rows
  {
    var after := Execute(db, st).rows;
    assert after.Keys == rows.Keys;
    forall id <- rows
      ensures rows[id] == after[id]
    {
      assert id in db.rows;
    }
  }

  lemma ClaimedIsHeld(db: Database, st: Statement)
    requires st.ClaimCandidates? && Enabled(db, st)
    ensures
      var rows := Execute(db, st).rows;
      forall id <- st.leases :: Held(rows, id, st.workerId, st.leases[id], st.now) && !rows[id].ExpiredBy(st.now)
  {
  }

  /** A claim: its input, what the database chooses, and what other sessions commit between its three statements. */
  datatype Claim = Claim(now: int, limit: nat, workerId: string, leaseSeconds: int, tenantId: Option<string>,
                         expired: set<RowId>, abandoned: set<RowId>, leases: map<RowId, LeaseId>,
                         afterExpiring: seq<Statement>, afterReclaiming: seq<Statement>)
  {
    predicate IsValid() {
      && 0 < limit <= MAX_BATCH && SafeText(workerId, 512, true) && IsLeaseSeconds(leaseSeconds)
      && OptionalText(tenantId, 512)
    }

    function Expiring(): seq<Statement> {
      [ExpireDue(now, tenantId, limit, expired)] + afterExpiring
    }

    function Reclaiming(): seq<Statement> {
      [ReclaimAbandoned(now, tenantId, limit, abandoned)] + afterReclaiming
    }

    function Claiming(): Statement {
      ClaimCandidates(now, tenantId, limit, workerId, leaseSeconds, leases)
    }

    predicate Possible(db: Database) {
      && AllEnabled(db, Expiring())
      && AllEnabled(ExecuteAll(db, Expiring()), Reclaiming())
      && Enabled(ExecuteAll(ExecuteAll(db, Expiring()), Reclaiming()), Claiming())
      && AllChecked(afterExpiring) && AllChecked(afterReclaiming)
      && (forall id <- leases :: SafeText(leases[id], 512, true))
    }

    function Outcome(db: Database): Database
      requires Possible(db)
    {
      Execute(ExecuteAll(ExecuteAll(db, Expiring()), Reclaiming()), Claiming())
    }
  }

  lemma ClaimKeepsSound(db: Database, claim: Claim)
    requires Sound(db) && claim.IsValid() && claim.Possible(db)
    ensures Sound(claim.Outcome(db))
  {
    assert claim.Expiring()[1..] == claim.afterExpiring && claim.Reclaiming()[1..] == claim.afterReclaiming;
    StatementsKeepSound(db, claim.Expiring());
    var second := ExecuteAll(db, claim.Expiring());
    StatementsKeepSound(second, claim.Reclaiming());
    StatementKeepsSound(ExecuteAll(second, claim.Reclaiming()), claim.Claiming());
  }

  /** All claimed rows are read back, or one of them poses and the whole answer is lost. */
  predicate SomeUnread(rows: map<RowId, Row>, ids: set<RowId>, times: Times)
    requires ids <= rows.Keys
  {
    exists id <- ids :: LeasedFromRow(id, rows[id], times).None?
  }

  predicate SomeClaimedPoses(rows: map<RowId, Row>, ids: set<RowId>)
    requires ids <= rows.Keys
  {
    exists id <- ids :: DataPoses(rows[id].content.body)
  }

  lemma ClaimedAreRead(db: Database, ids: set<RowId>, times: Times)
    requires Exact(times) && Sound(db)
    requires forall id <- ids :: id in db.rows && db.rows[id].status.Claimed? && db.rows[id].lease.Some?
    ensures SomeUnread(db.rows, ids, times) <==> SomeClaimedPoses(db.rows, ids)
    ensures !SomeUnread(db.rows, ids, times) ==>
              forall id <- ids :: LeasedFromRow(id, db.rows[id], times) == Some(WithoutUndefined(db.rows[id]))
  {
    forall id <- ids
      ensures LeasedFromRow(id, db.rows[id], times)
              == if DataPoses(db.rows[id].content.body) then None else Some(WithoutUndefined(db.rows[id]))
    {
      ClaimedIsRead(db, id, times);
    }
  }

  lemma ClaimedIsRead(db: Database, id: RowId, times: Times)
    requires Exact(times) && Sound(db)
    requires id in db.rows && db.rows[id].status.Claimed? && db.rows[id].lease.Some?
    ensures LeasedFromRow(id, db.rows[id], times)
            == if DataPoses(db.rows[id].content.body) then None else Some(WithoutUndefined(db.rows[id]))
  {
    assert Stored(id, db.rows[id]);
    ReadExactly(id, db.rows[id], times);
  }

  predicate IsLeaseMutation(id: RowId, workerId: string, leaseId: LeaseId) {
    && SafeText(id.tenantId, 512, true) && SafeText(id.messageId, 512, true)
    && SafeText(workerId, 512, true) && SafeText(leaseId, 512, true)
  }

  predicate IsCleanup(statuses: set<Status>, tenantId: Option<string>, limit: nat) {
    && 0 < limit <= MAX_BATCH && statuses != {} && statuses <= {Dispatched, Dead} && OptionalText(tenantId, 512)
  }

  /** Whoever holds a row names it with safe texts, so that check never refuses a holder. */
  lemma HeldIsSafe(db: Database, id: RowId, workerId: string, leaseId: LeaseId, now: int)
    requires Sound(db)
    ensures Held(db.rows, id, workerId, leaseId, now) ==> IsLeaseMutation(id, workerId, leaseId)
  {
    if Held(db.rows, id, workerId, leaseId, now) {
      assert Stored(id, db.rows[id]);
    }
  }

  class PostgresOutboxStore {
    const times: Times
    var db: Database

    ghost predicate Valid()
      reads this
    {
      Exact(times) && Sound(db)
    }

    constructor (times: Times)
      requires Exact(times)
      ensures Valid() && db == EMPTY && this.times == times
    {
      this.times := times;
      db := EMPTY;
      new;
      EmptyIsSound();
    }

    /** Three statements in a row, each committed on its own: expire, reclaim, claim. One row that cannot be read loses
        the answer for all; every row leased with it stays leased. */
    method ClaimBatch(claim: Claim) returns (r: Result<map<RowId, Row>, StoreReason>)
      requires Valid() && (claim.IsValid() ==> claim.Possible(db))
      modifies this
      ensures Valid()
      ensures !claim.IsValid() ==> r == Err(OUTBOX_LEASE_CONFLICT) && db == old(db)
      ensures claim.IsValid() ==>
                && db == claim.Outcome(old(db)) && claim.leases.Keys <= db.rows.Keys
                && (forall id <- claim.leases ::
                      && Held(db.rows, id, claim.workerId, claim.leases[id], claim.now)
                      && !db.rows[id].ExpiredBy(claim.now))
                && if SomeClaimedPoses(db.rows, claim.leases.Keys) then r == Err(STORE_UNAVAILABLE)
                   else r.Ok? && r.value.Keys == claim.leases.Keys
                        && forall id <- claim.leases :: r.value[id] == WithoutUndefined(db.rows[id])
    {
      if !claim.IsValid() {
        return Err(OUTBOX_LEASE_CONFLICT);
      }
      ClaimKeepsSound(db, claim);
      ClaimStatements(claim);
      r := ReadClaimed(claim.leases.Keys);
    }

    method ReadClaimed(ids: set<RowId>) returns (r: Result<map<RowId, Row>, StoreReason>)
      requires Valid() && forall id <- ids :: id in db.rows && db.rows[id].status.Claimed? && db.rows[id].lease.Some?
      ensures SomeClaimedPoses(db.rows, ids) ==> r == Err(STORE_UNAVAILABLE)
      ensures !SomeClaimedPoses(db.rows, ids) ==>
                r.Ok? && r.value.Keys == ids && forall id <- ids :: r.value[id] == WithoutUndefined(db.rows[id])
    {
      ClaimedAreRead(db, ids, times);
      if SomeUnread(db.rows, ids, times) {
        return Err(STORE_UNAVAILABLE);
      }
      return Ok(map id <- ids :: LeasedFromRow(id, db.rows[id], times).value);
    }

    method ClaimStatements(claim: Claim)
      requires claim.Possible(db)
      modifies this
      ensures db == claim.Outcome(old(db)) && claim.leases.Keys <= db.rows.Keys
      ensures forall id <- claim.leases ::
                && Held(db.rows, id, claim.workerId, claim.leases[id], claim.now)
                && !db.rows[id].ExpiredBy(claim.now)
    {
      ExpireStatement(claim.now, claim.tenantId, claim.limit, claim.expired);
      assert claim.Expiring()[1..] == claim.afterExpiring;
      db := ExecuteAll(db, claim.afterExpiring);
      ReclaimStatement(claim.now, claim.tenantId, claim.limit, claim.abandoned);
      assert claim.Reclaiming()[1..] == claim.afterReclaiming;
      db := ExecuteAll(db, claim.afterReclaiming);
      ClaimedIsHeld(db, claim.Claiming());
      ClaimStatement(claim.now, claim.tenantId, claim.limit, claim.workerId, claim.leaseSeconds, claim.leases);
    }

    method ExpireStatement(now: int, tenantId: Option<string>, limit: nat, chosen: set<RowId>)
      requires Enabled(db, ExpireDue(now, tenantId, limit, chosen))
      modifies this
      ensures db == Execute(old(db), ExpireDue(now, tenantId, limit, chosen))
    {
      db := db.(rows := map id <- db.rows ::
                  if id in chosen then db.rows[id].(status := Dead, lease := None, updatedAt := now) else db.rows[id]);
    }

    method ReclaimStatement(now: int, tenantId: Option<string>, limit: nat, chosen: set<RowId>)
      requires Enabled(db, ReclaimAbandoned(now, tenantId, limit, chosen))
      modifies this
      ensures db == Execute(old(db), ReclaimAbandoned(now, tenantId, limit, chosen))
    {
      db := db.(rows := map id <- db.rows ::
                  var row := db.rows[id];
                  if id in chosen
                  then row.(attempts := row.attempts + 1,
                            status := if row.attempts + 1 >= row.maxAttempts then Dead else Failed,
                            lastFailureReason := Some(LEASE_CONFLICT), availableAt := now, lease := None,
                            updatedAt := now)
                  else row);
    }

    method ClaimStatement(now: int, tenantId: Option<string>, limit: nat, workerId: string, leaseSeconds: int,
                          leases: map<RowId, LeaseId>)
      requires Enabled(db, ClaimCandidates(now, tenantId, limit, workerId, leaseSeconds, leases))
      modifies this
      ensures db == Execute(old(db), ClaimCandidates(now, tenantId, limit, workerId, leaseSeconds, leases))
    {
      var until := now + leaseSeconds * 1000;
      var rows := map id <- db.rows ::
        if id in leases
        then db.rows[id].(status := Claimed, lease := Some(Lease(leases[id], workerId, until)), updatedAt := now)
        else db.rows[id];
      SameAsClaim(db, ClaimCandidates(now, tenantId, limit, workerId, leaseSeconds, leases), rows);
      db := db.(rows := rows, issued := db.issued + Grants(db, leases));
    }

    /** The table after one more statement. */
    method Commit(next: Database, ghost st: Statement)
      requires Valid() && Enabled(db, st) && Checked(st) && next == Execute(db, st)
      modifies this
      ensures Valid() && db == next
    {
      StatementKeepsSound(db, st);
      db := next;
    }

    method RenewLease(id: RowId, workerId: string, leaseId: LeaseId, now: int, leaseSeconds: int)
      returns (r: Result<Lease, StoreReason>)
      requires Valid()
      modifies this
      ensures Valid()
      ensures IsLeaseSeconds(leaseSeconds) ==>
                db == Execute(old(db), OutboxRows.RenewLease(id, workerId, leaseId, now, leaseSeconds))
      ensures if IsLeaseSeconds(leaseSeconds) && Held(old(db).rows, id, workerId, leaseId, now)
              then r == Ok(Lease(leaseId, workerId, LeaseEnd(now, leaseSeconds))) && Some(r.value) == db.rows[id].lease
              else r == Err(OUTBOX_LEASE_CONFLICT) && db == old(db)
    {
      HeldIsSafe(db, id, workerId, leaseId, now);
      if !IsLeaseMutation(id, workerId, leaseId) || !IsLeaseSeconds(leaseSeconds)
         || !Held(db.rows, id, workerId, leaseId, now) {
        return Err(OUTBOX_LEASE_CONFLICT);
      }
      var lease := Lease(leaseId, workerId, now + leaseSeconds * 1000);
      Commit(db.(rows := db.rows[id := db.rows[id].(lease := Some(lease), updatedAt := now)]),
             OutboxRows.RenewLease(id, workerId, leaseId, now, leaseSeconds));
      return Ok(lease);
    }

    method MarkDispatched(id: RowId, workerId: string, leaseId: LeaseId, now: int) returns (r: Result<(), StoreReason>)
      requires Valid()
      modifies this
      ensures Valid() && db == Execute(old(db), OutboxRows.MarkDispatched(id, workerId, leaseId, now))
      ensures r == if Held(old(db).rows, id, workerId, leaseId, now) then Ok(()) else Err(OUTBOX_LEASE_CONFLICT)
      ensures r.Ok? ==> db.rows[id].status == Dispatched
    {
      HeldIsSafe(db, id, workerId, leaseId, now);
      if !IsLeaseMutation(id, workerId, leaseId) || !Held(db.rows, id, workerId, leaseId, now) {
        return Err(OUTBOX_LEASE_CONFLICT);
      }
      var row := db.rows[id].(status := Dispatched, lastFailureReason := None, lease := None, updatedAt := now);
      Commit(db.(rows := db.rows[id := row]), OutboxRows.MarkDispatched(id, workerId, leaseId, now));
      return Ok(());
    }

    /** A reason that is not safe text is refused like a lost lease. */
    method MarkFailed(id: RowId, workerId: string, leaseId: LeaseId, now: int, terminal: bool, retryAt: Option<int>,
                      reason: string)
      returns (r: Result<(), StoreReason>)
      requires Valid()
      modifies this
      ensures Valid()
      ensures db == if SafeText(reason, 512, true)
                    then Execute(old(db), OutboxRows.MarkFailed(id, workerId, leaseId, now, terminal, retryAt, reason))
                    else old(db)
      ensures r == if SafeText(reason, 512, true) && Held(old(db).rows, id, workerId, leaseId, now) then Ok(())
                   else Err(OUTBOX_LEASE_CONFLICT)
      ensures r.Ok? ==> (db.rows[id].status == Dead || db.rows[id].status == Failed)
    {
      HeldIsSafe(db, id, workerId, leaseId, now);
      if !IsLeaseMutation(id, workerId, leaseId) || !SafeText(reason, 512, true)
         || !Held(db.rows, id, workerId, leaseId, now) {
        return Err(OUTBOX_LEASE_CONFLICT);
      }
      var attempts := db.rows[id].attempts + 1;
      var row := db.rows[id].(attempts := attempts,
                              status := if terminal || attempts >= db.rows[id].maxAttempts then Dead else Failed,
                              availableAt := if retryAt.Some? then retryAt.value else now,
                              lastFailureReason := Some(reason), lease := None, updatedAt := now);
      Commit(db.(rows := db.rows[id := row]),
             OutboxRows.MarkFailed(id, workerId, leaseId, now, terminal, retryAt, reason));
      return Ok(());
    }

    /** Deletes the chosen terminal rows and says how many. */
    method CleanupTerminal(statuses: set<Status>, before: int, tenantId: Option<string>, limit: nat, chosen: set<RowId>)
      returns (r: Result<nat, StoreReason>)
      requires Valid()
      requires IsCleanup(statuses, tenantId, limit) ==>
                 Enabled(db, OutboxRows.CleanupTerminal(statuses, before, tenantId, limit, chosen))
      modifies this
      ensures Valid()
      ensures !IsCleanup(statuses, tenantId, limit) ==> r == Err(OUTBOX_LEASE_CONFLICT) && db == old(db)
      ensures IsCleanup(statuses, tenantId, limit) ==>
                && db == Execute(old(db), OutboxRows.CleanupTerminal(statuses, before, tenantId, limit, chosen))
                && r.Ok? && r.value == |old(db).rows| - |db.rows| <= limit
      ensures forall id <- old(db).rows :: !old(db).rows[id].Terminal() ==> id in db.rows
    {
      if !IsCleanup(statuses, tenantId, limit) {
        return Err(OUTBOX_LEASE_CONFLICT);
      }
      CleanupLeaves(db, statuses, before, tenantId, limit, chosen);
      Commit(db.(rows := db.rows - chosen), OutboxRows.CleanupTerminal(statuses, before, tenantId, limit, chosen));
      return Ok(|chosen|);
    }

    /** The checks of the batch, in the order the inputs come. */
    method CheckBatch(inputs: seq<Input>) returns (ok: bool)
      ensures ok <==> Acceptable(inputs)
    {
      if |inputs| > MAX_BATCH || !AllInsertable(inputs) {
        return false;
      }
      var messageIds: set<string>, idempotencyKeys: set<string> := {}, {};
      var payloadCharacters := 0;
      for i := 0 to |inputs|
        invariant PassedChecks(inputs[..i], messageIds, idempotencyKeys, payloadCharacters)
      {
        var message := inputs[i];
        var messageKey := KeyText(message.tenantId, message.messageId);
        if messageKey in messageIds {
          RepeatedMessage(inputs, i);
          return false;
        }
        messageIds := messageIds + {messageKey};
        if message.idempotencyKey.Some? {
          var idempotencyKey := KeyText(message.tenantId, message.idempotencyKey.value);
          if idempotencyKey in idempotencyKeys {
            RepeatedKey(inputs, i);
            return false;
          }
          idempotencyKeys := idempotencyKeys + {idempotencyKey};
        }
        if !Serializable(message) {
          return false;
        }
        payloadCharacters := payloadCharacters + message.contextCharacters + message.messageCharacters;
        NextIsChecked(inputs, i);
        if payloadCharacters > MAX_BATCH_PAYLOAD_CHARACTERS {
          TooLarge(inputs, i + 1);
          return false;
        }
      }
      assert inputs[..|inputs|] == inputs;
      return true;
    }

    /** Runs the upsert. A taken message id fails the statement and leaves the table as it was. */
    method Upsert(inputs: seq<Input>) returns (ids: Option<seq<RowId>>)
      requires Inv(db) && UniqueKeys(db.rows)
      requires NoRepeats(inputs) && forall i :: 0 <= i < |inputs| ==> 0 < inputs[i].maxAttempts
      modifies this
      ensures Inv(db) && UniqueKeys(db.rows)
      ensures ids.None? ==> UpsertAll(old(db), inputs).None? && db == old(db)
      ensures ids.Some? ==> UpsertAll(old(db), inputs) == Some(Batch(db, ids.value))
    {
      var b := Batch(db, []);
      for i := 0 to |inputs|
        invariant UpsertAll(db, inputs[..i]) == Some(b) && UpsertFacts(db, inputs[..i], b)
        invariant db == old(db)
      {
        assert inputs[..i + 1][..i] == inputs[..i];
        PrefixDoesNotRepeat(inputs, i + 1);
        var next := UpsertNext(b, inputs[i]);
        if next.None? {
          FailureStays(db, inputs, i + 1);
          return None;
        }
        UpsertAllFacts(db, inputs[..i + 1]);
        b := next.value;
      }
      assert inputs[..|inputs|] == inputs;
      db := b.db;
      return Some(b.ids);
    }

    /** One row of the upsert, on the statement's own copy of the table. */
    method UpsertNext(b: Batch, input: Input) returns (next: Option<Batch>)
      requires UniqueKeys(b.db.rows)
      ensures next == UpsertOne(b, input)
    {
      if input.maxAttempts > MAX_INTEGER {
        return None;
      }
      if id :| id in b.db.rows && HoldsKey(b.db.rows, id, input) {
        assert KeyTaken(b.db.rows, input) && id == Holder(b.db.rows, input);
        return Some(Batch(b.db, b.ids + [id]));
      }
      if input.Id() in b.db.rows {
        return None;
      }
      return Some(Batch(b.db.(rows := b.db.rows[input.Id() := input.Row(|b.db.bounds|)],
                              bounds := b.db.bounds + [input.maxAttempts]), b.ids + [input.Id()]));
    }

    /** An ok answer holds, at each position, the row its input created or collided with. The batch is written and yet
        not answered when its answer crosses or when one of its rows cannot be read. */
    method EnqueueBatch(inputs: seq<Input>) returns (r: Result<seq<Row>, StoreReason>)
      requires Valid() && forall input <- inputs :: DistinctKeys(input.content.body)
      modifies this
      ensures Valid()
      ensures inputs == [] ==> r == Ok([]) && db == old(db)
      ensures inputs != [] && !(Acceptable(inputs) && AllUpsertable(old(db).rows, inputs)) ==>
                r == Err(OUTBOX_ENQUEUE_FAILED) && db == old(db)
      ensures inputs != [] && Acceptable(inputs) && AllUpsertable(old(db).rows, inputs) ==>
                && UpsertAll(old(db), inputs).Some?
                && var b := UpsertAll(old(db), inputs).value;
                && UpsertFacts(old(db), inputs, b) && db == b.db
                && if Crossing(old(db).rows, inputs) || SomePoses(old(db).rows, inputs) then r == Err(STORE_UNAVAILABLE)
                   else r.Ok? && |r.value| == |inputs|
                        && forall i :: 0 <= i < |inputs| ==> r.value[i] == WithoutUndefined(db.rows[b.ids[i]])
    {
      var acceptable := CheckBatch(inputs);
      if !acceptable {
        return Err(OUTBOX_ENQUEUE_FAILED);
      }
      if inputs == [] {
        return Ok([]);
      }
      AcceptableIsPlain(inputs);
      UpsertsExactly(db, inputs);
      var ids := Upsert(inputs);
      if ids.None? {
        return Err(OUTBOX_ENQUEUE_FAILED);
      }
      UpsertAllFacts(old(db), inputs);
      ghost var b := Batch(db, ids.value);
      UpsertKeepsStored(old(db), inputs, b);
      r := ReadUpserted(inputs, ids.value, old(db));
    }

    /** One message is a batch of one, which never crosses. */
    method Enqueue(input: Input) returns (r: Result<Row, StoreReason>)
      requires Valid() && DistinctKeys(input.content.body)
      modifies this
      ensures Valid()
      ensures if !(Acceptable([input]) && Upsertable(old(db).rows, input))
              then r == Err(OUTBOX_ENQUEUE_FAILED) && db == old(db)
              else
                && db.rows == RowsWith(old(db), input) && db.issued == old(db).issued
                && AnsweringId(old(db).rows, input) in db.rows
                && r == if DataPoses(ContentFound(old(db).rows, input).body) then Err(STORE_UNAVAILABLE)
                        else Ok(WithoutUndefined(db.rows[AnsweringId(old(db).rows, input)]))
    {
      UpsertOfOne(db, input);
      var batch := EnqueueBatch([input]);
      match batch
      case Ok(rows) => return Ok(rows[0]);
      case Err(error) => return Err(error);
    }

    /** The statement's rows, joined back to the inputs. */
    method ReadUpserted(inputs: seq<Input>, ids: seq<RowId>, ghost before: Database)
      returns (r: Result<seq<Row>, StoreReason>)
      requires Exact(times) && AllStored(db.rows) && UniqueKeys(before.rows) && NoRepeats(inputs)
      requires UpsertFacts(before, inputs, Batch(db, ids))
      ensures if Crossing(before.rows, inputs) || SomePoses(before.rows, inputs) then r == Err(STORE_UNAVAILABLE)
              else r.Ok? && |r.value| == |inputs|
                   && forall i :: 0 <= i < |inputs| ==> r.value[i] == WithoutUndefined(db.rows[ids[i]])
    {
      ghost var b := Batch(db, ids);
      ResolvedMatches(before, inputs, b);
      AnswerIsUsableExactly(before, inputs, b);
      var joined := Joined(db.rows, inputs, ids, 0);
      if |joined| != |inputs| {
        return Err(STORE_UNAVAILABLE);
      }
      UpsertedAreRead(before, inputs, b, times);
      if exists i :: 0 <= i < |joined| && FromRow(joined[i], db.rows[joined[i]], times).None? {
        return Err(STORE_UNAVAILABLE);
      }
      return Ok(RowsRead(db.rows, joined, times));
    }
  }

  ghost function AnsweringId(rows: map<RowId, Row>, input: Input): RowId {
    if KeyTaken(rows, input) then Holder(rows, input) else input.Id()
  }

  /** The table after one message was enqueued. */
  ghost function RowsWith(db: Database, input: Input): map<RowId, Row> {
    if KeyTaken(db.rows, input) then db.rows else db.rows[input.Id() := input.Row(|db.bounds|)]
  }

  lemma UpsertOfOne(db: Database, input: Input)
    ensures UpsertAll(db, [input]) == UpsertOne(Batch(db, []), input)
    ensures AllUpsertable(db.rows, [input]) <==> Upsertable(db.rows, input)
    ensures !Crossing(db.rows, [input])
    ensures SomePoses(db.rows, [input]) <==> DataPoses(ContentFound(db.rows, input).body)
  {
    assert [input][..0] == [] && UpsertAll(db, [input][..0]) == Some(Batch(db, []));
    if DataPoses(ContentFound(db.rows, input).body) {
      assert DataPoses(ContentFound(db.rows, [input][0]).body);
    }
  }

  ghost predicate AllUpsertable(rows: map<RowId, Row>, inputs: seq<Input>) {
    forall input <- inputs :: Upsertable(rows, input)
  }

  /** An input would be answered with a row whose data poses. */
  ghost predicate SomePoses(rows: map<RowId, Row>, inputs: seq<Input>) {
    exists i :: 0 <= i < |inputs| && DataPoses(ContentFound(rows, inputs[i]).body)
  }

  lemma InsertedIsStored(db: Database, after: Database, input: Input, id: RowId)
    requires Resolved(db, after, input, id) && id !in db.rows
    requires Insertable(input) && Serializable(input) && DistinctKeys(input.content.body)
    ensures Stored(id, after.rows[id])
  {
  }

  lemma UpsertedIsStored(db: Database, inputs: seq<Input>, b: Batch, id: RowId)
    requires AllStored(db.rows) && UpsertFacts(db, inputs, b) && id in b.db.rows
    requires AllInsertable(inputs) && AllSerializable(inputs)
    requires forall input <- inputs :: DistinctKeys(input.content.body)
    ensures Stored(id, b.db.rows[id])
  {
    if id in db.rows {
      assert Stored(id, db.rows[id]);
    } else {
      var k := NewRowHasAnInput(db, inputs, b, id);
      assert Insertable(inputs[k]);
      InsertedIsStored(db, b.db, inputs[k], id);
    }
  }

  lemma UpsertKeepsStored(db: Database, inputs: seq<Input>, b: Batch)
    requires AllStored(db.rows) && UpsertFacts(db, inputs, b) && Acceptable(inputs)
    requires forall input <- inputs :: DistinctKeys(input.content.body)
    ensures AllStored(b.db.rows)
  {
    forall id <- b.db.rows
      ensures Stored(id, b.db.rows[id])
    {
      UpsertedIsStored(db, inputs, b, id);
    }
  }

  lemma UpsertedAreRead(db: Database, inputs: seq<Input>, b: Batch, times: Times)
    requires Exact(times) && UniqueKeys(db.rows) && UpsertFacts(db, inputs, b) && AllStored(b.db.rows)
    ensures forall i :: 0 <= i < |inputs| ==>
              FromRow(b.ids[i], b.db.rows[b.ids[i]], times)
              == if DataPoses(ContentFound(db.rows, inputs[i]).body) then None
                 else Some(WithoutUndefined(b.db.rows[b.ids[i]]))
  {
    forall i | 0 <= i < |inputs|
      ensures FromRow(b.ids[i], b.db.rows[b.ids[i]], times)
              == if DataPoses(ContentFound(db.rows, inputs[i]).body) then None
                 else Some(WithoutUndefined(b.db.rows[b.ids[i]]))
    {
      FoundContent(db, inputs, b, i);
      assert Stored(b.ids[i], b.db.rows[b.ids[i]]);
      ReadExactly(b.ids[i], b.db.rows[b.ids[i]], times);
    }
  }

  lemma RepeatedMessage(inputs: seq<Input>, i: nat)
    requires i < |inputs| && AllInsertable(inputs)
    requires KeyText(inputs[i].tenantId, inputs[i].messageId) in MessageKeys(inputs[..i])
    ensures !NoRepeats(inputs)
  {
    var k := MessageKeyAt(inputs[..i], KeyText(inputs[i].tenantId, inputs[i].messageId));
    assert Insertable(inputs[i]) && Insertable(inputs[k]);
    InsertableHasNoNul(inputs[i]);
    InsertableHasNoNul(inputs[k]);
    KeyTextIsInjective(inputs[i].tenantId, inputs[i].messageId, inputs[k].tenantId, inputs[k].messageId);
  }

  lemma RepeatedKey(inputs: seq<Input>, i: nat)
    requires i < |inputs| && AllInsertable(inputs) && inputs[i].idempotencyKey.Some?
    requires KeyText(inputs[i].tenantId, inputs[i].idempotencyKey.value) in IdempotencyKeys(inputs[..i])
    ensures !NoRepeats(inputs)
  {
    var k := IdempotencyKeyAt(inputs[..i], KeyText(inputs[i].tenantId, inputs[i].idempotencyKey.value));
    assert Insertable(inputs[i]) && Insertable(inputs[k]);
    InsertableHasNoNul(inputs[i]);
    InsertableHasNoNul(inputs[k]);
    KeyTextIsInjective(inputs[i].tenantId, inputs[i].idempotencyKey.value,
                       inputs[k].tenantId, inputs[k].idempotencyKey.value);
  }

  ghost function MessageKeys(inputs: seq<Input>): set<string> {
    if inputs == [] then {}
    else
      var last := inputs[|inputs| - 1];
      MessageKeys(inputs[..|inputs| - 1]) + {KeyText(last.tenantId, last.messageId)}
  }

  ghost function IdempotencyKeys(inputs: seq<Input>): set<string> {
    if inputs == [] then {}
    else
      var last := inputs[|inputs| - 1];
      IdempotencyKeys(inputs[..|inputs| - 1])
      + if last.idempotencyKey.Some? then {KeyText(last.tenantId, last.idempotencyKey.value)} else {}
  }

  lemma {:induction false} MessageKeyAt(inputs: seq<Input>, key: string) returns (k: nat)
    requires key in MessageKeys(inputs)
    ensures k < |inputs| && KeyText(inputs[k].tenantId, inputs[k].messageId) == key
  {
    if key in MessageKeys(inputs[..|inputs| - 1]) {
      k := MessageKeyAt(inputs[..|inputs| - 1], key);
    } else {
      k := |inputs| - 1;
    }
  }

  lemma {:induction false} IdempotencyKeyAt(inputs: seq<Input>, key: string) returns (k: nat)
    requires key in IdempotencyKeys(inputs)
    ensures k < |inputs| && inputs[k].idempotencyKey.Some?
    ensures KeyText(inputs[k].tenantId, inputs[k].idempotencyKey.value) == key
  {
    if key in IdempotencyKeys(inputs[..|inputs| - 1]) {
      k := IdempotencyKeyAt(inputs[..|inputs| - 1], key);
    } else {
      k := |inputs| - 1;
    }
  }

  lemma {:induction false} KeysOf(inputs: seq<Input>, k: nat)
    requires k < |inputs|
    ensures KeyText(inputs[k].tenantId, inputs[k].messageId) in MessageKeys(inputs)
    ensures inputs[k].idempotencyKey.Some? ==>
              KeyText(inputs[k].tenantId, inputs[k].idempotencyKey.value) in IdempotencyKeys(inputs)
  {
    if k < |inputs| - 1 {
      KeysOf(inputs[..|inputs| - 1], k);
    }
  }

  lemma NewKeysDoNotRepeat(inputs: seq<Input>, i: nat)
    requires i < |inputs| && NoRepeats(inputs[..i])
    requires KeyText(inputs[i].tenantId, inputs[i].messageId) !in MessageKeys(inputs[..i])
    requires inputs[i].idempotencyKey.Some? ==>
               KeyText(inputs[i].tenantId, inputs[i].idempotencyKey.value) !in IdempotencyKeys(inputs[..i])
    ensures NoRepeats(inputs[..i + 1])
  {
    forall k | 0 <= k < i && inputs[k].tenantId == inputs[i].tenantId
      ensures inputs[k].messageId != inputs[i].messageId
      ensures inputs[k].idempotencyKey.Some? ==> inputs[k].idempotencyKey != inputs[i].idempotencyKey
    {
      KeysOf(inputs[..i], k);
    }
    forall k, l | 0 <= k < l < i
      ensures inputs[k] == inputs[..i][k] && inputs[l] == inputs[..i][l]
    {
    }
  }

  /** What the enqueue loop knows about the inputs it has passed. */
  ghost predicate PassedChecks(inputs: seq<Input>, messageIds: set<string>, idempotencyKeys: set<string>, characters: int) {
    && NoRepeats(inputs) && AllSerializable(inputs)
    && messageIds == MessageKeys(inputs) && idempotencyKeys == IdempotencyKeys(inputs)
    && characters == Payload(inputs) <= MAX_BATCH_PAYLOAD_CHARACTERS
  }

  lemma NextIsChecked(inputs: seq<Input>, i: nat)
    requires i < |inputs| && NoRepeats(inputs[..i]) && AllSerializable(inputs[..i]) && Serializable(inputs[i])
    requires KeyText(inputs[i].tenantId, inputs[i].messageId) !in MessageKeys(inputs[..i])
    requires inputs[i].idempotencyKey.Some? ==>
               KeyText(inputs[i].tenantId, inputs[i].idempotencyKey.value) !in IdempotencyKeys(inputs[..i])
    ensures NoRepeats(inputs[..i + 1]) && AllSerializable(inputs[..i + 1])
    ensures MessageKeys(inputs[..i + 1])
         == MessageKeys(inputs[..i]) + {KeyText(inputs[i].tenantId, inputs[i].messageId)}
    ensures IdempotencyKeys(inputs[..i + 1])
         == IdempotencyKeys(inputs[..i])
            + if inputs[i].idempotencyKey.Some?
              then {KeyText(inputs[i].tenantId, inputs[i].idempotencyKey.value)} else {}
    ensures Payload(inputs[..i + 1])
         == Payload(inputs[..i]) + inputs[i].contextCharacters + inputs[i].messageCharacters
  {
    assert inputs[..i + 1][..i] == inputs[..i];
    NewKeysDoNotRepeat(inputs, i);
  }

  lemma TooLarge(inputs: seq<Input>, n: nat)
    requires n <= |inputs|
    requires Payload(inputs[..n]) > MAX_BATCH_PAYLOAD_CHARACTERS
    ensures !Acceptable(inputs)
  {
    PayloadOfPrefix(inputs, n);
  }

  lemma AcceptableIsPlain(inputs: seq<Input>)
    requires Acceptable(inputs)
    ensures NoRepeats(inputs) && forall i :: 0 <= i < |inputs| ==> 0 < inputs[i].maxAttempts
  {
    forall i | 0 <= i < |inputs|
      ensures 0 < inputs[i].maxAttempts
    {
      assert Insertable(inputs[i]);
    }
  }

  lemma PrefixDoesNotRepeat(inputs: seq<Input>, n: nat)
    requires NoRepeats(inputs) && n <= |inputs| && forall i :: 0 <= i < |inputs| ==> 0 < inputs[i].maxAttempts
    ensures NoRepeats(inputs[..n]) && forall input <- inputs[..n] :: 0 < input.maxAttempts
  {
  }

  lemma {:induction false} FailureStays(db: Database, inputs: seq<Input>, n: nat)
    requires n <= |inputs| && UpsertAll(db, inputs[..n]).None?
    ensures UpsertAll(db, inputs).None?
  {
    if n == |inputs| {
      assert inputs[..n] == inputs;
    } else {
      assert inputs[..|inputs| - 1][..n] == inputs[..n];
      FailureStays(db, inputs[..|inputs| - 1], n);
    }
  }
}
