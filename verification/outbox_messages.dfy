/** Whether a message that was enqueued can be read again once it is claimed, by the store and by the worker. */
module OutboxMessages {
  import opened Common
  import opened Secrets
  import opened DeliveryData
  import opened OutboxContent
  import opened OutboxRows
  import opened OutboxInvariants
  import opened OutboxRuns

  const MAX_SAFE_INTEGER := 9007199254740991

  /** What both validators ask of everything but the life of the message. */
  predicate IsMessage(id: RowId, row: Row, who: Validator) {
    && SafeText(id.tenantId, 512, true) && SafeText(id.messageId, 512, true)
    && IsContent(row.content, id.tenantId, id.messageId, who)
    && 0 <= row.attempts && 0 < row.maxAttempts <= MAX_SAFE_INTEGER && OptionalText(row.lastFailureReason, 512)
    && (row.idempotencyKey.None? ==> !row.content.required) && OptionalText(row.idempotencyKey, 512)
  }

  predicate StoreAccepts(id: RowId, row: Row, isNew: bool) {
    && IsMessage(id, row, Store) && row.attempts <= row.maxAttempts
    && (isNew ==> row.status.Pending? && row.attempts == 0 && row.lastFailureReason.None?)
  }

  predicate SafeLease(lease: Lease) {
    SafeText(lease.leaseId, 512, true) && SafeText(lease.workerId, 512, true)
  }

  predicate WorkerAccepts(id: RowId, row: Row) {
    && IsMessage(id, row, Worker) && row.status.Claimed? && row.attempts < row.maxAttempts
    && row.lease.Some? && SafeLease(row.lease.value)
  }

  /** `outboxFromRow`: the stored body revived, and the whole message validated again. */
  function FromRow(id: RowId, row: Row, times: Times): Option<Row> {
    var stored := SerializeSecrets(row.content.body, times);
    if stored.None? then None
    else
      var body := ReviveSecrets(stored.value, times);
      if body.Some? && StoreAccepts(id, row.(content := row.content.(body := body.value)), false)
      then Some(row.(content := row.content.(body := body.value)))
      else None
  }

  /** `leasedOutboxFromRow`: of a claimed row. */
  function LeasedFromRow(id: RowId, row: Row, times: Times): Option<Row> {
    if row.status.Claimed? && row.lease.Some? && row.lease.value.leaseId != "" && row.lease.value.workerId != ""
    then FromRow(id, row, times) else None
  }

  predicate Reaches(id: RowId, row: Row, times: Times) {
    LeasedFromRow(id, row, times).Some? && WorkerAccepts(id, LeasedFromRow(id, row, times).value)
  }

  // ---- What is true of every stored row ----

  predicate Enqueued(id: RowId, row: Row) {
    StoreAccepts(id, row, true) && SerializesContext(row.content.context) && Serializes(row.content.body)
  }

  /** The statements the store runs: their arguments passed its validators. */
  predicate Checked(st: Statement) {
    match st
    case Insert(id, row) => Enqueued(id, row) && DistinctKeys(row.content.body)
    case ClaimCandidates(_, _, _, workerId, _, leases) =>
      SafeText(workerId, 512, true) && forall id <- leases :: SafeText(leases[id], 512, true)
    case MarkFailed(_, _, _, _, _, _, reason) => SafeText(reason, 512, true)
    case _ => true
  }

  predicate AllChecked(sts: seq<Statement>) {
    sts == [] || (Checked(sts[0]) && AllChecked(sts[1..]))
  }

  predicate Stored(id: RowId, row: Row) {
    && StoreAccepts(id, row, false) && Serializes(row.content.body) && DistinctKeys(row.content.body)
    && (row.lease.Some? ==> SafeLease(row.lease.value))
  }

  predicate AllStored(rows: map<RowId, Row>) {
    forall id {:trigger Stored(id, rows[id])} :: id in rows ==> Stored(id, rows[id])
  }

  /** What every table the store's own statements built keeps. */
  ghost predicate Sound(db: Database) {
    Inv(db) && UniqueKeys(db.rows) && AllStored(db.rows)
  }

  /** The texts a statement may write into a row. */
  ghost predicate TextsFrom(st: Statement, before: Row, after: Row) {
    && (|| after.lastFailureReason == before.lastFailureReason || after.lastFailureReason.None?
        || after.lastFailureReason == Some(LEASE_CONFLICT)
        || (st.MarkFailed? && after.lastFailureReason == Some(st.reason)))
    && (after.lease.Some? ==>
          || (before.lease.Some? && after.lease.value.leaseId == before.lease.value.leaseId
              && after.lease.value.workerId == before.lease.value.workerId)
          || (st.ClaimCandidates? && after.lease.value.workerId == st.workerId
              && exists id <- st.leases :: after.lease.value.leaseId == st.leases[id]))
  }

  lemma WrittenTexts(db: Database, st: Statement, id: RowId)
    requires Enabled(db, st) && !st.Insert? && id in db.rows && id in Execute(db, st).rows
    ensures TextsFrom(st, db.rows[id], Execute(db, st).rows[id])
  {
  }

  lemma ConflictIsSafe()
    ensures OptionalText(Some(LEASE_CONFLICT), 512)
  {
  }

  lemma WrittenTextsAreSafe(st: Statement, before: Row, after: Row)
    requires Checked(st) && TextsFrom(st, before, after)
    requires OptionalText(before.lastFailureReason, 512) && (before.lease.Some? ==> SafeLease(before.lease.value))
    ensures OptionalText(after.lastFailureReason, 512) && (after.lease.Some? ==> SafeLease(after.lease.value))
  {
    ConflictIsSafe();
  }

  lemma StoredStays(id: RowId, before: Row, after: Row)
    requires Stored(id, before) && Nearer(before, after) && RowOk(after)
    requires OptionalText(after.lastFailureReason, 512) && (after.lease.Some? ==> SafeLease(after.lease.value))
    ensures Stored(id, after)
  {
  }

  lemma StatementKeepsStored(db: Database, st: Statement)
    requires Inv(db) && Enabled(db, st) && Checked(st) && AllStored(db.rows)
    ensures AllStored(Execute(db, st).rows)
  {
    StatementKeepsInv(db, st);
    forall id <- Execute(db, st).rows
      ensures Stored(id, Execute(db, st).rows[id])
    {
      if id in db.rows {
        assert Stored(id, db.rows[id]);
        RowStep(db, st, id);
        assert RowInv(Execute(db, st), Execute(db, st).rows[id]);
        if !st.Insert? {
          WrittenTexts(db, st, id);
          WrittenTextsAreSafe(st, db.rows[id], Execute(db, st).rows[id]);
          StoredStays(id, db.rows[id], Execute(db, st).rows[id]);
        }
      }
    }
  }

  lemma StatementKeepsSound(db: Database, st: Statement)
    requires Sound(db) && Enabled(db, st) && Checked(st)
    ensures Sound(Execute(db, st))
  {
    StatementKeepsInv(db, st);
    StatementKeepsUniqueKeys(db, st);
    StatementKeepsStored(db, st);
  }

  lemma {:induction false} StatementsKeepSound(db: Database, sts: seq<Statement>)
    requires Sound(db) && AllEnabled(db, sts) && AllChecked(sts)
    ensures Sound(ExecuteAll(db, sts))
    decreases sts
  {
    if sts != [] {
      StatementKeepsSound(db, sts[0]);
      StatementsKeepSound(Execute(db, sts[0]), sts[1..]);
    }
  }

  lemma EmptyIsSound()
    ensures Sound(EMPTY)
  {
    EmptyInv();
  }

  ghost predicate CheckedRun(dbs: seq<Database>, sts: seq<Statement>) {
    Run(dbs, sts) && dbs[0] == EMPTY && forall i :: 0 <= i < |sts| ==> Checked(sts[i])
  }

  lemma {:induction false} ReachableIsSound(dbs: seq<Database>, sts: seq<Statement>, i: nat)
    requires CheckedRun(dbs, sts) && i < |dbs|
    ensures Sound(dbs[i])
  {
    EmptyIsSound();
    if 0 < i {
      ReachableIsSound(dbs, sts, i - 1);
      StatementKeepsSound(dbs[i - 1], sts[i - 1]);
    }
  }

  // ---- Which rows can be read ----

  function WithoutUndefined(row: Row): Row {
    row.(content := row.content.(body := Stripped(row.content.body)))
  }

  /** A stored row is read back as the same message without undefined fields, unless its data carries a secret's type
      name at its own top level; then it cannot be read at all. */
  lemma ReadExactly(id: RowId, row: Row, times: Times)
    requires Exact(times) && Stored(id, row)
    ensures FromRow(id, row, times) == if DataPoses(row.content.body) then None else Some(WithoutUndefined(row))
  {
    var body := row.content.body;
    if DataPoses(body) {
      PosingDataIsLost(body, times);
    } else {
      OnlyDataPoses(body);
      RoundTrip(body, times);
      StrippedMessage(body);
    }
  }

  lemma StoreAcceptsLessOfRow(id: RowId, row: Row)
    requires IsMessage(id, row, Store)
    ensures IsMessage(id, row, Worker)
  {
    StoreAcceptsLess(row.content.body);
    if !row.content.context.metadata.Undefined? {
      StoredObjectIsJson(row.content.context.metadata);
    }
  }

  /** Whatever statements have run since the table was empty, a claimed row reaches the worker as the message that was
      enqueued, without its undefined fields, exactly when its data does not pose as a secret. */
  lemma ReachesTheWorkerExactly(dbs: seq<Database>, sts: seq<Statement>, i: nat, id: RowId, times: Times)
    requires CheckedRun(dbs, sts) && i < |dbs| && Exact(times)
    requires id in dbs[i].rows && dbs[i].rows[id].status.Claimed?
    ensures Reaches(id, dbs[i].rows[id], times) <==> !DataPoses(dbs[i].rows[id].content.body)
    ensures Reaches(id, dbs[i].rows[id], times) ==>
              LeasedFromRow(id, dbs[i].rows[id], times) == Some(WithoutUndefined(dbs[i].rows[id]))
  {
    var row := dbs[i].rows[id];
    ReachableIsSound(dbs, sts, i);
    assert RowInv(dbs[i], row) && Stored(id, row);
    ReadExactly(id, row, times);
    if !DataPoses(row.content.body) {
      StoreAcceptsLessOfRow(id, FromRow(id, row, times).value);
    }
  }

  lemma {:induction false} ContentStays(dbs: seq<Database>, sts: seq<Statement>, id: RowId, i: nat, j: nat)
    requires Run(dbs, sts) && Inv(dbs[0]) && Present(dbs, id, i, j)
    ensures dbs[j].rows[id].content == dbs[i].rows[id].content
    decreases j
  {
    if i < j {
      ContentStays(dbs, sts, id, i, j - 1);
      RunKeepsInv(dbs, sts, j - 1);
      RowStep(dbs[j - 1], sts[j - 1], id);
    }
  }

  /** A row that was read once, as an answered enqueue does, reaches the worker from every later claim of it. */
  lemma ReadOnceIsNeverPoison(dbs: seq<Database>, sts: seq<Statement>, id: RowId, i: nat, j: nat, times: Times)
    requires CheckedRun(dbs, sts) && Exact(times) && Present(dbs, id, i, j)
    requires FromRow(id, dbs[i].rows[id], times).Some? && dbs[j].rows[id].status.Claimed?
    ensures Reaches(id, dbs[j].rows[id], times)
  {
    EmptyInv();
    ContentStays(dbs, sts, id, i, j);
    ReachableIsSound(dbs, sts, i);
    assert Stored(id, dbs[i].rows[id]);
    ReadExactly(id, dbs[i].rows[id], times);
    ReachesTheWorkerExactly(dbs, sts, j, id, times);
  }
}
