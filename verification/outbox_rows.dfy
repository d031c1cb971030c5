/** The outbox table as its SQL statements see it. Each statement is one atomic guarded step on the rows.
    A statement with a limit works on some selection of the rows its guard admits. */
module OutboxRows {
  import opened Common
  import OutboxContent

  datatype Status = Pending | Claimed | Dispatched | Failed | Dead

  datatype RowId = RowId(tenantId: string, messageId: string)

  type LeaseId = string

  datatype Lease = Lease(leaseId: LeaseId, workerId: string, until: int)

  const LEASE_CONFLICT := "OUTBOX_LEASE_CONFLICT"

  /** `incarnation` tells apart rows that reuse an id. */
  datatype Row = Row(
    content: OutboxContent.Content,
    idempotencyKey: Option<string>,
    incarnation: nat,
    status: Status,
    attempts: int,
    maxAttempts: int,
    lastFailureReason: Option<string>,
    expiresAt: Option<int>,
    availableAt: int,
    updatedAt: int,
    lease: Option<Lease>)
  {
    predicate Terminal() {
      status.Dispatched? || status.Dead?
    }

    predicate Waiting() {
      status.Pending? || status.Failed?
    }

    predicate ExpiredBy(now: int) {
      expiresAt.Some? && expiresAt.value <= now
    }
  }

  /** The rows, the row incarnation each lease id was issued for, and the attempt bound of every incarnation. */
  datatype Database = Database(rows: map<RowId, Row>, issued: map<LeaseId, nat>, bounds: seq<int>)

  datatype Statement =
    | Insert(id: RowId, row: Row)
    | ExpireDue(now: int, tenantId: Option<string>, limit: nat, chosen: set<RowId>)
    | ReclaimAbandoned(now: int, tenantId: Option<string>, limit: nat, chosen: set<RowId>)
    | ClaimCandidates(now: int, tenantId: Option<string>, limit: nat, workerId: string, leaseSeconds: int,
                      leases: map<RowId, LeaseId>)
    | RenewLease(id: RowId, workerId: string, leaseId: LeaseId, now: int, leaseSeconds: int)
    | MarkDispatched(id: RowId, workerId: string, leaseId: LeaseId, now: int)
    | MarkFailed(id: RowId, workerId: string, leaseId: LeaseId, now: int, terminal: bool, retryAt: Option<int>,
                 reason: string)
    | CleanupTerminal(statuses: set<Status>, before: int, tenantId: Option<string>, limit: nat, chosen: set<RowId>)

  // ---- What one statement does to one row ----

  function Expired(row: Row, now: int): Row {
    row.(status := Dead, lease := None, updatedAt := now)
  }

  function OneMoreAttempt(row: Row, terminal: bool): Row {
    row.(attempts := row.attempts + 1,
         status := if terminal || row.attempts + 1 >= row.maxAttempts then Dead else Failed,
         lease := None)
  }

  function Reclaimed(row: Row, now: int): Row {
    OneMoreAttempt(row, false).(lastFailureReason := Some(LEASE_CONFLICT), availableAt := now, updatedAt := now)
  }

  function ClaimedRow(row: Row, lease: Lease, now: int): Row {
    row.(status := Claimed, lease := Some(lease), updatedAt := now)
  }

  function Renewed(row: Row, until: int, now: int): Row
    requires row.lease.Some?
  {
    row.(lease := Some(row.lease.value.(until := until)), updatedAt := now)
  }

  function MarkedDispatched(row: Row, now: int): Row {
    row.(status := Dispatched, lastFailureReason := None, lease := None, updatedAt := now)
  }

  function MarkedFailed(row: Row, now: int, terminal: bool, retryAt: Option<int>, reason: string): Row {
    OneMoreAttempt(row, terminal).(availableAt := if retryAt.Some? then retryAt.value else now,
                                   lastFailureReason := Some(reason), updatedAt := now)
  }

  function LeaseEnd(now: int, leaseSeconds: int): int {
    now + leaseSeconds * 1000
  }

  // ---- Which rows a statement may touch ----

  predicate InTenant(id: RowId, tenantId: Option<string>) {
    tenantId.None? || tenantId.value == id.tenantId
  }

  predicate Expirable(row: Row, now: int) {
    (row.Waiting() || row.status.Claimed?) && row.ExpiredBy(now)
  }

  predicate Abandoned(row: Row, now: int) {
    row.status.Claimed? && row.lease.Some? && row.lease.value.until <= now
  }

  predicate Claimable(row: Row, now: int) {
    row.Waiting() && !row.ExpiredBy(now) && row.availableAt <= now && row.attempts < row.maxAttempts
  }

  /** The row is claimed by this worker under this lease, and the lease has not run out. */
  predicate Held(rows: map<RowId, Row>, id: RowId, workerId: string, leaseId: LeaseId, now: int) {
    id in rows && rows[id].status.Claimed? && rows[id].lease.Some?
    && rows[id].lease.value.workerId == workerId && rows[id].lease.value.leaseId == leaseId
    && now < rows[id].lease.value.until
  }

  predicate NewRow(row: Row, incarnation: nat) {
    row.status.Pending? && row.attempts == 0 && 0 < row.maxAttempts && row.lease.None?
    && row.lastFailureReason.None? && row.incarnation == incarnation
  }

  /** One lease id for each chosen row, all different and none issued before. */
  predicate NewLeases(db: Database, leases: map<RowId, LeaseId>) {
    && (forall id <- leases :: id in db.rows)
    && (forall id <- leases :: leases[id] !in db.issued)
    && (forall id <- leases, other <- leases :: id != other ==> leases[id] != leases[other])
  }

  function Grants(db: Database, leases: map<RowId, LeaseId>): map<LeaseId, nat>
    requires NewLeases(db, leases)
  {
    map id <- leases :: leases[id] := db.rows[id].incarnation
  }

  /** No row of the tenant has this idempotency key. */
  predicate FreeKey(rows: map<RowId, Row>, tenantId: string, key: Option<string>) {
    key.Some? ==> forall id <- rows :: id.tenantId == tenantId ==> rows[id].idempotencyKey != key
  }

  predicate Enabled(db: Database, st: Statement) {
    match st
    case Insert(id, row) =>
      id !in db.rows && NewRow(row, |db.bounds|) && FreeKey(db.rows, id.tenantId, row.idempotencyKey)
    case ExpireDue(now, tenantId, limit, chosen) =>
      |chosen| <= limit && forall id <- chosen :: id in db.rows && InTenant(id, tenantId) && Expirable(db.rows[id], now)
    case ReclaimAbandoned(now, tenantId, limit, chosen) =>
      |chosen| <= limit && forall id <- chosen :: id in db.rows && InTenant(id, tenantId) && Abandoned(db.rows[id], now)
    case ClaimCandidates(now, tenantId, limit, _, leaseSeconds, leases) =>
      && |leases| <= limit && 0 < leaseSeconds
      && NewLeases(db, leases)
      && (forall id <- leases :: InTenant(id, tenantId) && Claimable(db.rows[id], now))
    case RenewLease(_, _, _, _, leaseSeconds) => 0 < leaseSeconds
    case MarkDispatched(_, _, _, _) => true
    case MarkFailed(_, _, _, _, _, _, _) => true
    case CleanupTerminal(statuses, before, tenantId, limit, chosen) =>
      && statuses <= {Dispatched, Dead} && |chosen| <= limit
      && forall id <- chosen :: id in db.rows && InTenant(id, tenantId)
                                && db.rows[id].status in statuses && db.rows[id].updatedAt <= before
  }

  function Execute(db: Database, st: Statement): Database
    requires Enabled(db, st)
  {
    match st
    case Insert(id, row) =>
      db.(rows := db.rows[id := row], bounds := db.bounds + [row.maxAttempts])
    case ExpireDue(now, _, _, chosen) =>
      db.(rows := map id <- db.rows :: if id in chosen then Expired(db.rows[id], now) else db.rows[id])
    case ReclaimAbandoned(now, _, _, chosen) =>
      db.(rows := map id <- db.rows :: if id in chosen then Reclaimed(db.rows[id], now) else db.rows[id])
    case ClaimCandidates(now, _, _, workerId, leaseSeconds, leases) =>
      db.(rows := map id <- db.rows ::
                    if id in leases
                    then ClaimedRow(db.rows[id], Lease(leases[id], workerId, LeaseEnd(now, leaseSeconds)), now)
                    else db.rows[id],
          issued := db.issued + Grants(db, leases))
    case RenewLease(id, workerId, leaseId, now, leaseSeconds) =>
      if Held(db.rows, id, workerId, leaseId, now)
      then db.(rows := db.rows[id := Renewed(db.rows[id], LeaseEnd(now, leaseSeconds), now)]) else db
    case MarkDispatched(id, workerId, leaseId, now) =>
      if Held(db.rows, id, workerId, leaseId, now)
      then db.(rows := db.rows[id := MarkedDispatched(db.rows[id], now)]) else db
    case MarkFailed(id, workerId, leaseId, now, terminal, retryAt, reason) =>
      if Held(db.rows, id, workerId, leaseId, now)
      then db.(rows := db.rows[id := MarkedFailed(db.rows[id], now, terminal, retryAt, reason)]) else db
    case CleanupTerminal(_, _, _, _, chosen) =>
      db.(rows := db.rows - chosen)
  }
}
