/** What every run of statements keeps, whatever clocks the callers pass and whoever they are. */
module OutboxInvariants {
  import opened OutboxRows

  ghost predicate RowOk(row: Row) {
    && (row.lease.Some? <==> row.status.Claimed?)
    && match row.status
       case Pending => row.attempts == 0 < row.maxAttempts
       case Failed => 0 < row.attempts < row.maxAttempts
       case Claimed => 0 <= row.attempts < row.maxAttempts
       case Dispatched => 0 <= row.attempts < row.maxAttempts
       case Dead => 0 <= row.attempts <= row.maxAttempts
  }

  /** Claims a row has been through, read off its columns; for a dead row it may be one too low. */
  function Spent(row: Row): int {
    row.attempts + if row.status.Claimed? || row.status.Dispatched? then 1 else 0
  }

  ghost function LeasesOf(issued: map<LeaseId, nat>, incarnation: nat): set<LeaseId> {
    set l | l in issued && issued[l] == incarnation
  }

  ghost predicate Tallied(issued: map<LeaseId, nat>, row: Row) {
    row.status.Dead? || |LeasesOf(issued, row.incarnation)| == Spent(row)
  }

  ghost predicate RowInv(db: Database, row: Row) {
    && RowOk(row)
    && row.incarnation < |db.bounds| && db.bounds[row.incarnation] == row.maxAttempts
    && (row.status.Claimed? ==>
          row.lease.value.leaseId in db.issued && db.issued[row.lease.value.leaseId] == row.incarnation)
    && Tallied(db.issued, row)
  }

  ghost predicate DistinctIncarnations(rows: map<RowId, Row>) {
    forall id <- rows, other <- rows :: rows[id].incarnation == rows[other].incarnation ==> id == other
  }

  ghost predicate RowsInv(db: Database) {
    forall id <- db.rows :: RowInv(db, db.rows[id])
  }

  ghost predicate IssuedForRows(db: Database) {
    forall l <- db.issued :: db.issued[l] < |db.bounds|
  }

  ghost predicate ClaimsBounded(db: Database) {
    forall n :: 0 <= n < |db.bounds| ==> |LeasesOf(db.issued, n)| <= db.bounds[n]
  }

  ghost predicate Inv(db: Database) {
    RowsInv(db) && DistinctIncarnations(db.rows) && IssuedForRows(db) && ClaimsBounded(db)
  }

  /** A change of one row that hands out no lease. */
  ghost predicate CanBecome(before: Row, after: Row) {
    && RowOk(after)
    && after.incarnation == before.incarnation && after.maxAttempts == before.maxAttempts
    && after.content == before.content && after.idempotencyKey == before.idempotencyKey
    && after.expiresAt == before.expiresAt
    && (after.status.Claimed? ==>
          before.status.Claimed? && before.lease.Some? && after.lease.value.leaseId == before.lease.value.leaseId)
    && !before.Terminal()
    && (after.status.Dead? || Spent(after) == Spent(before))
    && Rank(after) + (if after.status.Claimed? then 0 else 1) <= Rank(before)
  }

  /** How many more changes a row can see before it is terminal. */
  function Rank(row: Row): int {
    if row.Terminal() then 0
    else 2 * (row.maxAttempts - row.attempts) + if row.Waiting() then 1 else 0
  }

  lemma RowChanges(row: Row, now: int)
    requires RowOk(row)
    ensures Expirable(row, now) ==> CanBecome(row, Expired(row, now))
    ensures Abandoned(row, now) ==> CanBecome(row, Reclaimed(row, now))
    ensures row.status.Claimed? ==> CanBecome(row, MarkedDispatched(row, now))
    ensures forall terminal, retryAt, reason :: row.status.Claimed? ==>
              CanBecome(row, MarkedFailed(row, now, terminal, retryAt, reason))
    ensures forall until :: row.status.Claimed? ==> CanBecome(row, Renewed(row, until, now))
  {
  }

  lemma RowsChange(db: Database, rows: map<RowId, Row>)
    requires Inv(db) && rows.Keys <= db.rows.Keys
    requires forall id <- rows :: rows[id] == db.rows[id] || CanBecome(db.rows[id], rows[id])
    ensures Inv(db.(rows := rows))
  {
  }

  lemma LeasesAfterClaim(issued: map<LeaseId, nat>, granted: map<LeaseId, nat>, incarnation: nat)
    requires issued.Keys !! granted.Keys
    ensures |LeasesOf(issued + granted, incarnation)| == |LeasesOf(issued, incarnation)| + |LeasesOf(granted, incarnation)|
  {
    var earlier := LeasesOf(issued, incarnation);
    var more := LeasesOf(granted, incarnation);
    assert LeasesOf(issued + granted, incarnation) == earlier + more;
    assert earlier !! more;
  }

  /** A claim grants one lease to the incarnation of each chosen row and none to any other. */
  lemma GrantedToRow(db: Database, leases: map<RowId, LeaseId>, id: RowId)
    requires NewLeases(db, leases) && DistinctIncarnations(db.rows) && id in db.rows
    ensures |LeasesOf(Grants(db, leases), db.rows[id].incarnation)| == if id in leases then 1 else 0
  {
    var n := db.rows[id].incarnation;
    var granted := LeasesOf(Grants(db, leases), n);
    if id in leases {
      assert granted == {leases[id]};
    } else {
      assert granted == {};
    }
  }

  lemma ClaimCounts(db: Database, leases: map<RowId, LeaseId>, n: nat)
    requires NewLeases(db, leases)
    ensures |LeasesOf(db.issued + Grants(db, leases), n)|
         == |LeasesOf(db.issued, n)| + |LeasesOf(Grants(db, leases), n)|
  {
    LeasesAfterClaim(db.issued, Grants(db, leases), n);
  }

  lemma ClaimedRowKeepsInv(db: Database, leases: map<RowId, LeaseId>, id: RowId, after: Database, lease: Lease, now: int)
    requires NewLeases(db, leases) && DistinctIncarnations(db.rows) && id in db.rows
    requires RowInv(db, db.rows[id])
    requires after.bounds == db.bounds && after.issued == db.issued + Grants(db, leases) && id in after.rows
    requires
      if id in leases then
        && db.rows[id].Waiting() && db.rows[id].attempts < db.rows[id].maxAttempts
        && lease.leaseId == leases[id] && after.rows[id] == ClaimedRow(db.rows[id], lease, now)
      else after.rows[id] == db.rows[id]
    ensures RowInv(after, after.rows[id])
  {
    GrantedToRow(db, leases, id);
    ClaimCounts(db, leases, db.rows[id].incarnation);
  }

  lemma ClaimKeepsRows(db: Database, st: Statement, id: RowId)
    requires Inv(db) && st.ClaimCandidates? && Enabled(db, st) && id in db.rows
    ensures RowInv(Execute(db, st), Execute(db, st).rows[id])
  {
    assert RowInv(db, db.rows[id]);
    var leaseId := if id in st.leases then st.leases[id] else "";
    var lease := Lease(leaseId, st.workerId, LeaseEnd(st.now, st.leaseSeconds));
    ClaimedRowKeepsInv(db, st.leases, id, Execute(db, st), lease, st.now);
  }

  lemma ClaimKeepsBound(db: Database, leases: map<RowId, LeaseId>, after: Database, n: nat)
    requires Inv(db) && NewLeases(db, leases) && n < |db.bounds|
    requires after.bounds == db.bounds && after.issued == db.issued + Grants(db, leases)
    requires forall id <- leases :: id in after.rows && after.rows[id].status.Claimed?
    requires RowsInv(after) && forall id <- leases :: after.rows[id].incarnation == db.rows[id].incarnation
    ensures |LeasesOf(after.issued, n)| <= db.bounds[n]
  {
    if id :| id in leases && db.rows[id].incarnation == n {
      ClaimedIsBounded(after, id);
    } else {
      ClaimCounts(db, leases, n);
      assert LeasesOf(Grants(db, leases), n) == {};
      assert |LeasesOf(db.issued, n)| <= db.bounds[n];
    }
  }

  lemma ClaimedIsBounded(db: Database, id: RowId)
    requires RowsInv(db) && id in db.rows && db.rows[id].status.Claimed?
    ensures |LeasesOf(db.issued, db.rows[id].incarnation)| <= db.bounds[db.rows[id].incarnation]
  {
  }

  lemma IncarnationsStayDistinct(rows: map<RowId, Row>, after: map<RowId, Row>)
    requires DistinctIncarnations(rows) && after.Keys == rows.Keys
    requires forall id <- after :: after[id].incarnation == rows[id].incarnation
    ensures DistinctIncarnations(after)
  {
  }

  lemma GrantsAreForRows(db: Database, leases: map<RowId, LeaseId>, after: Database)
    requires Inv(db) && NewLeases(db, leases)
    requires after.bounds == db.bounds && after.issued == db.issued + Grants(db, leases)
    ensures IssuedForRows(after)
  {
  }

  lemma ClaimKeepsRowsInv(db: Database, st: Statement)
    requires Inv(db) && st.ClaimCandidates? && Enabled(db, st)
    ensures RowsInv(Execute(db, st))
  {
    var after := Execute(db, st);
    forall id <- after.rows
      ensures RowInv(after, after.rows[id])
    {
      ClaimKeepsRows(db, st, id);
    }
  }

  lemma ClaimKeepsBounds(db: Database, leases: map<RowId, LeaseId>, after: Database)
    requires Inv(db) && NewLeases(db, leases) && RowsInv(after)
    requires after.bounds == db.bounds && after.issued == db.issued + Grants(db, leases)
    requires forall id <- leases :: id in after.rows && after.rows[id].status.Claimed?
    requires forall id <- leases :: after.rows[id].incarnation == db.rows[id].incarnation
    ensures ClaimsBounded(after)
  {
    forall n | 0 <= n < |after.bounds|
      ensures |LeasesOf(after.issued, n)| <= after.bounds[n]
    {
      ClaimKeepsBound(db, leases, after, n);
    }
  }

  lemma ClaimKeepsInv(db: Database, st: Statement)
    requires Inv(db) && st.ClaimCandidates? && Enabled(db, st)
    ensures Inv(Execute(db, st))
  {
    ClaimKeepsRowsInv(db, st);
    IncarnationsStayDistinct(db.rows, Execute(db, st).rows);
    GrantsAreForRows(db, st.leases, Execute(db, st));
    ClaimKeepsBounds(db, st.leases, Execute(db, st));
  }

  lemma InsertKeepsInv(db: Database, st: Statement)
    requires Inv(db) && st.Insert? && Enabled(db, st)
    ensures Inv(Execute(db, st))
  {
  }

  lemma StatementKeepsInv(db: Database, st: Statement)
    requires Inv(db) && Enabled(db, st)
    ensures Inv(Execute(db, st))
  {
    if st.Insert? {
      InsertKeepsInv(db, st);
    } else if st.ClaimCandidates? {
      ClaimKeepsInv(db, st);
    } else {
      ChangesOfStatement(db, st);
      RowsChange(db, Execute(db, st).rows);
    }
  }

  /** Every statement but insert and claim only changes rows as `CanBecome` allows, or deletes terminal ones. */
  lemma ChangesOfStatement(db: Database, st: Statement)
    requires Inv(db) && Enabled(db, st) && !st.Insert? && !st.ClaimCandidates?
    ensures
      var rows := Execute(db, st).rows;
      && Execute(db, st) == db.(rows := rows)
      && rows.Keys <= db.rows.Keys
      && (forall id <- rows :: rows[id] == db.rows[id] || CanBecome(db.rows[id], rows[id]))
      && (forall id <- db.rows :: id !in rows ==> st.CleanupTerminal? && db.rows[id].Terminal())
  {
    forall id <- db.rows, now
      ensures Expirable(db.rows[id], now) ==> CanBecome(db.rows[id], Expired(db.rows[id], now))
      ensures Abandoned(db.rows[id], now) ==> CanBecome(db.rows[id], Reclaimed(db.rows[id], now))
    {
      assert RowInv(db, db.rows[id]);
      RowChanges(db.rows[id], now);
    }
    if (st.RenewLease? || st.MarkDispatched? || st.MarkFailed?) && st.id in db.rows {
      assert RowInv(db, db.rows[st.id]);
      RowChanges(db.rows[st.id], st.now);
    }
  }
}
