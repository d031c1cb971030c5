/** Whole runs of statements: leases are released once, and every row is on its way to a terminal status. */
module OutboxRuns {
  import opened OutboxRows
  import opened OutboxInvariants

  ghost predicate Run(dbs: seq<Database>, sts: seq<Statement>) {
    && |dbs| == |sts| + 1
    && forall i :: 0 <= i < |sts| ==> Enabled(dbs[i], sts[i]) && dbs[i + 1] == Execute(dbs[i], sts[i])
  }

  /** Statements that can run one after the other, and what they do. */
  predicate AllEnabled(db: Database, sts: seq<Statement>)
    decreases sts
  {
    sts == [] || (Enabled(db, sts[0]) && AllEnabled(Execute(db, sts[0]), sts[1..]))
  }

  function ExecuteAll(db: Database, sts: seq<Statement>): Database
    requires AllEnabled(db, sts)
    decreases sts
  {
    if sts == [] then db else ExecuteAll(Execute(db, sts[0]), sts[1..])
  }

  const EMPTY := Database(map[], map[], [])

  lemma EmptyInv()
    ensures Inv(EMPTY)
  {
  }

  lemma {:induction false} RunKeepsInv(dbs: seq<Database>, sts: seq<Statement>, i: nat)
    requires Run(dbs, sts) && Inv(dbs[0]) && i < |dbs|
    ensures Inv(dbs[i])
  {
    if 0 < i {
      RunKeepsInv(dbs, sts, i - 1);
      StatementKeepsInv(dbs[i - 1], sts[i - 1]);
    }
  }

  /** In every reachable state each row has been claimed at most as often as it may be attempted. */
  lemma ClaimsAreBounded(dbs: seq<Database>, sts: seq<Statement>, i: nat, n: nat)
    requires Run(dbs, sts) && dbs[0] == EMPTY && i < |dbs| && n < |dbs[i].bounds|
    ensures |LeasesOf(dbs[i].issued, n)| <= dbs[i].bounds[n]
  {
    EmptyInv();
    RunKeepsInv(dbs, sts, i);
  }

  // ---- Leases ----

  ghost predicate Holds(db: Database, l: LeaseId) {
    exists id :: id in db.rows && db.rows[id].lease.Some? && db.rows[id].lease.value.leaseId == l
  }

  lemma NotHeldAgain(db: Database, st: Statement, l: LeaseId)
    requires Inv(db) && Enabled(db, st) && l in db.issued && !Holds(db, l)
    ensures l in Execute(db, st).issued && !Holds(Execute(db, st), l)
  {
  }

  lemma HeldIsIssued(db: Database, l: LeaseId)
    requires Inv(db) && Holds(db, l)
    ensures l in db.issued
  {
  }

  lemma IssuedStays(db: Database, st: Statement, l: LeaseId)
    requires Enabled(db, st) && l in db.issued
    ensures l in Execute(db, st).issued && Execute(db, st).issued[l] == db.issued[l]
  {
  }

  /** A lease that step `i` released is not held after any later step. */
  lemma {:induction false} ReleasedForGood(dbs: seq<Database>, sts: seq<Statement>, l: LeaseId, i: nat, j: nat)
    requires Run(dbs, sts) && Inv(dbs[0]) && i < j < |dbs|
    requires Holds(dbs[i], l) && !Holds(dbs[i + 1], l)
    ensures l in dbs[j].issued && !Holds(dbs[j], l)
    decreases j
  {
    RunKeepsInv(dbs, sts, j - 1);
    if j == i + 1 {
      HeldIsIssued(dbs[i], l);
      IssuedStays(dbs[i], sts[i], l);
    } else {
      ReleasedForGood(dbs, sts, l, i, j - 1);
      NotHeldAgain(dbs[j - 1], sts[j - 1], l);
    }
  }

  ghost predicate Releases(dbs: seq<Database>, l: LeaseId, i: nat)
    requires i + 1 < |dbs|
  {
    Holds(dbs[i], l) && !Holds(dbs[i + 1], l)
  }

  /** Of all the marks, reclaims and expirations in a run, at most one ends a given lease. */
  lemma ReleasedOnce(dbs: seq<Database>, sts: seq<Statement>, l: LeaseId, i: nat, j: nat)
    requires Run(dbs, sts) && Inv(dbs[0]) && i + 1 < |dbs| && j + 1 < |dbs|
    requires Releases(dbs, l, i) && Releases(dbs, l, j)
    ensures i == j
  {
    if i < j {
      ReleasedForGood(dbs, sts, l, i, j);
    }
    if j < i {
      ReleasedForGood(dbs, sts, l, j, i);
    }
  }

  predicate UsesLease(st: Statement, l: LeaseId) {
    (st.RenewLease? || st.MarkDispatched? || st.MarkFailed?) && st.leaseId == l
  }

  /** After its release every mark and renewal under the lease is refused and changes nothing. */
  lemma UseAfterReleaseFails(dbs: seq<Database>, sts: seq<Statement>, l: LeaseId, i: nat, j: nat)
    requires Run(dbs, sts) && Inv(dbs[0]) && i < j < |sts|
    requires Releases(dbs, l, i) && UsesLease(sts[j], l)
    ensures dbs[j + 1] == dbs[j]
  {
    ReleasedForGood(dbs, sts, l, i, j);
    assert !Held(dbs[j].rows, sts[j].id, sts[j].workerId, l, sts[j].now);
  }

  // ---- Rows ----

  predicate Moved(before: Row, after: Row) {
    before.status != after.status || before.attempts != after.attempts
  }

  ghost predicate Nearer(before: Row, after: Row) {
    && before.content == after.content && before.idempotencyKey == after.idempotencyKey
    && before.maxAttempts == after.maxAttempts
    && before.expiresAt == after.expiresAt && before.incarnation == after.incarnation
    && (before.Terminal() ==> after == before)
    && Rank(after) + (if Moved(before, after) then 1 else 0) <= Rank(before)
  }

  lemma ClaimStep(db: Database, st: Statement, id: RowId)
    requires Inv(db) && st.ClaimCandidates? && Enabled(db, st) && id in db.rows
    ensures id in Execute(db, st).rows && Nearer(db.rows[id], Execute(db, st).rows[id])
  {
    var after := Execute(db, st).rows[id];
    if id in st.leases {
      ClaimIsNearer(db.rows[id], Lease(st.leases[id], st.workerId, LeaseEnd(st.now, st.leaseSeconds)), st.now);
    } else {
      assert after == db.rows[id];
    }
  }

  lemma ClaimIsNearer(row: Row, lease: Lease, now: int)
    requires row.Waiting()
    ensures Nearer(row, ClaimedRow(row, lease, now))
  {
  }

  /** Every change but a renewal brings a row strictly nearer to its end; a terminal row only leaves by cleanup. */
  lemma RowStep(db: Database, st: Statement, id: RowId)
    requires Inv(db) && Enabled(db, st) && id in db.rows
    ensures if id in Execute(db, st).rows then Nearer(db.rows[id], Execute(db, st).rows[id])
            else st.CleanupTerminal? && db.rows[id].Terminal()
    ensures id in Execute(db, st).rows && !st.RenewLease? && Execute(db, st).rows[id] != db.rows[id] ==>
              Rank(Execute(db, st).rows[id]) < Rank(db.rows[id])
  {
    if st.ClaimCandidates? {
      ClaimStep(db, st, id);
    } else if !st.Insert? {
      ChangesOfStatement(db, st);
    }
  }

  /** At most one row per tenant and idempotency key. */
  ghost predicate UniqueKeys(rows: map<RowId, Row>) {
    forall id <- rows, other <- rows ::
      (id.tenantId == other.tenantId && rows[id].idempotencyKey.Some?
       && rows[id].idempotencyKey == rows[other].idempotencyKey) ==> id == other
  }

  lemma StatementKeepsUniqueKeys(db: Database, st: Statement)
    requires Inv(db) && Enabled(db, st) && UniqueKeys(db.rows)
    ensures UniqueKeys(Execute(db, st).rows)
  {
    var after := Execute(db, st).rows;
    forall id <- after | id in db.rows
      ensures after[id].idempotencyKey == db.rows[id].idempotencyKey
    {
      RowStep(db, st, id);
    }
  }

  ghost predicate Present(dbs: seq<Database>, id: RowId, i: nat, j: nat)
  {
    i <= j < |dbs| && forall k :: i <= k <= j ==> id in dbs[k].rows
  }

  ghost function Moves(dbs: seq<Database>, id: RowId, i: nat, j: nat): nat
    requires Present(dbs, id, i, j)
    decreases j - i
  {
    if i == j then 0
    else Moves(dbs, id, i, j - 1) + if Moved(dbs[j - 1].rows[id], dbs[j].rows[id]) then 1 else 0
  }

  lemma RankIsBounded(db: Database, id: RowId)
    requires Inv(db) && id in db.rows
    ensures 0 <= Rank(db.rows[id]) <= 2 * db.rows[id].maxAttempts + 1
  {
  }

  lemma {:induction false} MovesUseUpRank(dbs: seq<Database>, id: RowId, i: nat, j: nat)
    requires Present(dbs, id, i, j)
    requires forall k :: i <= k < j ==> Nearer(dbs[k].rows[id], dbs[k + 1].rows[id])
    ensures Moves(dbs, id, i, j) + Rank(dbs[j].rows[id]) <= Rank(dbs[i].rows[id])
    decreases j
  {
    if i < j {
      assert Present(dbs, id, i, j - 1);
      MovesUseUpRank(dbs, id, i, j - 1);
      assert Nearer(dbs[j - 1].rows[id], dbs[j - 1 + 1].rows[id]);
    }
  }

  /** However long a run is, a row changes at most 2 * maxAttempts + 1 times between insertion and cleanup. */
  lemma MovesAreBounded(dbs: seq<Database>, sts: seq<Statement>, id: RowId, i: nat, j: nat)
    requires Run(dbs, sts) && Inv(dbs[0]) && Present(dbs, id, i, j)
    ensures Moves(dbs, id, i, j) <= 2 * dbs[i].rows[id].maxAttempts + 1
  {
    forall k | i <= k < j
      ensures Nearer(dbs[k].rows[id], dbs[k + 1].rows[id])
    {
      RunKeepsInv(dbs, sts, k);
      RowStep(dbs[k], sts[k], id);
    }
    MovesUseUpRank(dbs, id, i, j);
    RunKeepsInv(dbs, sts, i);
    RankIsBounded(dbs[i], id);
    RunKeepsInv(dbs, sts, j);
    RankIsBounded(dbs[j], id);
  }
}
