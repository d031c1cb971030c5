/** The two challenge stores as objects: the Postgres one, whose read and update other statements may separate, and the
    in-memory one, whose operations each write the map once. */
module ChallengeStores {
  import opened Common
  import opened Challenges

  const MAX_CLEANUP := 1000

  /** An absent limit means the maximum; anything else outside 1 to 1000 is refused. */
  function CleanupLimit(value: Option<int>): (limit: Option<nat>)
    ensures limit.Some? <==> value.None? || 0 < value.value <= MAX_CLEANUP
    ensures limit.Some? ==> 0 < limit.value <= MAX_CLEANUP && (value.Some? ==> limit.value == value.value)
  {
    if value.None? then Some(MAX_CLEANUP)
    else if value.value <= 0 || value.value > MAX_CLEANUP then None
    else Some(value.value)
  }

  lemma ExpireOneMore(rows: Rows, chosen: set<Key>, key: Key, now: int)
    requires key in rows && key !in chosen
    ensures ExpireAll(rows, chosen, now)[key := MarkedExpired(rows[key], now)] == ExpireAll(rows, chosen + {key}, now)
  {
  }

  lemma NoneDueIsLeft(rows: Rows, chosen: set<Key>, tenantId: string, now: int)
    requires forall key :: key in rows ==> key in chosen || !Due(rows, key, tenantId, now)
    ensures forall key :: !Due(ExpireAll(rows, chosen, now), key, tenantId, now)
  {
  }

  class PostgresChallenges {
    var rows: Rows

    constructor ()
      ensures rows == map[]
    {
      rows := map[];
    }

    method FindById(key: Key) returns (c: Option<Challenge>)
      ensures c == if key in rows then Some(rows[key]) else None
    {
      return if key in rows then Some(rows[key]) else None;
    }

    /** Whatever other sessions commit before our next statement. */
    method Others(meanwhile: seq<Statement>)
      requires MayRunAll(rows, meanwhile)
      modifies this
      ensures rows == ExecutedAll(old(rows), meanwhile)
    {
      var i := 0;
      while i < |meanwhile|
        invariant 0 <= i <= |meanwhile|
        invariant MayRunAll(rows, meanwhile[i..])
        invariant ExecutedAll(rows, meanwhile[i..]) == ExecutedAll(old(rows), meanwhile)
      {
        assert meanwhile[i..][1..] == meanwhile[i + 1..];
        rows := Executed(rows, meanwhile[i]);
        i := i + 1;
      }
    }

    /** `update … where version = $3 and status = 'pending' returning *` */
    method UpdatePending(key: Key, version: nat, w: Write) returns (updated: Option<Challenge>)
      modifies this
      ensures rows == GuardedUpdate(old(rows), key, version, w)
      ensures updated == if GuardHolds(old(rows), key, version) then Some(rows[key]) else None
    {
      updated := None;
      if key in rows && rows[key].version == version && rows[key].status == Pending {
        rows := rows[key := Written(rows[key], w)];
        updated := Some(rows[key]);
      }
    }

    /** Whatever runs between the read and the update, the call is one atomic operation: at the read when nothing had
        to be written, else at the update. */
    method RecordFailedAttempt(key: Key, expectedVersion: nat, now: int, meanwhile: seq<Statement>)
      returns (answer: Answer)
      requires MayRunAll(rows, meanwhile)
      modifies this
      ensures PlanOf(RecordFailure, old(rows), key, expectedVersion, now).Reply? ==>
                Outcome(rows, answer) == RecordFailureAtOnce(old(rows), key, expectedVersion, now)
      ensures PlanOf(RecordFailure, old(rows), key, expectedVersion, now).Try? ==>
                Outcome(rows, answer)
                == RecordFailureAtOnce(ExecutedAll(old(rows), meanwhile), key, expectedVersion, now)
    {
      var current := FindById(key);
      if current.None? {
        return NotFound;
      }
      var c := current.value;
      if c.version != expectedVersion || c.status == Consumed {
        return VersionConflict;
      }
      if c.status == Failed || c.attempts >= c.maxAttempts {
        return AttemptsExceeded(Some(c));
      }
      if c.status == Expired {
        return HasExpired(Some(c));
      }
      PlanNeedsOnlyTheRow(RecordFailure, rows, key, expectedVersion, now);
      StatementsKeepMemory(rows, meanwhile, key, c);
      Others(meanwhile);
      UpdateIsAtOnce(RecordFailure, c, rows, key, expectedVersion, now);
      if c.expiresAt <= now {
        var expired := UpdatePending(key, expectedVersion, Expire(now));
        return if expired.Some? then HasExpired(expired) else VersionConflict;
      }
      var attempts := c.attempts + 1;
      var status := if attempts >= c.maxAttempts then Failed else c.status;
      var updated := UpdatePending(key, expectedVersion, CountFailure(attempts, status, now));
      if updated.None? {
        return VersionConflict;
      }
      return if status == Failed then AttemptsExceeded(updated) else Recorded(updated.value);
    }

    /** As above, exactly unless the challenge had failed and is past its expiry: then nothing is written and the
        answer is a conflict. */
    method ConsumePending(key: Key, expectedVersion: nat, now: int, meanwhile: seq<Statement>)
      returns (answer: Answer)
      requires MayRunAll(rows, meanwhile)
      modifies this
      ensures PlanOf(Op.ConsumePending, old(rows), key, expectedVersion, now).Reply? ==>
                Outcome(rows, answer) == ConsumeAtOnce(old(rows), key, expectedVersion, now)
      ensures PlanOf(Op.ConsumePending, old(rows), key, expectedVersion, now).Try? ==>
                var between := ExecutedAll(old(rows), meanwhile);
                if FailedPastExpiry(Op.ConsumePending, between, key, expectedVersion, now)
                then rows == between && answer == VersionConflict
                else Outcome(rows, answer) == ConsumeAtOnce(between, key, expectedVersion, now)
    {
      var current := FindById(key);
      if current.None? {
        return NotFound;
      }
      var c := current.value;
      if c.version != expectedVersion {
        return VersionConflict;
      }
      if c.status == Consumed {
        return AlreadyConsumed;
      }
      if c.status == Expired {
        return HasExpired(None);
      }
      if c.expiresAt > now && (c.status == Failed || c.attempts >= c.maxAttempts) {
        return AttemptsExceeded(None);
      }
      PlanNeedsOnlyTheRow(Op.ConsumePending, rows, key, expectedVersion, now);
      StatementsKeepMemory(rows, meanwhile, key, c);
      Others(meanwhile);
      UpdateIsAtOnce(Op.ConsumePending, c, rows, key, expectedVersion, now);
      if c.expiresAt <= now {
        var expired := UpdatePending(key, expectedVersion, Expire(now));
        return if expired.Some? then HasExpired(None) else VersionConflict;
      }
      var updated := UpdatePending(key, expectedVersion, Consume(now));
      return if updated.Some? then NowConsumed else VersionConflict;
    }
  }

  class MemoryChallenges {
    var order: seq<Key>
    var rows: Rows

    ghost predicate Valid()
      reads this
    {
      && (forall key :: key in rows <==> key in order)
      && (forall i, j :: 0 <= i < j < |order| ==> order[i] != order[j])
    }

    constructor ()
      ensures Valid() && rows == map[] && order == []
    {
      order, rows := [], map[];
    }

    method Create(key: Key, c: Challenge) returns (created: bool)
      requires Valid()
      modifies this
      ensures Valid() && created == (key !in old(rows))
      ensures rows == if created then old(rows)[key := c] else old(rows)
    {
      if key in rows {
        return false;
      }
      order, rows := order + [key], rows[key := c];
      return true;
    }

    method RecordFailedAttempt(key: Key, expectedVersion: nat, now: int) returns (answer: Answer)
      requires Valid()
      modifies this`rows
      ensures Valid() && Outcome(rows, answer) == TwoStep(RecordFailure, old(rows), key, expectedVersion, now)
    {
      AloneTheFormsAgree(RecordFailure, rows, key, expectedVersion, now);
      if key !in rows {
        return NotFound;
      }
      var c := rows[key];
      if c.version != expectedVersion || c.status == Consumed {
        return VersionConflict;
      }
      if c.status == Failed || c.attempts >= c.maxAttempts {
        return AttemptsExceeded(Some(c));
      }
      if c.status == Expired {
        return HasExpired(Some(c));
      }
      if c.expiresAt <= now {
        rows := rows[key := MarkedExpired(c, now)];
        return HasExpired(Some(rows[key]));
      }
      rows := rows[key := WithFailure(c, now)];
      return if rows[key].status == Failed then AttemptsExceeded(Some(rows[key])) else Recorded(rows[key]);
    }

    method ConsumePending(key: Key, expectedVersion: nat, now: int) returns (answer: Answer)
      requires Valid()
      modifies this`rows
      ensures Valid()
      ensures !FailedPastExpiry(Op.ConsumePending, old(rows), key, expectedVersion, now) ==>
                Outcome(rows, answer) == TwoStep(Op.ConsumePending, old(rows), key, expectedVersion, now)
      ensures FailedPastExpiry(Op.ConsumePending, old(rows), key, expectedVersion, now) ==>
                rows == old(rows)[key := MarkedExpired(old(rows)[key], now)] && answer == HasExpired(None)
    {
      AloneTheFormsAgree(Op.ConsumePending, rows, key, expectedVersion, now);
      if key !in rows {
        return NotFound;
      }
      var c := rows[key];
      if c.version != expectedVersion {
        return VersionConflict;
      }
      if c.status == Consumed {
        return AlreadyConsumed;
      }
      if c.status == Expired {
        return HasExpired(None);
      }
      if c.expiresAt <= now {
        rows := rows[key := MarkedExpired(c, now)];
        return HasExpired(None);
      }
      if c.status == Failed || c.attempts >= c.maxAttempts {
        return AttemptsExceeded(None);
      }
      rows := rows[key := MarkedConsumed(c, now)];
      return NowConsumed;
    }

    /** Expires due challenges oldest entry first: one of the sets the Postgres statement may pick, as large as the
        limit allows. */
    method CleanupExpired(tenantId: string, now: int, limit: Option<int>)
      returns (count: Option<nat>, ghost chosen: set<Key>)
      requires Valid()
      modifies this`rows
      ensures Valid() && (count.Some? <==> CleanupLimit(limit).Some?)
      ensures count.None? ==> rows == old(rows)
      ensures count.Some? ==>
                && count.value == |chosen|
                && MayRun(old(rows), Cleanup(tenantId, now, CleanupLimit(limit).value, chosen))
                && rows == Executed(old(rows), Cleanup(tenantId, now, CleanupLimit(limit).value, chosen))
                && (count.value < CleanupLimit(limit).value ==> forall key :: !Due(rows, key, tenantId, now))
      ensures count.Some? ==> forall i, j :: 0 <= i < j < |order| && order[j] in chosen ==>
                                order[i] in chosen || !Due(old(rows), order[i], tenantId, now)
    {
      var bound := CleanupLimit(limit);
      chosen := {};
      if bound.None? {
        return None, chosen;
      }
      ghost var before := rows;
      var done := 0;
      var i := 0;
      assert ExpireAll(before, chosen, now) == before;
      while i < |order|
        invariant 0 <= i <= |order| && order == old(order) && done == |chosen| <= bound.value
        invariant rows == ExpireAll(before, chosen, now)
        invariant forall key :: key in chosen ==> Due(before, key, tenantId, now)
        invariant forall j :: 0 <= j < i ==> order[j] in chosen || !Due(before, order[j], tenantId, now)
        invariant forall j :: i <= j < |order| ==> order[j] !in chosen
      {
        var key := order[i];
        assert key in before && rows[key] == before[key];
        if key.tenantId == tenantId && rows[key].status == Pending && rows[key].expiresAt <= now {
          if done >= bound.value {
            break;
          }
          ExpireOneMore(before, chosen, key, now);
          rows := rows[key := MarkedExpired(rows[key], now)];
          chosen := chosen + {key};
          done := done + 1;
        }
        i := i + 1;
      }
      if done < bound.value {
        NoneDueIsLeft(before, chosen, tenantId, now);
      }
      return Some(done), chosen;
    }
  }
}
