/** Challenge records and the two ways a store may change them: one atomic update of a map, or a read followed by an
    update guarded by version and status. */
module Challenges {
  import opened Common

  datatype Status = Pending | Consumed | Expired | Failed

  datatype Key = Key(tenantId: string, challengeId: string)

  /** What no operation may touch. */
  datatype Payload = Payload(methodId: string, methodKind: string, lookup: string, material: string, binding: string)

  datatype Challenge = Challenge(status: Status, attempts: nat, maxAttempts: nat, version: nat, expiresAt: int,
                                 consumedAt: Option<int>, createdAt: int, updatedAt: int, payload: Payload)

  type Rows = map<Key, Challenge>

  datatype Op = RecordFailure | ConsumePending

  datatype Answer =
    | NotFound
    | VersionConflict
    | AlreadyConsumed
    | HasExpired(challenge: Option<Challenge>)
    | AttemptsExceeded(challenge: Option<Challenge>)
    | Recorded(updated: Challenge)
    | NowConsumed

  datatype Outcome = Outcome(rows: Rows, answer: Answer)

  // ---- The atomic form ----

  function MarkedExpired(c: Challenge, now: int): Challenge {
    c.(status := Expired, updatedAt := now, version := c.version + 1)
  }

  function WithFailure(c: Challenge, now: int): Challenge {
    var attempts := c.attempts + 1;
    c.(attempts := attempts, status := if attempts >= c.maxAttempts then Failed else c.status, updatedAt := now,
       version := c.version + 1)
  }

  function MarkedConsumed(c: Challenge, now: int): Challenge {
    c.(status := Consumed, consumedAt := Some(now), version := c.version + 1, updatedAt := now)
  }

  function RecordFailureAtOnce(rows: Rows, key: Key, version: nat, now: int): Outcome {
    if key !in rows then Outcome(rows, NotFound)
    else
      var c := rows[key];
      if c.version != version || c.status == Consumed then Outcome(rows, VersionConflict)
      else if c.status == Failed || c.attempts >= c.maxAttempts then Outcome(rows, AttemptsExceeded(Some(c)))
      else if c.status == Expired then Outcome(rows, HasExpired(Some(c)))
      else if c.expiresAt <= now then
        var expired := MarkedExpired(c, now);
        Outcome(rows[key := expired], HasExpired(Some(expired)))
      else
        var updated := WithFailure(c, now);
        Outcome(rows[key := updated],
                if updated.status == Failed then AttemptsExceeded(Some(updated)) else Recorded(updated))
  }

  function ConsumeAtOnce(rows: Rows, key: Key, version: nat, now: int): Outcome {
    if key !in rows then Outcome(rows, NotFound)
    else
      var c := rows[key];
      if c.version != version then Outcome(rows, VersionConflict)
      else if c.status == Consumed then Outcome(rows, AlreadyConsumed)
      else if c.status == Expired then Outcome(rows, HasExpired(None))
      else if c.expiresAt <= now then Outcome(rows[key := MarkedExpired(c, now)], HasExpired(None))
      else if c.status == Failed || c.attempts >= c.maxAttempts then Outcome(rows, AttemptsExceeded(None))
      else Outcome(rows[key := MarkedConsumed(c, now)], NowConsumed)
  }

  function AtOnce(op: Op, rows: Rows, key: Key, version: nat, now: int): Outcome {
    match op
    case RecordFailure => RecordFailureAtOnce(rows, key, version, now)
    case ConsumePending => ConsumeAtOnce(rows, key, version, now)
  }

  // ---- The read and the guarded update ----

  /** What the update sets, computed from the row that was read. */
  datatype Write =
    | Expire(now: int)
    | CountFailure(attempts: nat, status: Status, now: int)
    | Consume(now: int)

  datatype Plan = Reply(answer: Answer) | Try(write: Write)

  function PlanFailure(c: Challenge, version: nat, now: int): Plan {
    if c.version != version then Reply(VersionConflict)
    else if c.status == Consumed then Reply(VersionConflict)
    else if c.status == Failed || c.attempts >= c.maxAttempts then Reply(AttemptsExceeded(Some(c)))
    else if c.status == Expired then Reply(HasExpired(Some(c)))
    else if c.expiresAt <= now then Try(Expire(now))
    else
      var attempts := c.attempts + 1;
      Try(CountFailure(attempts, if attempts >= c.maxAttempts then Failed else c.status, now))
  }

  function PlanConsume(c: Challenge, version: nat, now: int): Plan {
    if c.version != version then Reply(VersionConflict)
    else if c.status == Consumed then Reply(AlreadyConsumed)
    else if c.status == Expired then Reply(HasExpired(None))
    else if c.expiresAt <= now then Try(Expire(now))
    else if c.status == Failed || c.attempts >= c.maxAttempts then Reply(AttemptsExceeded(None))
    else Try(Consume(now))
  }

  function PlanOf(op: Op, rows: Rows, key: Key, version: nat, now: int): Plan {
    if key !in rows then Reply(NotFound)
    else
      match op
      case RecordFailure => PlanFailure(rows[key], version, now)
      case ConsumePending => PlanConsume(rows[key], version, now)
  }

  function Written(c: Challenge, w: Write): Challenge {
    match w
    case Expire(now) => c.(status := Expired, version := c.version + 1, updatedAt := now)
    case CountFailure(attempts, status, now) =>
      c.(attempts := attempts, status := status, version := c.version + 1, updatedAt := now)
    case Consume(now) => c.(status := Consumed, consumedAt := Some(now), version := c.version + 1, updatedAt := now)
  }

  predicate GuardHolds(rows: Rows, key: Key, version: nat) {
    key in rows && rows[key].version == version && rows[key].status == Pending
  }

  function GuardedUpdate(rows: Rows, key: Key, version: nat, w: Write): Rows {
    if GuardHolds(rows, key, version) then rows[key := Written(rows[key], w)] else rows
  }

  /** The answer once the update returned a row, or none. */
  function AnswerAfter(op: Op, w: Write, updated: Option<Challenge>): Answer {
    if updated.None? then VersionConflict
    else
      match op
      case ConsumePending => if w.Expire? then HasExpired(None) else NowConsumed
      case RecordFailure =>
        if w.Expire? then HasExpired(updated)
        else if w.CountFailure? && w.status == Failed then AttemptsExceeded(updated)
        else Recorded(updated.value)
  }

  function WriteStep(op: Op, rows: Rows, key: Key, version: nat, w: Write): Outcome {
    var after := GuardedUpdate(rows, key, version, w);
    Outcome(after, AnswerAfter(op, w, if GuardHolds(rows, key, version) then Some(after[key]) else None))
  }

  // ---- What others may do between the read and the update ----

  datatype Statement =
    | Insert(key: Key, challenge: Challenge)
    | Update(key: Key, version: nat, write: Write)
    | Cleanup(tenantId: string, now: int, limit: nat, chosen: set<Key>)

  predicate Due(rows: Rows, key: Key, tenantId: string, now: int) {
    key in rows && key.tenantId == tenantId && rows[key].status == Pending && rows[key].expiresAt <= now
  }

  function ExpireAll(rows: Rows, chosen: set<Key>, now: int): Rows {
    map key | key in rows :: if key in chosen then MarkedExpired(rows[key], now) else rows[key]
  }

  predicate MayRun(rows: Rows, s: Statement) {
    match s
    case Insert(_, _) => true
    case Update(_, _, _) => true
    case Cleanup(tenantId, now, limit, chosen) =>
      |chosen| <= limit && forall key :: key in chosen ==> Due(rows, key, tenantId, now)
  }

  /** An insert of a key that exists is refused by the primary key. */
  function Executed(rows: Rows, s: Statement): Rows {
    match s
    case Insert(key, challenge) => if key in rows then rows else rows[key := challenge]
    case Update(key, version, write) => GuardedUpdate(rows, key, version, write)
    case Cleanup(_, now, _, chosen) => ExpireAll(rows, chosen, now)
  }

  /** What was once read is still the row, as long as the version is the same. */
  predicate Remembers(rows: Rows, key: Key, seen: Challenge) {
    && key in rows
    && seen.version <= rows[key].version
    && (rows[key].version == seen.version ==> rows[key] == seen)
  }

  lemma StatementKeepsMemory(rows: Rows, s: Statement, key: Key, seen: Challenge)
    requires MayRun(rows, s) && Remembers(rows, key, seen)
    ensures Remembers(Executed(rows, s), key, seen)
  {
  }

  predicate MayRunAll(rows: Rows, ss: seq<Statement>)
    decreases |ss|
  {
    ss == [] || (MayRun(rows, ss[0]) && MayRunAll(Executed(rows, ss[0]), ss[1..]))
  }

  function ExecutedAll(rows: Rows, ss: seq<Statement>): Rows
    decreases |ss|
  {
    if ss == [] then rows else ExecutedAll(Executed(rows, ss[0]), ss[1..])
  }

  lemma {:induction false} StatementsKeepMemory(rows: Rows, ss: seq<Statement>, key: Key, seen: Challenge)
    requires MayRunAll(rows, ss) && Remembers(rows, key, seen)
    ensures Remembers(ExecutedAll(rows, ss), key, seen)
    decreases |ss|
  {
    if ss != [] {
      StatementKeepsMemory(rows, ss[0], key, seen);
      StatementsKeepMemory(Executed(rows, ss[0]), ss[1..], key, seen);
    }
  }

  // ---- Agreement of the two forms ----

  /** Consuming a challenge that failed and is past its expiry: the atomic form turns it into an expired one, the
      guarded update finds no pending row. */
  predicate FailedPastExpiry(op: Op, rows: Rows, key: Key, version: nat, now: int) {
    && op == ConsumePending && key in rows
    && rows[key].version == version && rows[key].status == Failed && rows[key].expiresAt <= now
  }

  /** A plan to answer at once is what the atomic form does at the moment of the read. */
  lemma ReplyIsAtOnce(op: Op, rows: Rows, key: Key, version: nat, now: int)
    requires PlanOf(op, rows, key, version, now).Reply?
    ensures AtOnce(op, rows, key, version, now) == Outcome(rows, PlanOf(op, rows, key, version, now).answer)
  {
  }

  /** A planned update, whenever it runs, does what the atomic form does at that moment, whatever others did since the
      read, exactly unless the challenge had failed and is past its expiry. */
  lemma UpdateIsAtOnce(op: Op, seen: Challenge, rows: Rows, key: Key, version: nat, now: int)
    requires Remembers(rows, key, seen)
    requires PlanOf(op, map[key := seen], key, version, now).Try?
    ensures var w := PlanOf(op, map[key := seen], key, version, now).write;
            WriteStep(op, rows, key, version, w) == AtOnce(op, rows, key, version, now)
            <==> !FailedPastExpiry(op, rows, key, version, now)
  {
    assert map[key := seen][key] == seen;
    var w := PlanOf(op, map[key := seen], key, version, now).write;
    if rows[key].version == version {
      assert rows[key] == seen;
    }
  }

  function TwoStep(op: Op, rows: Rows, key: Key, version: nat, now: int): Outcome {
    var plan := PlanOf(op, rows, key, version, now);
    if plan.Reply? then Outcome(rows, plan.answer) else WriteStep(op, rows, key, version, plan.write)
  }

  /** Left alone, the pair of statements answers and stores what the atomic form does, exactly outside that one case,
      where it leaves the row and reports a conflict while the atomic form writes and reports an expiry. */
  lemma AloneTheFormsAgree(op: Op, rows: Rows, key: Key, version: nat, now: int)
    ensures TwoStep(op, rows, key, version, now) == AtOnce(op, rows, key, version, now)
            <==> !FailedPastExpiry(op, rows, key, version, now)
    ensures FailedPastExpiry(op, rows, key, version, now) ==>
              && TwoStep(op, rows, key, version, now) == Outcome(rows, VersionConflict)
              && AtOnce(op, rows, key, version, now)
                 == Outcome(rows[key := MarkedExpired(rows[key], now)], HasExpired(None))
  {
    if PlanOf(op, rows, key, version, now).Reply? {
      ReplyIsAtOnce(op, rows, key, version, now);
    } else {
      PlanNeedsOnlyTheRow(op, rows, key, version, now);
      UpdateIsAtOnce(op, rows[key], rows, key, version, now);
    }
  }

  lemma PlanNeedsOnlyTheRow(op: Op, rows: Rows, key: Key, version: nat, now: int)
    requires key in rows
    ensures PlanOf(op, map[key := rows[key]], key, version, now) == PlanOf(op, rows, key, version, now)
  {
  }

  // ---- What core accepts as the answer to a failed attempt ----

  predicate IsChallengeRecord(c: Challenge) {
    0 < c.maxAttempts && c.attempts <= c.maxAttempts && 0 < c.version && c.createdAt <= c.updatedAt
  }

  predicate SamePayload(left: Challenge, right: Challenge) {
    && left.payload == right.payload && left.maxAttempts == right.maxAttempts && left.expiresAt == right.expiresAt
    && left.createdAt == right.createdAt && left.consumedAt == right.consumedAt
  }

  predicate IsFailedAttemptTransition(previous: Challenge, answer: Answer, now: int) {
    match answer
    case VersionConflict => true
    case Recorded(current) =>
      && IsChallengeRecord(current) && SamePayload(previous, current) && current.updatedAt == now
      && current.status == Pending && current.attempts == previous.attempts + 1
      && current.attempts < current.maxAttempts && current.version == previous.version + 1
    case AttemptsExceeded(Some(current)) =>
      && IsChallengeRecord(current) && SamePayload(previous, current) && current.updatedAt == now
      && current.status == Failed && current.attempts == previous.attempts + 1
      && current.attempts == current.maxAttempts && current.version == previous.version + 1
    case HasExpired(Some(current)) =>
      && IsChallengeRecord(current) && SamePayload(previous, current) && current.updatedAt == now
      && current.status == Expired && previous.expiresAt <= now
      && current.attempts == previous.attempts && current.version == previous.version + 1
    case _ => false
  }

  /** What core has seen before it asks for a failed attempt to be recorded. */
  predicate CoreAccepts(c: Challenge) {
    IsChallengeRecord(c) && c.status == Pending && c.attempts < c.maxAttempts
  }

  /** Core's check passes on the answer the atomic form gives to a challenge core still remembers, exactly when that
      answer is a conflict or the clock has not gone back behind the challenge's creation. */
  lemma CoreCheckPassesExactly(previous: Challenge, rows: Rows, key: Key, now: int)
    requires CoreAccepts(previous) && Remembers(rows, key, previous)
    ensures var answer := RecordFailureAtOnce(rows, key, previous.version, now).answer;
            && (answer == VersionConflict <==> rows[key].version != previous.version)
            && (IsFailedAttemptTransition(previous, answer, now)
                <==> answer == VersionConflict || previous.createdAt <= now)
  {
    if rows[key].version == previous.version {
      assert rows[key] == previous;
    }
  }

  const EXAMPLE_PAYLOAD := Payload("code", "otp", "a@b", "hash", "{}")
  const EXAMPLE_KEY := Key("tenant", "challenge")

  /** A challenge created at 50 and failed by a caller whose clock reads 40: the store counts the failure and core
      rejects the answer. */
  lemma ClockBehindCreationIsRejected()
    ensures var c := Challenge(Pending, 0, 3, 1, 100, None, 50, 50, EXAMPLE_PAYLOAD);
            var answer := RecordFailureAtOnce(map[EXAMPLE_KEY := c], EXAMPLE_KEY, 1, 40).answer;
            CoreAccepts(c) && answer.Recorded? && !IsFailedAttemptTransition(c, answer, 40)
  {
  }

  /** A failed challenge consumed after its expiry: the two forms differ in answer and in row. */
  lemma FailedPastExpiryDiffers()
    ensures var rows := map[EXAMPLE_KEY := Challenge(Failed, 3, 3, 4, 100, None, 50, 60, EXAMPLE_PAYLOAD)];
            && TwoStep(ConsumePending, rows, EXAMPLE_KEY, 4, 100).answer == VersionConflict
            && AtOnce(ConsumePending, rows, EXAMPLE_KEY, 4, 100).answer == HasExpired(None)
            && TwoStep(ConsumePending, rows, EXAMPLE_KEY, 4, 100).rows[EXAMPLE_KEY].status == Failed
            && AtOnce(ConsumePending, rows, EXAMPLE_KEY, 4, 100).rows[EXAMPLE_KEY].status == Expired
  {
  }
}
