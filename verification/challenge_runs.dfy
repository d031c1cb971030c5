/** Any number of callers whose read and guarded update are separate steps, and cleanups, interleaved in any order
    under any clocks. */
module ChallengeRuns {
  import opened Common
  import opened Challenges

  /** A call in progress. `previous` is the challenge core read before the call, when there was such a read. */
  datatype Call = Call(key: Key, previous: Option<Challenge>, version: nat, op: Op, now: int)

  datatype Caller =
    | Checked(key: Key, challenge: Challenge)
    | Writing(call: Call, seen: Challenge, write: Write)
    | Answered(call: Call, answer: Answer)

  /** `failures` counts the updates that recorded a failed attempt since creation; `consumptions` counts the calls that
      were told the challenge is now consumed. */
  datatype System = System(rows: Rows, callers: map<nat, Caller>, failures: map<Key, nat>, consumptions: map<Key, nat>)

  datatype Action =
    | Create(key: Key, challenge: Challenge)
    | ExpireDue(cleanup: Statement)
    | CoreRead(pid: nat, key: Key)
    | Read(pid: nat, call: Call)
    | Commit(pid: nat)
    | Forget(pid: nat)

  function CountOf(counts: map<Key, nat>, key: Key): nat {
    if key in counts then counts[key] else 0
  }

  /** A call core makes names the key and version of the challenge it read. */
  predicate MayCall(s: System, pid: nat, call: Call) {
    if call.previous.Some? then
      && pid in s.callers && s.callers[pid] == Checked(call.key, call.previous.value)
      && call.version == call.previous.value.version
    else pid !in s.callers
  }

  predicate CanAct(s: System, a: Action) {
    match a
    case Create(key, c) =>
      && key !in s.rows && IsChallengeRecord(c) && c.status == Pending && c.attempts == 0 && c.consumedAt.None?
    case ExpireDue(cleanup) => cleanup.Cleanup? && MayRun(s.rows, cleanup)
    case CoreRead(pid, key) => pid !in s.callers && key in s.rows && CoreAccepts(s.rows[key])
    case Read(pid, call) => MayCall(s, pid, call)
    case Commit(pid) => pid in s.callers && s.callers[pid].Writing?
    case Forget(pid) => pid in s.callers
  }

  function Reading(s: System, pid: nat, call: Call): System {
    var plan := PlanOf(call.op, s.rows, call.key, call.version, call.now);
    s.(callers := s.callers[pid := if plan.Reply? then Answered(call, plan.answer)
                                   else Writing(call, s.rows[call.key], plan.write)])
  }

  function Committing(s: System, pid: nat, call: Call, w: Write): System {
    var out := WriteStep(call.op, s.rows, call.key, call.version, w);
    var held := GuardHolds(s.rows, call.key, call.version);
    System(out.rows, s.callers[pid := Answered(call, out.answer)],
           if held && w.CountFailure? then s.failures[call.key := CountOf(s.failures, call.key) + 1] else s.failures,
           if out.answer == NowConsumed then s.consumptions[call.key := CountOf(s.consumptions, call.key) + 1]
           else s.consumptions)
  }

  function Act(s: System, a: Action): System
    requires CanAct(s, a)
  {
    match a
    case Create(key, c) => s.(rows := s.rows[key := c])
    case ExpireDue(cleanup) => s.(rows := Executed(s.rows, cleanup))
    case CoreRead(pid, key) => s.(callers := s.callers[pid := Checked(key, s.rows[key])])
    case Read(pid, call) => Reading(s, pid, call)
    case Commit(pid) => Committing(s, pid, s.callers[pid].call, s.callers[pid].write)
    case Forget(pid) => s.(callers := s.callers - {pid})
  }

  const INITIAL := System(map[], map[], map[], map[])

  ghost predicate Behaviour(states: seq<System>, actions: seq<Action>) {
    && |states| == |actions| + 1 && states[0] == INITIAL
    && forall k :: 0 <= k < |actions| ==> CanAct(states[k], actions[k]) && states[k + 1] == Act(states[k], actions[k])
  }

  // ---- The invariant ----

  predicate RowOk(c: Challenge, failures: nat, consumptions: nat) {
    && IsChallengeLimits(c)
    && (c.status == Failed <==> c.attempts == c.maxAttempts)
    && (c.status == Consumed <==> c.consumedAt.Some?)
    && (c.consumedAt.Some? ==> c.consumedAt.value < c.expiresAt)
    && c.attempts == failures
    && consumptions == (if c.status == Consumed then 1 else 0)
  }

  predicate IsChallengeLimits(c: Challenge) {
    0 < c.maxAttempts && c.attempts <= c.maxAttempts && 0 < c.version
  }

  predicate KeyOk(rows: Rows, failures: map<Key, nat>, consumptions: map<Key, nat>, key: Key) {
    if key in rows then RowOk(rows[key], CountOf(failures, key), CountOf(consumptions, key))
    else CountOf(failures, key) == 0 && CountOf(consumptions, key) == 0
  }

  ghost predicate RowsOk(s: System) {
    forall key :: KeyOk(s.rows, s.failures, s.consumptions, key)
  }

  predicate CallOk(rows: Rows, call: Call) {
    call.previous.Some? ==>
      && Remembers(rows, call.key, call.previous.value) && CoreAccepts(call.previous.value)
      && call.version == call.previous.value.version
  }

  /** Every answer to a failed attempt is one core's check accepts, exactly when the check should. */
  predicate AnswerOk(call: Call, answer: Answer) {
    call.previous.Some? && call.op == RecordFailure ==>
      (IsFailedAttemptTransition(call.previous.value, answer, call.now)
       <==> answer == VersionConflict || call.previous.value.createdAt <= call.now)
  }

  predicate CallerOk(rows: Rows, caller: Caller) {
    match caller
    case Checked(key, c) => Remembers(rows, key, c) && CoreAccepts(c)
    case Writing(call, seen, write) =>
      && CallOk(rows, call) && Remembers(rows, call.key, seen) && seen.version == call.version
      && PlanOf(call.op, map[call.key := seen], call.key, call.version, call.now) == Try(write)
    case Answered(call, answer) => AnswerOk(call, answer)
  }

  ghost predicate Inv(s: System) {
    RowsOk(s) && forall pid :: pid in s.callers ==> CallerOk(s.rows, s.callers[pid])
  }

  // ---- Every step keeps it ----

  predicate Grows(before: Rows, after: Rows) {
    forall key :: key in before ==> key in after && Follows(before[key], after[key])
  }

  /** A row changes only with its version, and not at all once it is settled. */
  predicate Follows(c: Challenge, d: Challenge) {
    c.version <= d.version && (c.version == d.version ==> d == c) && (c.status != Pending ==> d == c)
  }

  lemma CallersKept(s: System, after: Rows)
    requires Inv(s) && Grows(s.rows, after)
    ensures forall pid :: pid in s.callers ==> CallerOk(after, s.callers[pid])
  {
  }

  lemma StepGrows(s: System, a: Action)
    requires CanAct(s, a)
    ensures Grows(s.rows, Act(s, a).rows)
  {
  }

  lemma AnswerAtOnceOk(rows: Rows, call: Call, answer: Answer)
    requires CallOk(rows, call)
    requires call.op == RecordFailure ==>
               answer == RecordFailureAtOnce(rows, call.key, call.version, call.now).answer
    ensures AnswerOk(call, answer)
  {
  }

  lemma ReadKeepsInv(s: System, pid: nat, call: Call)
    requires Inv(s) && MayCall(s, pid, call)
    ensures Inv(Reading(s, pid, call))
  {
  }

  lemma WrittenRowOk(call: Call, c: Challenge, w: Write, failures: nat, consumptions: nat)
    requires RowOk(c, failures, consumptions) && c.status == Pending && c.version == call.version
    requires PlanOf(call.op, map[call.key := c], call.key, call.version, call.now) == Try(w)
    ensures RowOk(Written(c, w), failures + if w.CountFailure? then 1 else 0,
                  consumptions + if w.Consume? then 1 else 0)
    ensures w.Consume? <==> AnswerAfter(call.op, w, Some(Written(c, w))) == NowConsumed
    ensures w.Consume? ==> call.now < c.expiresAt && failures < c.maxAttempts
  {
  }

  lemma CommitKeepsKey(s: System, pid: nat, key: Key)
    requires pid in s.callers && s.callers[pid].Writing? && CallerOk(s.rows, s.callers[pid])
    requires KeyOk(s.rows, s.failures, s.consumptions, key)
    ensures var after := Committing(s, pid, s.callers[pid].call, s.callers[pid].write);
            KeyOk(after.rows, after.failures, after.consumptions, key)
  {
    var Writing(call, seen, w) := s.callers[pid];
    if key == call.key && GuardHolds(s.rows, key, call.version) {
      assert s.rows[key] == seen;
      WrittenRowOk(call, seen, w, CountOf(s.failures, key), CountOf(s.consumptions, key));
    }
  }

  lemma CommitKeepsInv(s: System, pid: nat)
    requires Inv(s) && pid in s.callers && s.callers[pid].Writing?
    ensures Inv(Committing(s, pid, s.callers[pid].call, s.callers[pid].write))
  {
    StepGrows(s, Commit(pid));
    var Writing(call, seen, w) := s.callers[pid];
    var after := Committing(s, pid, call, w);
    CallersKept(s, after.rows);
    assert CallerOk(s.rows, s.callers[pid]);
    forall key
      ensures KeyOk(after.rows, after.failures, after.consumptions, key)
    {
      CommitKeepsKey(s, pid, key);
    }
    UpdateIsAtOnce(call.op, seen, s.rows, call.key, call.version, call.now);
    AnswerAtOnceOk(s.rows, call, WriteStep(call.op, s.rows, call.key, call.version, w).answer);
    assert CallerOk(after.rows, after.callers[pid]);
  }

  lemma TableStepKeepsInv(s: System, a: Action)
    requires Inv(s) && CanAct(s, a) && (a.Create? || a.ExpireDue?)
    ensures Inv(Act(s, a))
  {
    StepGrows(s, a);
    CallersKept(s, Act(s, a).rows);
    forall key
      ensures KeyOk(Act(s, a).rows, s.failures, s.consumptions, key)
    {
      assert KeyOk(s.rows, s.failures, s.consumptions, key);
    }
  }

  lemma StepKeepsInv(s: System, a: Action)
    requires Inv(s) && CanAct(s, a)
    ensures Inv(Act(s, a))
  {
    match a
    case Create(_, _) => TableStepKeepsInv(s, a);
    case ExpireDue(_) => TableStepKeepsInv(s, a);
    case CoreRead(pid, key) => assert CallerOk(s.rows, Checked(key, s.rows[key]));
    case Read(pid, call) => ReadKeepsInv(s, pid, call);
    case Commit(pid) => CommitKeepsInv(s, pid);
    case Forget(_) =>
  }

  lemma {:induction false} ReachableInv(states: seq<System>, actions: seq<Action>, k: nat)
    requires Behaviour(states, actions) && k < |states|
    ensures Inv(states[k])
  {
    if k > 0 {
      ReachableInv(states, actions, k - 1);
      StepKeepsInv(states[k - 1], actions[k - 1]);
    }
  }

  // ---- Main results ----

  /** Over any run, a challenge is consumed at most once and its stored attempts are the failures recorded. */
  lemma ConsumedAtMostOnce(states: seq<System>, actions: seq<Action>, k: nat, key: Key)
    requires Behaviour(states, actions) && k < |states|
    ensures CountOf(states[k].consumptions, key) <= 1
    ensures key in states[k].rows ==>
              && states[k].rows[key].attempts == CountOf(states[k].failures, key) <= states[k].rows[key].maxAttempts
              && (CountOf(states[k].consumptions, key) == 1 <==> states[k].rows[key].status == Consumed)
              && (states[k].rows[key].status == Failed <==>
                  CountOf(states[k].failures, key) == states[k].rows[key].maxAttempts)
  {
    ReachableInv(states, actions, k);
    assert KeyOk(states[k].rows, states[k].failures, states[k].consumptions, key);
  }

  /** A step that answers 'consumed' found the challenge pending, with failures to spare and never consumed before, and
      neither the read nor the update saw it expired at the time the caller gave. */
  lemma ConsumedOnlyWhenAllowed(states: seq<System>, actions: seq<Action>, k: nat, pid: nat)
    requires Behaviour(states, actions) && k < |actions| && actions[k] == Commit(pid)
    requires states[k + 1].callers[pid].answer == NowConsumed
    ensures var call := states[k].callers[pid].call;
            && call.key in states[k].rows && states[k].rows[call.key] == states[k].callers[pid].seen
            && states[k].rows[call.key].status == Pending
            && CountOf(states[k].failures, call.key) < states[k].rows[call.key].maxAttempts
            && CountOf(states[k].consumptions, call.key) == 0
            && call.now < states[k].rows[call.key].expiresAt
  {
    ReachableInv(states, actions, k);
    var s := states[k];
    var Writing(call, seen, w) := s.callers[pid];
    assert CallerOk(s.rows, s.callers[pid]);
    assert GuardHolds(s.rows, call.key, call.version);
    assert s.rows[call.key] == seen && KeyOk(s.rows, s.failures, s.consumptions, call.key);
    WrittenRowOk(call, seen, w, CountOf(s.failures, call.key), CountOf(s.consumptions, call.key));
  }

  lemma NextGrows(states: seq<System>, actions: seq<Action>, k: nat)
    requires Behaviour(states, actions) && k < |actions|
    ensures Grows(states[k].rows, states[k + 1].rows)
  {
  }

  lemma FollowsOn(before: Rows, after: Rows, c: Challenge, key: Key)
    requires Grows(before, after) && key in before && Follows(c, before[key])
    ensures key in after && Follows(c, after[key])
  {
  }

  lemma {:induction false} TablesFollow(tables: seq<Rows>, j: nat, k: nat, key: Key)
    requires forall i :: 0 < i < |tables| ==> Grows(tables[i - 1], tables[i])
    requires j <= k < |tables| && key in tables[j]
    ensures key in tables[k] && Follows(tables[j][key], tables[k][key])
  {
    if j < k {
      TablesFollow(tables, j, k - 1, key);
      FollowsOn(tables[k - 1], tables[k], tables[j][key], key);
    }
  }

  lemma RowsFollow(states: seq<System>, actions: seq<Action>, j: nat, k: nat, key: Key)
    requires Behaviour(states, actions) && j <= k < |states| && key in states[j].rows
    ensures key in states[k].rows && Follows(states[j].rows[key], states[k].rows[key])
  {
    var tables := seq(|states|, i requires 0 <= i < |states| => states[i].rows);
    forall i | 0 < i < |tables|
      ensures Grows(tables[i - 1], tables[i])
    {
      NextGrows(states, actions, i - 1);
    }
    TablesFollow(tables, j, k, key);
  }

  /** Once consumed, failed or expired, a challenge never changes again, and nothing more is counted against it. */
  lemma SettledForGood(states: seq<System>, actions: seq<Action>, j: nat, k: nat, key: Key)
    requires Behaviour(states, actions) && j <= k < |states|
    requires key in states[j].rows && states[j].rows[key].status != Pending
    ensures key in states[k].rows && states[k].rows[key] == states[j].rows[key]
    ensures CountOf(states[k].failures, key) == CountOf(states[j].failures, key)
    ensures CountOf(states[k].consumptions, key) == CountOf(states[j].consumptions, key)
  {
    RowsFollow(states, actions, j, k, key);
    ReachableInv(states, actions, j);
    ReachableInv(states, actions, k);
    assert KeyOk(states[j].rows, states[j].failures, states[j].consumptions, key);
    assert KeyOk(states[k].rows, states[k].failures, states[k].consumptions, key);
  }

  /** The step that answers a call is one atomic operation of the simple form at that moment, and the other steps of a
      call change nothing, exactly unless the call consumes a challenge that failed and is past its expiry. */
  lemma CallsAreAtomic(states: seq<System>, actions: seq<Action>, k: nat, pid: nat, call: Call)
    requires Behaviour(states, actions) && k < |actions|
    requires actions[k] == Read(pid, call)
             || (actions[k] == Commit(pid) && states[k].callers[pid].call == call)
    ensures states[k + 1].callers[pid].Writing? ==> states[k + 1].rows == states[k].rows
    ensures states[k + 1].callers[pid].Answered? ==>
              (Outcome(states[k + 1].rows, states[k + 1].callers[pid].answer)
               == AtOnce(call.op, states[k].rows, call.key, call.version, call.now)
               <==> actions[k].Read? || !FailedPastExpiry(call.op, states[k].rows, call.key, call.version, call.now))
  {
    var s := states[k];
    if actions[k].Read? {
      if PlanOf(call.op, s.rows, call.key, call.version, call.now).Reply? {
        ReplyIsAtOnce(call.op, s.rows, call.key, call.version, call.now);
      }
    } else {
      ReachableInv(states, actions, k);
      assert CallerOk(s.rows, s.callers[pid]);
      UpdateIsAtOnce(call.op, s.callers[pid].seen, s.rows, call.key, call.version, call.now);
    }
  }

  /** Every answer to a failed attempt core asked to record passes core's check, exactly when it is a conflict or the
      clock has not gone back behind the challenge's creation. */
  lemma CoreAcceptsEveryAnswer(states: seq<System>, actions: seq<Action>, k: nat, pid: nat)
    requires Behaviour(states, actions) && k < |states|
    requires pid in states[k].callers && states[k].callers[pid].Answered?
    requires states[k].callers[pid].call.previous.Some? && states[k].callers[pid].call.op == RecordFailure
    ensures var Answered(call, answer) := states[k].callers[pid];
            IsFailedAttemptTransition(call.previous.value, answer, call.now)
            <==> answer == VersionConflict || call.previous.value.createdAt <= call.now
  {
    ReachableInv(states, actions, k);
    assert CallerOk(states[k].rows, states[k].callers[pid]);
  }
}
