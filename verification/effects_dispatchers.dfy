/** The two dispatchers as the loops they are: one sends at once, the other writes to the outbox. Whatever the sealer,
    the transport, the store and the clock answer, a report they return covers the effects exactly. */
module EffectsDispatchers {
  import opened Common
  import opened EffectsDispatch

  const MAX_EFFECTS := 1000

  /** An effect as the dispatchers see it: whether it is well formed, its policy, and when it expires. */
  datatype Effect = Effect(valid: bool, policy: Policy, expiresAt: Option<int>)
  {
    predicate ExpiredBy(now: int) {
      expiresAt.Some? && expiresAt.value <= now
    }
  }

  function Policies(effects: seq<Effect>): seq<Policy> {
    seq(|effects|, i requires 0 <= i < |effects| => effects[i].policy)
  }

  /** Collaborators give a safe reason when they refuse; anything else was replaced before it got here. */
  type Reply = Option<Reason>

  predicate SafeReply(reply: Reply) {
    reply.Some? ==> SafeReason(reply.value)
  }

  // ---- The clock ----

  /** The k-th reading; before the first there is the time the dispatch was given. */
  function Reading(now: int, provider: nat -> Option<int>, k: nat): int {
    if k == 0 then now else if provider(k - 1).Some? then provider(k - 1).value else 0
  }

  /** The first n readings are times, none before the one it follows. */
  predicate ClockGood(now: int, provider: nat -> Option<int>, n: nat) {
    n == 0
    || (ClockGood(now, provider, n - 1) && provider(n - 1).Some? && Reading(now, provider, n - 1) <= provider(n - 1).value)
  }

  lemma {:induction false} ClockGoodBefore(now: int, provider: nat -> Option<int>, m: nat, n: nat)
    requires m <= n && ClockGood(now, provider, n)
    ensures ClockGood(now, provider, m)
  {
    if m < n {
      ClockGoodBefore(now, provider, m, n - 1);
    }
  }

  /** `createCurrentTime`: a reading that is not a time, or lies before the last one, ends the dispatch. */
  class Clock {
    const start: int
    const provider: nat -> Option<int>
    var ticks: nat
    var previousTime: int

    /** All readings so far were good. */
    predicate Good()
      reads this
    {
      ClockGood(start, provider, ticks) && previousTime == Reading(start, provider, ticks)
    }

    constructor (now: int, provider: nat -> Option<int>)
      ensures Good() && ticks == 0 && start == now && this.provider == provider
    {
      this.start, this.provider := now, provider;
      ticks, previousTime := 0, now;
    }

    method CurrentTime() returns (now: Option<int>)
      requires Good()
      modifies this
      ensures now.Some? <==> ClockGood(start, provider, old(ticks) + 1)
      ensures now.Some? ==> Good() && now.value == Reading(start, provider, ticks) && old(previousTime) <= now.value
      ensures ticks == old(ticks) + 1
    {
      var candidate := provider(ticks);
      ticks := ticks + 1;
      if candidate.None? || candidate.value < previousTime {
        return None;
      }
      previousTime := candidate.value;
      return candidate;
    }
  }

  // ---- Bookkeeping of indexes ----

  predicate Indexes(items: seq<int>, effects: seq<Effect>) {
    forall k :: 0 <= k < |items| ==> 0 <= items[k] < |effects|
  }

  predicate MayFail(f: Failure, effects: seq<Effect>) {
    0 <= f.index < |effects| && effects[f.index].policy == BestEffort && SafeReason(f.reason)
  }

  /** The failures so far are allowed, and are those of these indexes in this order. */
  ghost predicate FailedAt(failed: seq<Failure>, at: seq<int>, effects: seq<Effect>) {
    && |failed| == |at|
    && forall k {:trigger failed[k]} :: 0 <= k < |failed| ==>
         && failed[k].index == at[k] && MayFail(failed[k], effects)
  }

  lemma FailOne(failed: seq<Failure>, at: seq<int>, effects: seq<Effect>, index: int, reason: Reason)
    requires FailedAt(failed, at, effects) && MayFail(Failure(index, reason), effects)
    ensures FailedAt(failed + [Failure(index, reason)], at + [index], effects)
  {
  }

  /** The lists so far hold each of the first n indexes once. */
  ghost predicate Accounted(a: seq<int>, b: seq<int>, failedAt: seq<int>, n: nat) {
    multiset(a) + multiset(b) + multiset(failedAt) == EachOnce(n)
  }

  /** The indexes of the outcomes that are b, in order. */
  ghost function Places(outcomes: seq<bool>, b: bool): seq<int> {
    if outcomes == [] then []
    else
      var n := |outcomes| - 1;
      var rest := Places(outcomes[..n], b);
      if outcomes[n] == b then rest + [n] else rest
  }

  lemma NextPlace(flags: seq<bool>, k: nat)
    requires k < |flags|
    ensures Places(flags[..k + 1], true) == Places(flags[..k], true) + if flags[k] then [k] else []
    ensures Places(flags[..k + 1], false) == Places(flags[..k], false) + if flags[k] then [] else [k]
  {
    var next := flags[..k + 1];
    assert |next| - 1 == k && next[k] == flags[k] && next[..k] == flags[..k];
  }

  lemma {:induction false} PlacesSplit(outcomes: seq<bool>)
    ensures Accounted(Places(outcomes, true), [], Places(outcomes, false), |outcomes|)
  {
    if outcomes != [] {
      PlacesSplit(outcomes[..|outcomes| - 1]);
    }
  }

  /** The items whose outcome is b, in order. */
  ghost function Picks(items: seq<int>, outcomes: seq<bool>, b: bool): seq<int>
    requires |outcomes| <= |items|
  {
    if outcomes == [] then []
    else
      var n := |outcomes| - 1;
      var rest := Picks(items, outcomes[..n], b);
      if outcomes[n] == b then rest + [items[n]] else rest
  }

  lemma NextPick(items: seq<int>, flags: seq<bool>, k: nat)
    requires k < |flags| <= |items|
    ensures Picks(items, flags[..k + 1], true) == Picks(items, flags[..k], true) + if flags[k] then [items[k]] else []
    ensures Picks(items, flags[..k + 1], false) == Picks(items, flags[..k], false) + if flags[k] then [] else [items[k]]
  {
    var next := flags[..k + 1];
    assert |next| - 1 == k && next[k] == flags[k] && next[..k] == flags[..k];
  }

  lemma PushFirst(a: seq<int>, b: seq<int>, whole: seq<int>, x: int)
    requires multiset(a) + multiset(b) == multiset(whole)
    ensures multiset(a + [x]) + multiset(b) == multiset(whole + [x])
    ensures multiset(a) + multiset(b + [x]) == multiset(whole + [x])
  {
  }

  lemma {:induction false} PicksSplit(items: seq<int>, outcomes: seq<bool>)
    requires |outcomes| <= |items|
    ensures multiset(Picks(items, outcomes, true)) + multiset(Picks(items, outcomes, false))
            == multiset(items[..|outcomes|])
  {
    if outcomes != [] {
      var n := |outcomes| - 1;
      PicksSplit(items, outcomes[..n]);
      PushFirst(Picks(items, outcomes[..n], true), Picks(items, outcomes[..n], false), items[..n], items[n]);
      assert items[..n + 1] == items[..n] + [items[n]];
    }
  }

  /** Sorting the second list into the first and the failures keeps the account. */
  lemma AccountSorted(items: seq<int>, outcomes: seq<bool>, failedAt: seq<int>, n: nat)
    requires |outcomes| == |items| && Accounted(items, [], failedAt, n)
    ensures Accounted(Picks(items, outcomes, true), [], failedAt + Picks(items, outcomes, false), n)
  {
    PicksSplit(items, outcomes);
    assert items[..|outcomes|] == items;
  }

  lemma AccountSortedSecond(a: seq<int>, items: seq<int>, outcomes: seq<bool>, failedAt: seq<int>, n: nat)
    requires |outcomes| == |items| && Accounted(a, items, failedAt, n)
    ensures Accounted(a, Picks(items, outcomes, true), failedAt + Picks(items, outcomes, false), n)
  {
    PicksSplit(items, outcomes);
    assert items[..|outcomes|] == items;
  }

  lemma FailedAtIs(failed: seq<Failure>, at: seq<int>, effects: seq<Effect>)
    requires FailedAt(failed, at, effects)
    ensures FailedIndexes(failed) == at && FailuresAllowed(failed, Policies(effects))
  {
  }

  lemma PlacedParts(dispatched: seq<int>, deferred: Option<seq<int>>, failed: seq<Failure>)
    ensures var r := Report(dispatched, deferred, Present(failed));
            && r.Failed() == failed
            && Placed(Some(r)) == multiset(dispatched) + multiset(r.Deferred()) + multiset(FailedIndexes(failed))
  {
  }

  /** What was accounted for makes a report core accepts. */
  lemma ReportAccepted(dispatched: seq<int>, deferred: Option<seq<int>>, failed: seq<Failure>, at: seq<int>,
                       effects: seq<Effect>)
    requires FailedAt(failed, at, effects)
    requires Accounted(dispatched, if deferred.Some? then deferred.value else [], at, |effects|)
    ensures IsDispatchResult(Report(dispatched, deferred, Present(failed)), Policies(effects))
  {
    FailedAtIs(failed, at, effects);
    PlacedParts(dispatched, deferred, failed);
  }

  // ---- Sending at once ----

  /** A dispatch and everything others answer to it. `send` answers for each index; an absent reason accepts. */
  datatype SyncRun = SyncRun(effects: seq<Effect>, now: int, provider: nat -> Option<int>, send: nat -> Reply)
  {
    /** Well formed and not expired when the dispatch starts. */
    function DeliverableFlags(): seq<bool> {
      seq(|effects|, i requires 0 <= i < |effects| => effects[i].valid && !effects[i].ExpiredBy(now))
    }

    ghost function Deliverable(): seq<int> {
      Places(DeliverableFlags(), true)
    }

    /** Which of these, in their turn, have not expired and are accepted. */
    function SentFlags(deliverable: seq<int>): seq<bool>
      requires Indexes(deliverable, effects)
    {
      seq(|deliverable|, k requires 0 <= k < |deliverable| => SentAt(deliverable[k], k))
    }

    predicate SentAt(index: int, k: nat)
      requires 0 <= index < |effects|
    {
      !effects[index].ExpiredBy(Reading(now, provider, k + 1)) && send(index).None?
    }

    predicate AllRequiredSent(deliverable: seq<int>)
      requires Indexes(deliverable, effects)
    {
      forall k :: 0 <= k < |deliverable| && effects[deliverable[k]].policy == Required ==> SentAt(deliverable[k], k)
    }

    predicate AllRequiredDeliverable() {
      forall i :: 0 <= i < |effects| && effects[i].policy == Required ==> DeliverableFlags()[i]
    }

    /** Few enough effects, a good clock, and every required effect sent. */
    ghost predicate Succeeds()
      requires Indexes(Deliverable(), effects)
    {
      && |effects| <= MAX_EFFECTS && AllRequiredDeliverable()
      && ClockGood(now, provider, |Deliverable()|) && AllRequiredSent(Deliverable())
    }
  }

  lemma {:induction false} PlacesAre(flags: seq<bool>)
    ensures forall k :: 0 <= k < |Places(flags, true)| ==>
                          0 <= Places(flags, true)[k] < |flags| && flags[Places(flags, true)[k]]
  {
    if flags != [] {
      PlacesAre(flags[..|flags| - 1]);
    }
  }

  lemma DeliverableInRange(run: SyncRun)
    ensures Indexes(run.Deliverable(), run.effects)
  {
    PlacesAre(run.DeliverableFlags());
  }

  /** Succeeds exactly when it should, and then has sent exactly the deliverable effects that were accepted in time. */
  method SyncDispatch(run: SyncRun) returns (result: Result<Report, Reason>)
    requires forall i :: SafeReply(run.send(i))
    ensures Indexes(run.Deliverable(), run.effects) && (result.Ok? <==> run.Succeeds())
    ensures result.Ok? ==> IsDispatchResult(result.value, Policies(run.effects)) && result.value.deferred.None?
    ensures result.Ok? ==> result.value.dispatched == Picks(run.Deliverable(), run.SentFlags(run.Deliverable()), true)
  {
    DeliverableInRange(run);
    if |run.effects| > MAX_EFFECTS {
      return Err(SIDE_EFFECT_FAILED);
    }
    var clock := new Clock(run.now, run.provider);
    var deliverable, failed, early, at := SelectDeliverable(run);
    if early {
      return Err(SIDE_EFFECT_FAILED);
    }
    result := SendAll(run, deliverable, failed, at, clock);
  }

  /** The first loop: what is malformed or already expired fails, or ends the dispatch when it is not best effort. */
  method SelectDeliverable(run: SyncRun)
    returns (deliverable: seq<int>, failed: seq<Failure>, early: bool, ghost at: seq<int>)
    ensures early <==> !run.AllRequiredDeliverable()
    ensures !early ==> deliverable == run.Deliverable()
    ensures !early ==> Accounted(deliverable, [], at, |run.effects|) && FailedAt(failed, at, run.effects)
  {
    deliverable, failed, early, at := [], [], false, [];
    ghost var flags := run.DeliverableFlags();
    var i := 0;
    while i < |run.effects|
      invariant 0 <= i <= |run.effects| && !early
      invariant deliverable == Places(flags[..i], true) && at == Places(flags[..i], false)
      invariant FailedAt(failed, at, run.effects)
      invariant forall j :: 0 <= j < i && run.effects[j].policy == Required ==> flags[j]
    {
      var good := run.effects[i].valid && !run.effects[i].ExpiredBy(run.now);
      NextPlace(flags, i);
      if good {
        deliverable := deliverable + [i];
      } else {
        if run.effects[i].policy != BestEffort {
          early := true;
          assert !flags[i];
          return;
        }
        FailOne(failed, at, run.effects, i, SIDE_EFFECT_FAILED);
        failed, at := failed + [Failure(i, SIDE_EFFECT_FAILED)], at + [i];
      }
      i := i + 1;
    }
    assert flags[..i] == flags;
    PlacesSplit(flags);
  }

  /** The first k messages are sent, or failed and were best effort. */
  ghost predicate Sending(run: SyncRun, items: seq<int>, alreadyAt: seq<int>, k: nat, dispatched: seq<int>,
                          failed: seq<Failure>)
    requires Indexes(items, run.effects) && k <= |items|
  {
    var flags := run.SentFlags(items)[..k];
    && dispatched == Picks(items, flags, true)
    && FailedAt(failed, alreadyAt + Picks(items, flags, false), run.effects)
    && forall j :: 0 <= j < k && run.effects[items[j]].policy == Required ==> run.SentAt(items[j], j)
  }

  lemma SendingStep(run: SyncRun, items: seq<int>, alreadyAt: seq<int>, k: nat, dispatched: seq<int>,
                    failed: seq<Failure>, reply: Reply)
    requires Indexes(items, run.effects) && k < |items| && Sending(run, items, alreadyAt, k, dispatched, failed)
    requires (reply.None? <==> run.SentAt(items[k], k)) && SafeReply(reply)
    requires reply.Some? ==> run.effects[items[k]].policy == BestEffort
    ensures if reply.None? then Sending(run, items, alreadyAt, k + 1, dispatched + [items[k]], failed)
            else Sending(run, items, alreadyAt, k + 1, dispatched, failed + [Failure(items[k], reply.value)])
  {
    var flags := run.SentFlags(items);
    NextPick(items, flags, k);
    if reply.Some? {
      var at := alreadyAt + Picks(items, flags[..k], false);
      FailOne(failed, at, run.effects, items[k], reply.value);
      assert at + [items[k]] == alreadyAt + Picks(items, flags[..k + 1], false);
    }
  }

  lemma SentReport(run: SyncRun, items: seq<int>, alreadyAt: seq<int>, dispatched: seq<int>, failed: seq<Failure>)
    requires Indexes(items, run.effects) && Accounted(items, [], alreadyAt, |run.effects|)
    requires Sending(run, items, alreadyAt, |items|, dispatched, failed)
    ensures dispatched == Picks(items, run.SentFlags(items), true) && run.AllRequiredSent(items)
    ensures IsDispatchResult(Report(dispatched, None, Present(failed)), Policies(run.effects))
  {
    var flags := run.SentFlags(items);
    assert flags[..|items|] == flags;
    AccountSorted(items, flags, alreadyAt, |run.effects|);
    ReportAccepted(dispatched, None, failed, alreadyAt + Picks(items, flags, false), run.effects);
  }

  /** One turn of the second loop; it is not taken when the clock ends the dispatch. */
  method SendOne(run: SyncRun, index: nat, n: nat, clock: Clock) returns (sent: bool, reply: Reply)
    requires index < |run.effects| && clock.ticks < n
    requires clock.Good() && clock.start == run.now && clock.provider == run.provider
    modifies clock
    ensures !sent ==> !ClockGood(run.now, run.provider, n)
    ensures sent ==> clock.Good() && clock.ticks == old(clock.ticks) + 1
    ensures sent ==> (reply.None? <==> run.SentAt(index, old(clock.ticks)))
    ensures SafeReply(run.send(index)) ==> SafeReply(reply)
  {
    var deliveryNow := clock.CurrentTime();
    if deliveryNow.None? {
      if ClockGood(run.now, run.provider, n) {
        ClockGoodBefore(run.now, run.provider, clock.ticks, n);
      }
      return false, None;
    }
    if run.effects[index].ExpiredBy(deliveryNow.value) {
      return true, Some(SIDE_EFFECT_FAILED);
    }
    return true, run.send(index);
  }

  /** The second loop, which reads the clock for each message. */
  method SendAll(run: SyncRun, deliverable: seq<int>, alreadyFailed: seq<Failure>, ghost alreadyAt: seq<int>, clock: Clock)
    returns (result: Result<Report, Reason>)
    requires (forall i :: SafeReply(run.send(i))) && Indexes(deliverable, run.effects)
    requires Accounted(deliverable, [], alreadyAt, |run.effects|) && FailedAt(alreadyFailed, alreadyAt, run.effects)
    requires clock.Good() && clock.ticks == 0 && clock.start == run.now && clock.provider == run.provider
    modifies clock
    ensures result.Ok? <==> ClockGood(run.now, run.provider, |deliverable|) && run.AllRequiredSent(deliverable)
    ensures result.Ok? ==> IsDispatchResult(result.value, Policies(run.effects)) && result.value.deferred.None?
    ensures result.Ok? ==> result.value.dispatched == Picks(deliverable, run.SentFlags(deliverable), true)
  {
    var dispatched, failed: seq<Failure> := [], alreadyFailed;
    var k := 0;
    while k < |deliverable|
      invariant 0 <= k <= |deliverable| && clock.Good() && clock.ticks == k
      invariant Sending(run, deliverable, alreadyAt, k, dispatched, failed)
    {
      var index := deliverable[k];
      var sent, reply := SendOne(run, index, |deliverable|, clock);
      if !sent {
        return Err(SIDE_EFFECT_FAILED);
      }
      if reply.Some? && run.effects[index].policy == Required {
        return Err(reply.value);
      }
      SendingStep(run, deliverable, alreadyAt, k, dispatched, failed, reply);
      if reply.None? {
        dispatched := dispatched + [index];
      } else {
        failed := failed + [Failure(index, reply.value)];
      }
      k := k + 1;
    }
    SentReport(run, deliverable, alreadyAt, dispatched, failed);
    result := Ok(Report(dispatched, None, Present(failed)));
  }

  // ---- Writing to the outbox ----

  function WithPolicy(prepared: seq<int>, effects: seq<Effect>, policy: Policy): (items: seq<int>)
    requires Indexes(prepared, effects)
    ensures Indexes(items, effects)
  {
    if prepared == [] then []
    else
      var last := prepared[|prepared| - 1];
      var rest := WithPolicy(prepared[..|prepared| - 1], effects, policy);
      if effects[last].policy == policy then rest + [last] else rest
  }

  lemma {:induction false} PoliciesSplit(prepared: seq<int>, effects: seq<Effect>)
    requires Indexes(prepared, effects)
    ensures multiset(WithPolicy(prepared, effects, Required)) + multiset(WithPolicy(prepared, effects, BestEffort))
            == multiset(prepared)
  {
    if prepared != [] {
      var shorter, last := prepared[..|prepared| - 1], prepared[|prepared| - 1];
      PoliciesSplit(shorter, effects);
      PushFirst(WithPolicy(shorter, effects, Required), WithPolicy(shorter, effects, BestEffort), shorter, last);
      assert prepared == shorter + [last];
    }
  }

  lemma {:induction false} WithPolicyAre(prepared: seq<int>, effects: seq<Effect>, policy: Policy)
    requires Indexes(prepared, effects)
    ensures forall k :: 0 <= k < |WithPolicy(prepared, effects, policy)| ==>
                          && 0 <= WithPolicy(prepared, effects, policy)[k] < |effects|
                          && effects[WithPolicy(prepared, effects, policy)[k]].policy == policy
  {
    if prepared != [] {
      WithPolicyAre(prepared[..|prepared| - 1], effects, policy);
    }
  }

  /** What the outbox answers to a batch: refused with a reason, or acknowledged, rightly or not. */
  datatype Enqueued = Refused(reason: Reason) | Acknowledged(matching: bool)

  predicate SafeEnqueued(e: Enqueued) {
    e.Refused? ==> SafeReason(e.reason)
  }

  predicate AreRequired(items: seq<int>, effects: seq<Effect>) {
    forall k :: 0 <= k < |items| ==> 0 <= items[k] < |effects| && effects[items[k]].policy == Required
  }

  predicate AreBestEffort(items: seq<int>, effects: seq<Effect>) {
    forall k :: 0 <= k < |items| ==> 0 <= items[k] < |effects| && effects[items[k]].policy == BestEffort
  }

  /** A dispatch and everything others answer to it. `named` and `sealed` say for which indexes an id could be made and
      the message sealed; `required` and `bestEffort` are the answers to the two batches. */
  datatype OutboxRun = OutboxRun(effects: seq<Effect>, now: int, provider: nat -> Option<int>, inTransaction: bool,
                                 coversOutbox: bool, named: nat -> bool, sealed: nat -> bool, required: Enqueued,
                                 bestEffort: Enqueued)
  {
    predicate Sealable(i: nat)
      requires i < |effects|
    {
      effects[i].valid && named(i) && !effects[i].ExpiredBy(now) && sealed(i)
    }

    /** How often the clock is read while the first n effects are prepared: once for each that was sealed. */
    function Reads(n: nat): nat
      requires n <= |effects|
    {
      if n == 0 then 0 else Reads(n - 1) + if Sealable(n - 1) then 1 else 0
    }

    /** Sealed, and not expired at the reading that follows. */
    predicate PreparedAt(i: nat)
      requires i < |effects|
    {
      Sealable(i) && !effects[i].ExpiredBy(Reading(now, provider, Reads(i) + 1))
    }

    function PreparedFlags(): seq<bool> {
      seq(|effects|, i requires 0 <= i < |effects| => PreparedAt(i))
    }

    ghost function Prepared(): seq<int> {
      Places(PreparedFlags(), true)
    }

    predicate AllRequiredPrepared() {
      forall i :: 0 <= i < |effects| && effects[i].policy == Required ==> PreparedAt(i)
    }

    /** The required batch is empty, or is written in time and acknowledged as it was written. */
    predicate RequiredStored(items: seq<int>, used: nat)
      requires Indexes(items, effects)
    {
      items == []
      || (&& ClockGood(now, provider, used + 2) && required == Acknowledged(true)
          && forall k :: 0 <= k < |items| ==> !effects[items[k]].ExpiredBy(Reading(now, provider, used + 1)))
    }

    function KeptFlags(items: seq<int>, time: int): seq<bool>
      requires Indexes(items, effects)
    {
      seq(|items|, k requires 0 <= k < |items| => !effects[items[k]].ExpiredBy(time))
    }

    /** What is left of the best-effort effects when their batch is written. */
    ghost function Kept(items: seq<int>, used: nat): seq<int>
      requires Indexes(items, effects)
    {
      Picks(items, KeptFlags(items, Reading(now, provider, used + 1)), true)
    }

    /** The best-effort batch ends the dispatch on a bad clock, or when it fails inside a transaction. */
    predicate BestEffortSettles(kept: seq<int>, used: nat) {
      kept == []
      || (match bestEffort
          case Refused(_) => !inTransaction
          case Acknowledged(matching) => ClockGood(now, provider, used + 1) && (matching || !inTransaction))
    }

    function Before(items: seq<int>, used: nat): nat {
      if items == [] then used else used + 2
    }

    /** The best-effort batch as it is written. */
    ghost function WrittenBestEffort(items: seq<int>, used: nat): seq<int>
      requires Indexes(items, effects)
    {
      if items == [] then [] else Kept(items, used)
    }

    ghost predicate BestEffortStores(items: seq<int>, used: nat)
      requires Indexes(items, effects)
    {
      items == []
      || (ClockGood(now, provider, used + 1) && BestEffortSettles(WrittenBestEffort(items, used), used + 1))
    }

    /** Both batches, when these effects were prepared and the clock had been read so often. */
    ghost predicate Stores(prepared: seq<int>, used: nat)
      requires Indexes(prepared, effects)
    {
      var mustStore := WithPolicy(prepared, effects, Required);
      && RequiredStored(mustStore, used)
      && BestEffortStores(WithPolicy(prepared, effects, BestEffort), Before(mustStore, used))
    }

    /** All that was written: the required effects, then the best-effort ones. */
    ghost function Written(prepared: seq<int>, used: nat): seq<int>
      requires Indexes(prepared, effects)
    {
      var mustStore := WithPolicy(prepared, effects, Required);
      mustStore + WrittenBestEffort(WithPolicy(prepared, effects, BestEffort), Before(mustStore, used))
    }

    /** What of it was acknowledged as it was written. */
    ghost function Deferred(prepared: seq<int>, used: nat): seq<int>
      requires Indexes(prepared, effects)
    {
      if bestEffort == Acknowledged(true) then Written(prepared, used) else WithPolicy(prepared, effects, Required)
    }

    /** The report core accepts after these were written. */
    ghost predicate Reports(report: Report, mustStore: seq<int>, written: seq<int>) {
      && IsDispatchResult(report, Policies(effects)) && report.dispatched == []
      && report.Deferred() == mustStore + (if bestEffort == Acknowledged(true) then written else [])
      && (inTransaction ==> report.Deferred() == mustStore + written)
    }

    /** When a report comes: few enough effects, an outbox in the transaction, a good clock, every required effect
        prepared and stored, and no best-effort batch that ends the dispatch. */
    ghost predicate Succeeds()
      requires Indexes(Prepared(), effects)
    {
      && |effects| <= MAX_EFFECTS && (inTransaction ==> coversOutbox)
      && ClockGood(now, provider, Reads(|effects|)) && AllRequiredPrepared()
      && Stores(Prepared(), Reads(|effects|))
    }
  }

  lemma PreparedInRange(run: OutboxRun)
    ensures Indexes(run.Prepared(), run.effects)
  {
    PlacesAre(run.PreparedFlags());
  }

  lemma {:induction false} ReadsGrow(run: OutboxRun, m: nat, n: nat)
    requires m <= n <= |run.effects|
    ensures run.Reads(m) <= run.Reads(n)
  {
    if m < n {
      ReadsGrow(run, m, n - 1);
    }
  }

  lemma BadClockStays(run: OutboxRun, i: nat)
    requires i < |run.effects| && run.Sealable(i) && !ClockGood(run.now, run.provider, run.Reads(i) + 1)
    ensures !ClockGood(run.now, run.provider, run.Reads(|run.effects|))
  {
    ReadsGrow(run, i + 1, |run.effects|);
    if ClockGood(run.now, run.provider, run.Reads(|run.effects|)) {
      ClockGoodBefore(run.now, run.provider, run.Reads(i) + 1, run.Reads(|run.effects|));
    }
  }

  /** One turn of the first loop; no answer means the clock ended the dispatch. */
  method PrepareOne(run: OutboxRun, i: nat, clock: Clock) returns (good: Option<bool>)
    requires i < |run.effects| && clock.Good() && clock.ticks == run.Reads(i)
    requires clock.start == run.now && clock.provider == run.provider
    modifies clock
    ensures good.None? ==> !ClockGood(run.now, run.provider, run.Reads(|run.effects|))
    ensures good.Some? ==> good.value == run.PreparedAt(i) && clock.Good() && clock.ticks == run.Reads(i + 1)
  {
    var effect := run.effects[i];
    if !effect.valid || !run.named(i) || effect.ExpiredBy(run.now) || !run.sealed(i) {
      return Some(false);
    }
    var preparedAt := clock.CurrentTime();
    if preparedAt.None? {
      BadClockStays(run, i);
      return None;
    }
    return Some(!effect.ExpiredBy(preparedAt.value));
  }

  /** The first loop: each effect is prepared, fails, or ends the dispatch when it is required. */
  method Prepare(run: OutboxRun, clock: Clock)
    returns (prepared: seq<int>, failed: seq<Failure>, early: bool, ghost at: seq<int>)
    requires clock.Good() && clock.ticks == 0 && clock.start == run.now && clock.provider == run.provider
    modifies clock
    ensures early <==> !ClockGood(run.now, run.provider, run.Reads(|run.effects|)) || !run.AllRequiredPrepared()
    ensures !early ==> prepared == run.Prepared() && clock.Good() && clock.ticks == run.Reads(|run.effects|)
    ensures !early ==> Accounted(prepared, [], at, |run.effects|) && FailedAt(failed, at, run.effects)
  {
    prepared, failed, early, at := [], [], false, [];
    ghost var flags := run.PreparedFlags();
    var i := 0;
    while i < |run.effects|
      invariant 0 <= i <= |run.effects| && !early && clock.Good() && clock.ticks == run.Reads(i)
      invariant prepared == Places(flags[..i], true) && at == Places(flags[..i], false)
      invariant FailedAt(failed, at, run.effects)
      invariant forall j :: 0 <= j < i && run.effects[j].policy == Required ==> run.PreparedAt(j)
    {
      var good := PrepareOne(run, i, clock);
      if good.None? {
        early := true;
        return;
      }
      NextPlace(flags, i);
      if good.value {
        prepared := prepared + [i];
      } else {
        if run.effects[i].policy != BestEffort {
          early := true;
          return;
        }
        FailOne(failed, at, run.effects, i, SIDE_EFFECT_FAILED);
        failed, at := failed + [Failure(i, SIDE_EFFECT_FAILED)], at + [i];
      }
      i := i + 1;
    }
    assert flags[..i] == flags;
    PlacesSplit(flags);
  }

  /** Best-effort effects that expired since they were prepared fail; the others are kept. */
  method DropExpired(run: OutboxRun, items: seq<int>, now: int, alreadyFailed: seq<Failure>, ghost alreadyAt: seq<int>)
    returns (kept: seq<int>, failed: seq<Failure>, ghost at: seq<int>)
    requires AreBestEffort(items, run.effects) && FailedAt(alreadyFailed, alreadyAt, run.effects)
    ensures AreBestEffort(kept, run.effects) && FailedAt(failed, at, run.effects)
    ensures kept == Picks(items, run.KeptFlags(items, now), true)
    ensures at == alreadyAt + Picks(items, run.KeptFlags(items, now), false)
  {
    kept, failed, at := [], alreadyFailed, alreadyAt;
    ghost var flags := run.KeptFlags(items, now);
    var k := 0;
    while k < |items|
      invariant 0 <= k <= |items| && AreBestEffort(kept, run.effects) && FailedAt(failed, at, run.effects)
      invariant kept == Picks(items, flags[..k], true) && at == alreadyAt + Picks(items, flags[..k], false)
    {
      NextPick(items, flags, k);
      if run.effects[items[k]].ExpiredBy(now) {
        failed, at := failed + [Failure(items[k], SIDE_EFFECT_FAILED)], at + [items[k]];
      } else {
        kept := kept + [items[k]];
      }
      k := k + 1;
    }
    assert flags[..k] == flags;
  }

  method FailAll(items: seq<int>, effects: seq<Effect>, reason: Reason, alreadyFailed: seq<Failure>,
                 ghost alreadyAt: seq<int>)
    returns (failed: seq<Failure>)
    requires AreBestEffort(items, effects) && FailedAt(alreadyFailed, alreadyAt, effects) && SafeReason(reason)
    ensures FailedAt(failed, alreadyAt + items, effects)
  {
    failed := alreadyFailed;
    var k := 0;
    while k < |items|
      invariant 0 <= k <= |items| && FailedAt(failed, alreadyAt + items[..k], effects)
    {
      assert items[..k + 1] == items[..k] + [items[k]];
      failed := failed + [Failure(items[k], reason)];
      k := k + 1;
    }
    assert items[..k] == items;
  }

  /** The batch of required effects: stored as a whole, or the dispatch ends. */
  method EnqueueRequired(run: OutboxRun, items: seq<int>, clock: Clock) returns (failure: Option<Reason>)
    requires Indexes(items, run.effects)
    requires clock.Good() && clock.start == run.now && clock.provider == run.provider
    modifies clock
    ensures failure.None? <==> run.RequiredStored(items, old(clock.ticks))
    ensures failure.None? ==> clock.Good() && clock.ticks == old(clock.ticks) + if items == [] then 0 else 2
  {
    if |items| == 0 {
      return None;
    }
    ghost var used := clock.ticks;
    if ClockGood(run.now, run.provider, used + 2) {
      ClockGoodBefore(run.now, run.provider, used + 1, used + 2);
    }
    var enqueueNow := clock.CurrentTime();
    if enqueueNow.None? || exists k :: 0 <= k < |items| && run.effects[items[k]].ExpiredBy(enqueueNow.value) {
      return Some(SIDE_EFFECT_FAILED);
    }
    if run.required.Refused? {
      return Some(run.required.reason);
    }
    var acknowledgedAt := clock.CurrentTime();
    if acknowledgedAt.None? {
      return Some(SIDE_EFFECT_FAILED);
    }
    return if run.required.matching then None else Some(STORE_UNAVAILABLE);
  }

  /** The batch of best-effort effects: outside a transaction a refusal fails them, inside it ends the dispatch. */
  method EnqueueBestEffort(run: OutboxRun, items: seq<int>, clock: Clock, alreadyFailed: seq<Failure>,
                           ghost alreadyAt: seq<int>)
    returns (failure: Option<Reason>, stored: seq<int>, failed: seq<Failure>, ghost at: seq<int>)
    requires AreBestEffort(items, run.effects) && FailedAt(alreadyFailed, alreadyAt, run.effects)
    requires SafeEnqueued(run.bestEffort) && clock.Good() && clock.start == run.now && clock.provider == run.provider
    modifies clock
    ensures failure.None? <==> run.BestEffortSettles(items, old(clock.ticks))
    ensures failure.None? ==> FailedAt(failed, at, run.effects)
    ensures failure.None? && run.bestEffort == Acknowledged(true) ==> stored == items && at == alreadyAt
    ensures failure.None? && run.bestEffort != Acknowledged(true) ==>
              stored == [] && (items == [] || !run.inTransaction) && at == alreadyAt + items
  {
    failure, stored, failed, at := None, [], alreadyFailed, alreadyAt;
    if |items| == 0 {
      return;
    }
    if run.bestEffort.Refused? {
      if run.inTransaction {
        failure := Some(run.bestEffort.reason);
        return;
      }
      failed := FailAll(items, run.effects, run.bestEffort.reason, alreadyFailed, alreadyAt);
      at := alreadyAt + items;
      return;
    }
    var acknowledgedAt := clock.CurrentTime();
    if acknowledgedAt.None? {
      failure := Some(SIDE_EFFECT_FAILED);
      return;
    }
    if run.bestEffort.matching {
      stored := items;
    } else if run.inTransaction {
      failure := Some(STORE_UNAVAILABLE);
    } else {
      failed := FailAll(items, run.effects, STORE_UNAVAILABLE, alreadyFailed, alreadyAt);
      at := alreadyAt + items;
    }
  }

  /** Succeeds exactly when it should. What it defers are the required effects, all prepared in time, and the best-effort
      batch it wrote when that was acknowledged as written; so inside a transaction it defers all it wrote. */
  method OutboxDispatch(run: OutboxRun) returns (result: Result<Report, Reason>)
    requires SafeEnqueued(run.required) && SafeEnqueued(run.bestEffort)
    ensures Indexes(run.Prepared(), run.effects) && (result.Ok? <==> run.Succeeds())
    ensures result.Ok? ==> IsDispatchResult(result.value, Policies(run.effects)) && result.value.dispatched == []
    ensures result.Ok? ==> result.value.Deferred() == run.Deferred(run.Prepared(), run.Reads(|run.effects|))
    ensures result.Ok? && run.inTransaction ==>
              result.value.Deferred() == run.Written(run.Prepared(), run.Reads(|run.effects|))
  {
    PreparedInRange(run);
    if |run.effects| > MAX_EFFECTS || (run.inTransaction && !run.coversOutbox) {
      return Err(SIDE_EFFECT_FAILED);
    }
    var clock := new Clock(run.now, run.provider);
    var prepared, failed, early, at := Prepare(run, clock);
    if early {
      return Err(SIDE_EFFECT_FAILED);
    }
    result := Store(run, prepared, failed, at, clock);
  }

  /** The two batches. */
  method Store(run: OutboxRun, prepared: seq<int>, failed: seq<Failure>, ghost at: seq<int>, clock: Clock)
    returns (result: Result<Report, Reason>)
    requires SafeEnqueued(run.required) && SafeEnqueued(run.bestEffort) && Indexes(prepared, run.effects)
    requires Accounted(prepared, [], at, |run.effects|) && FailedAt(failed, at, run.effects)
    requires clock.Good() && clock.start == run.now && clock.provider == run.provider
    modifies clock
    ensures result.Ok? <==> run.Stores(prepared, old(clock.ticks))
    ensures result.Ok? ==> IsDispatchResult(result.value, Policies(run.effects)) && result.value.dispatched == []
    ensures result.Ok? ==> result.value.Deferred() == run.Deferred(prepared, old(clock.ticks))
    ensures result.Ok? && run.inTransaction ==> result.value.Deferred() == run.Written(prepared, old(clock.ticks))
  {
    var mustStore := WithPolicy(prepared, run.effects, Required);
    var mayStore := WithPolicy(prepared, run.effects, BestEffort);
    SplitPolicies(prepared, run.effects, at);
    result := StoreSplit(run, mustStore, mayStore, failed, at, clock);
  }

  method StoreSplit(run: OutboxRun, mustStore: seq<int>, mayStore: seq<int>, failed: seq<Failure>, ghost at: seq<int>,
                    clock: Clock)
    returns (result: Result<Report, Reason>)
    requires SafeEnqueued(run.required) && SafeEnqueued(run.bestEffort)
    requires Indexes(mustStore, run.effects) && AreBestEffort(mayStore, run.effects)
    requires Accounted(mustStore, mayStore, at, |run.effects|) && FailedAt(failed, at, run.effects)
    requires clock.Good() && clock.start == run.now && clock.provider == run.provider
    modifies clock
    ensures result.Ok? <==> && run.RequiredStored(mustStore, old(clock.ticks))
                            && run.BestEffortStores(mayStore, run.Before(mustStore, old(clock.ticks)))
    ensures result.Ok? ==>
              run.Reports(result.value, mustStore, run.WrittenBestEffort(mayStore, run.Before(mustStore, old(clock.ticks))))
  {
    var failure := EnqueueRequired(run, mustStore, clock);
    if failure.Some? {
      return Err(failure.value);
    }
    result := StoreBestEffort(run, mustStore, mayStore, failed, at, clock);
  }

  method StoreBestEffort(run: OutboxRun, mustStore: seq<int>, mayStore: seq<int>, alreadyFailed: seq<Failure>,
                         ghost alreadyAt: seq<int>, clock: Clock)
    returns (result: Result<Report, Reason>)
    requires SafeEnqueued(run.bestEffort) && AreBestEffort(mayStore, run.effects)
    requires Accounted(mustStore, mayStore, alreadyAt, |run.effects|) && FailedAt(alreadyFailed, alreadyAt, run.effects)
    requires clock.Good() && clock.start == run.now && clock.provider == run.provider
    modifies clock
    ensures result.Ok? <==> run.BestEffortStores(mayStore, old(clock.ticks))
    ensures result.Ok? ==> run.Reports(result.value, mustStore, run.WrittenBestEffort(mayStore, old(clock.ticks)))
  {
    if |mayStore| == 0 {
      result := WriteBestEffort(run, mustStore, mayStore, alreadyFailed, alreadyAt, clock);
      return;
    }
    var enqueueNow := clock.CurrentTime();
    if enqueueNow.None? {
      return Err(SIDE_EFFECT_FAILED);
    }
    var kept, failed, at := DropExpired(run, mayStore, enqueueNow.value, alreadyFailed, alreadyAt);
    AccountSortedSecond(mustStore, mayStore, run.KeptFlags(mayStore, enqueueNow.value), alreadyAt, |run.effects|);
    result := WriteBestEffort(run, mustStore, kept, failed, at, clock);
  }

  method WriteBestEffort(run: OutboxRun, mustStore: seq<int>, kept: seq<int>, alreadyFailed: seq<Failure>,
                         ghost alreadyAt: seq<int>, clock: Clock)
    returns (result: Result<Report, Reason>)
    requires SafeEnqueued(run.bestEffort) && AreBestEffort(kept, run.effects)
    requires Accounted(mustStore, kept, alreadyAt, |run.effects|) && FailedAt(alreadyFailed, alreadyAt, run.effects)
    requires clock.Good() && clock.start == run.now && clock.provider == run.provider
    modifies clock
    ensures result.Ok? <==> run.BestEffortSettles(kept, old(clock.ticks))
    ensures result.Ok? ==> run.Reports(result.value, mustStore, kept)
  {
    var failure, stored, failed, at := EnqueueBestEffort(run, kept, clock, alreadyFailed, alreadyAt);
    if failure.Some? {
      return Err(failure.value);
    }
    StoredReport(run.effects, mustStore, kept, stored, alreadyAt, at, failed);
    result := Ok(Report([], Some(mustStore + stored), Present(failed)));
  }

  lemma StoredReport(effects: seq<Effect>, mustStore: seq<int>, kept: seq<int>, stored: seq<int>, dropped: seq<int>,
                     at: seq<int>, failed: seq<Failure>)
    requires Accounted(mustStore, kept, dropped, |effects|) && FailedAt(failed, at, effects)
    requires (stored == kept && at == dropped) || (stored == [] && at == dropped + kept)
    ensures IsDispatchResult(Report([], Some(mustStore + stored), Present(failed)), Policies(effects))
  {
    AccountStored(mustStore, kept, stored, dropped, at, |effects|);
    ReportAccepted([], Some(mustStore + stored), failed, at, effects);
  }

  lemma SplitPolicies(prepared: seq<int>, effects: seq<Effect>, at: seq<int>)
    requires Indexes(prepared, effects) && Accounted(prepared, [], at, |effects|)
    ensures Accounted(WithPolicy(prepared, effects, Required), WithPolicy(prepared, effects, BestEffort), at, |effects|)
    ensures AreBestEffort(WithPolicy(prepared, effects, BestEffort), effects)
    ensures AreRequired(WithPolicy(prepared, effects, Required), effects)
  {
    PoliciesSplit(prepared, effects);
    WithPolicyAre(prepared, effects, Required);
    WithPolicyAre(prepared, effects, BestEffort);
  }

  lemma AccountStored(mustStore: seq<int>, mayStore: seq<int>, stored: seq<int>, dropped: seq<int>, at: seq<int>, n: nat)
    requires Accounted(mustStore, mayStore, dropped, n)
    requires (stored == mayStore && at == dropped) || (stored == [] && at == dropped + mayStore)
    ensures Accounted([], mustStore + stored, at, n)
  {
  }
}
