/** What a denied caller is told to wait is exactly what it has to wait. */
module AttemptWaiting {
  import opened Common
  import opened AttemptLog
  import opened AttemptRefinement

  /** The failure whose departure from the window ends a denial. */
  function Blocking(limits: Limits, log: seq<Failure>, key: string, now: int): int
    requires limits.Valid() && Decide(limits, log, key, now).Deny?
  {
    var times := Times(Live(log, now, limits.windowMs), key);
    times[|times| - limits.maxFailures]
  }

  /** With no call in between, the key stays denied exactly until the blocking failure leaves the window. */
  lemma DeniedExactlyUntil(limits: Limits, log: seq<Failure>, key: string, now: int, later: int)
    requires limits.Valid() && SortedLog(log) && now <= later
    requires Decide(limits, log, key, now).Deny?
    ensures Decide(limits, log, key, later).Deny? <==> later < Blocking(limits, log, key, now) + limits.windowMs
  {
    var live := Live(log, now, limits.windowMs);
    var times := Times(live, key);
    LiveKeepsOrder(log, now, limits.windowMs);
    TimesSorted(live, key);
    LiveAgain(log, now, later, limits.windowMs);
    TimesOfLive(live, key, later, limits.windowMs);
    RecentOfSorted(times, later, limits.windowMs);
  }

  lemma DenialIsLive(limits: Limits, log: seq<Failure>, key: string, now: int)
    requires limits.Valid() && SortedLog(log) && Decide(limits, log, key, now).Deny?
    ensures now < Blocking(limits, log, key, now) + limits.windowMs
  {
    DeniedExactlyUntil(limits, log, key, now, now);
  }

  /** A caller who waits the returned seconds is allowed; one who comes a second earlier is not. */
  lemma RetryAfterIsExact(limits: Limits, log: seq<Failure>, key: string, now: int, later: int)
    requires limits.Valid() && limits.retryAfterSeconds == None && SortedLog(log) && now <= later
    requires Decide(limits, log, key, now).Deny?
    ensures
      var wait := Decide(limits, log, key, now).retryAfterSeconds;
      && 1 <= wait
      && (now + 1000 * wait <= later ==> Decide(limits, log, key, later) == Allow)
      && (later <= now + 1000 * (wait - 1) ==> Decide(limits, log, key, later).Deny?)
  {
    DenialIsLive(limits, log, key, now);
    DeniedExactlyUntil(limits, log, key, now, later);
  }

  function LogAfter(limits: Limits, log: seq<Failure>, calls: seq<Call>): seq<Failure>
    requires limits.Valid()
    decreases calls
  {
    if calls == [] then log else LogAfter(limits, AfterLog(limits, log, calls[0]), calls[1..])
  }

  ghost predicate NoFailureOf(key: string, calls: seq<Call>) {
    forall c :: c in calls ==> !(c.Failed? && c.key == key)
  }

  lemma TimesAfterCall(limits: Limits, log: seq<Failure>, call: Call, key: string)
    requires limits.Valid() && !(call.Failed? && call.key == key)
    ensures
      var after := Times(AfterLog(limits, log, call), key);
      after == Times(log, key) || after == []
  {
    match call {
      case Ask(_, _) =>
      case Uncounted(_) =>
      case Succeeded(k) =>
        TimesWithout(log, k, key);
      case Failed(k, now) =>
        TimesAppend(MakeRoom(limits, log, k, now), Failure(k, now), key);
        var live := Live(log, now, limits.windowMs);
        if k !in Keys(live) && limits.maxKeys <= |Finals(live)| {
          TimesWithout(log, Finals(live)[0], key);
        }
    }
  }

  lemma {:induction false} TimesAfterCalls(limits: Limits, log: seq<Failure>, calls: seq<Call>, key: string)
    requires limits.Valid() && NoFailureOf(key, calls)
    ensures
      var after := Times(LogAfter(limits, log, calls), key);
      after == Times(log, key) || after == []
    decreases calls
  {
    if calls != [] {
      assert calls[0] in calls;
      TimesAfterCall(limits, log, calls[0], key);
      TimesAfterCalls(limits, AfterLog(limits, log, calls[0]), calls[1..], key);
    }
  }

  /** Whatever other callers do meanwhile, waiting the returned seconds without a new failure is enough. */
  lemma WaitingIsEnough(limits: Limits, log: seq<Failure>, calls: seq<Call>, key: string, now: int, later: int)
    requires limits.Valid() && limits.retryAfterSeconds == None && SortedLog(log)
    requires Decide(limits, log, key, now).Deny? && NoFailureOf(key, calls)
    requires now + 1000 * Decide(limits, log, key, now).retryAfterSeconds <= later
    ensures Decide(limits, LogAfter(limits, log, calls), key, later) == Allow
  {
    RetryAfterIsExact(limits, log, key, now, now);
    RetryAfterIsExact(limits, log, key, now, later);
    TimesAfterCalls(limits, log, calls, key);
    TimesOfLive(log, key, later, limits.windowMs);
    TimesOfLive(LogAfter(limits, log, calls), key, later, limits.windowMs);
  }
}
