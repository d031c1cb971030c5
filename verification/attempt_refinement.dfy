/** Under a clock that never goes back, the pruned map answers every sequence of calls as the plain log does. */
module AttemptRefinement {
  import opened AttemptLog
  import opened AttemptMap

  /** The map that a log of live failures stands for. */
  function View(limits: Limits, live: seq<Failure>): Attempts
    requires limits.Valid()
  {
    Attempts(Finals(live), map k | k in Keys(live) :: Latest(Times(live, k), limits.maxFailures))
  }

  lemma SameAttempts(a: Attempts, b: Attempts)
    requires a.order == b.order && a.entries.Keys == b.entries.Keys
    requires forall k :: k in a.entries ==> a.entries[k] == b.entries[k]
    ensures a == b
  {
  }

  lemma ViewKeys(limits: Limits, live: seq<Failure>)
    requires limits.Valid()
    ensures View(limits, live).entries.Keys == Keys(live)
  {
  }

  /** From `last` on, pruning the map gives exactly what the live part of the log stands for. */
  ghost predicate Represents(limits: Limits, a: Attempts, log: seq<Failure>, last: int)
    requires limits.Valid()
  {
    && a.WellFormed() && SortedLog(log) && NotAfter(log, last)
    && forall now :: last <= now ==> Pruned(a, now, limits.windowMs) == View(limits, Live(log, now, limits.windowMs))
  }

  lemma {:induction false} LiveIsSuffix(log: seq<Failure>, now: int, windowMs: int)
    requires SortedLog(log)
    ensures
      var live := Live(log, now, windowMs);
      |live| <= |log| && log[|log| - |live|..] == live
  {
    if log != [] {
      if now - log[0].at < windowMs {
        AllLive(log, now, windowMs);
      } else {
        LiveIsSuffix(log[1..], now, windowMs);
      }
    }
  }

  lemma {:induction false} AllLive(log: seq<Failure>, now: int, windowMs: int)
    requires SortedLog(log) && (log != [] ==> now - log[0].at < windowMs)
    ensures Live(log, now, windowMs) == log
  {
    if log != [] {
      AllLive(log[1..], now, windowMs);
    }
  }

  lemma {:induction false} FinalsOfSuffix(a: seq<Failure>, b: seq<Failure>)
    ensures Keep(Finals(a + b), Keys(b)) == Finals(b)
  {
    if a == [] {
      assert a + b == b;
      forall k | k in Finals(b)
        ensures k in Keys(b)
      {
        FinalsAreTheKeys(b, k);
      }
      KeepAll(Finals(b), Keys(b));
    } else {
      assert (a + b)[1..] == a[1..] + b;
      FinalsOfSuffix(a[1..], b);
      if a[0].key in Keys(b) {
        var f :| f in b && f.key == a[0].key;
        assert f in a[1..] + b;
      }
    }
  }

  lemma {:induction false} FinalsWithout(log: seq<Failure>, key: string)
    ensures Finals(Without(log, key)) == Keep(Finals(log), Keys(log) - {key})
  {
    if log != [] {
      FinalsWithout(log[1..], key);
      KeepTailFinals(log, key);
      assert log[0].key in Keys(log);
      if log[0].key != key {
        KeysWithout(log[1..], key);
      }
    }
  }

  lemma KeysWithout(log: seq<Failure>, key: string)
    ensures Keys(Without(log, key)) == Keys(log) - {key}
  {
    forall k
      ensures k in Keys(Without(log, key)) <==> k in Keys(log) - {key}
    {
      if k in Keys(log) - {key} {
        var f :| f in log && f.key == k;
        WithoutMember(log, key, f);
      }
      if k in Keys(Without(log, key)) {
        var f :| f in Without(log, key) && f.key == k;
        WithoutMember(log, key, f);
      }
    }
  }

  lemma FinalsInKeys(log: seq<Failure>)
    ensures forall k :: k in Finals(log) ==> k in Keys(log)
  {
  }

  /** Keeping against the keys of the whole log or of its tail is the same for the finals of the tail. */
  lemma KeepTailFinals(log: seq<Failure>, gone: string)
    requires log != []
    ensures Keep(Finals(log[1..]), Keys(log[1..]) - {gone}) == Keep(Finals(log[1..]), Keys(log) - {gone})
  {
    FinalsInKeys(log[1..]);
    assert forall k :: k in Keys(log[1..]) ==> k in Keys(log);
    KeepSame(Finals(log[1..]), Keys(log[1..]) - {gone}, Keys(log) - {gone});
  }

  lemma {:induction false} FinalsAppend(log: seq<Failure>, f: Failure)
    ensures Finals(log + [f]) == Keep(Finals(log), Keys(log) - {f.key}) + [f.key]
  {
    if log == [] {
      assert log + [f] == [f];
    } else {
      assert (log + [f])[1..] == log[1..] + [f];
      FinalsAppend(log[1..], f);
      KeepTailFinals(log, f.key);
      KeysAppend(log[1..], f);
      assert log[0].key in Keys(log);
    }
  }

  lemma KeysAppend(log: seq<Failure>, f: Failure)
    ensures Keys(log + [f]) == Keys(log) + {f.key}
  {
  }

  /** In a sorted list the recent times are those from the first one inside the window. */
  lemma {:induction false} RecentFrom(times: seq<int>, cut: nat, now: int, windowMs: int)
    requires Sorted(times) && cut <= |times|
    requires 0 < cut ==> now - times[cut - 1] >= windowMs
    requires cut < |times| ==> now - times[cut] < windowMs
    ensures Recent(times, now, windowMs) == times[cut..]
  {
    if times != [] {
      assert forall i :: 0 <= i < |times| - 1 ==> times[1..][i] == times[i + 1];
      if cut == 0 {
        assert |times| > 1 ==> times[0] <= times[1];
        RecentFrom(times[1..], 0, now, windowMs);
      } else {
        assert times[0] <= times[cut - 1];
        assert cut > 1 ==> times[1..][cut - 2] == times[cut - 1];
        RecentFrom(times[1..], cut - 1, now, windowMs);
      }
    }
  }

  /** Where the live times of a sorted list start. */
  lemma LiveFrom(times: seq<int>, now: int, windowMs: int) returns (cut: nat)
    requires Sorted(times)
    ensures cut <= |times| && Recent(times, now, windowMs) == times[cut..]
    ensures forall i :: 0 <= i < cut ==> now - times[i] >= windowMs
    ensures forall i :: cut <= i < |times| ==> now - times[i] < windowMs
  {
    RecentOfSorted(times, now, windowMs);
    cut := |times| - |Recent(times, now, windowMs)|;
  }

  lemma LatestOfRecent(times: seq<int>, n: nat, now: int, windowMs: int)
    requires Sorted(times) && 0 < n
    ensures PrunedTimes(Latest(times, n), now, windowMs) == Latest(Recent(times, now, windowMs), n)
  {
    var cut := LiveFrom(times, now, windowMs);
    if cut <= |times| - |Latest(times, n)| {
      LatestAllLive(times, n, cut, now, windowMs);
    } else {
      LatestPartlyLive(times, n, cut, now, windowMs);
    }
  }

  lemma LatestAllLive(times: seq<int>, n: nat, cut: nat, now: int, windowMs: int)
    requires Sorted(times) && 0 < n && cut <= |times| - |Latest(times, n)|
    requires forall i :: cut <= i < |times| ==> now - times[i] < windowMs
    ensures PrunedTimes(Latest(times, n), now, windowMs) == Latest(times[cut..], n)
  {
  }

  lemma LatestPartlyLive(times: seq<int>, n: nat, cut: nat, now: int, windowMs: int)
    requires Sorted(times) && 0 < n && |times| - |Latest(times, n)| < cut <= |times|
    requires now - times[cut - 1] >= windowMs
    requires cut < |times| ==> now - times[cut] < windowMs
    ensures PrunedTimes(Latest(times, n), now, windowMs) == Latest(times[cut..], n)
  {
    var latest := Latest(times, n);
    var gone := |times| - |latest|;
    LatestSlice(times, n, cut);
    assert latest[0] <= latest[cut - gone - 1];
    assert latest != [] && latest[0] + windowMs <= now;
    RecentFrom(latest, cut - gone, now, windowMs);
  }

  lemma LatestSlice(times: seq<int>, n: nat, cut: nat)
    requires Sorted(times) && |times| - |Latest(times, n)| < cut <= |times|
    ensures
      var latest := Latest(times, n);
      var gone := |times| - |latest|;
      && Sorted(latest)
      && latest[cut - gone - 1] == times[cut - 1]
      && (cut < |times| ==> latest[cut - gone] == times[cut])
      && latest[cut - gone..] == times[cut..]
      && Latest(times[cut..], n) == times[cut..]
  {
  }

  lemma PrunedViewTimes(limits: Limits, live: seq<Failure>, key: string, now: int)
    requires limits.Valid() && SortedLog(live)
    ensures
      var rest := Live(live, now, limits.windowMs);
      var pruned := PrunedTimes(Latest(Times(live, key), limits.maxFailures), now, limits.windowMs);
      && pruned == Latest(Times(rest, key), limits.maxFailures)
      && (pruned != [] <==> key in Keys(rest))
  {
    var rest := Live(live, now, limits.windowMs);
    AttemptLog.TimesSorted(live, key);
    LatestOfRecent(Times(live, key), limits.maxFailures, now, limits.windowMs);
    TimesOfLive(live, key, now, limits.windowMs);
    TimesNonempty(rest, key);
  }

  lemma LiveKeys(log: seq<Failure>, now: int, windowMs: int)
    ensures Keys(Live(log, now, windowMs)) <= Keys(log)
  {
    forall k | k in Keys(Live(log, now, windowMs))
      ensures k in Keys(log)
    {
      var f :| f in Live(log, now, windowMs) && f.key == k;
      LiveMember(log, now, windowMs, f);
    }
  }

  lemma PrunedView(limits: Limits, live: seq<Failure>, now: int)
    requires limits.Valid() && SortedLog(live)
    ensures Pruned(View(limits, live), now, limits.windowMs) == View(limits, Live(live, now, limits.windowMs))
  {
    var v := View(limits, live);
    var rest := Live(live, now, limits.windowMs);
    PrunedViewKeys(limits, live, now);
    LiveIsSuffix(live, now, limits.windowMs);
    FinalsOfSuffix(live[..|live| - |rest|], rest);
    assert live == live[..|live| - |rest|] + rest;
    forall k | k in Keys(rest)
      ensures Pruned(v, now, limits.windowMs).entries[k] == View(limits, rest).entries[k]
    {
      PrunedViewTimes(limits, live, k, now);
    }
    SameAttempts(Pruned(v, now, limits.windowMs), View(limits, rest));
  }

  lemma PrunedViewKeys(limits: Limits, live: seq<Failure>, now: int)
    requires limits.Valid() && SortedLog(live)
    ensures Surviving(View(limits, live), now, limits.windowMs) == Keys(Live(live, now, limits.windowMs))
  {
    LiveKeys(live, now, limits.windowMs);
    forall k | k in Keys(live)
      ensures k in Surviving(View(limits, live), now, limits.windowMs)
         <==> k in Keys(Live(live, now, limits.windowMs))
    {
      PrunedViewTimes(limits, live, k, now);
    }
  }

  lemma ViewWellFormed(limits: Limits, live: seq<Failure>)
    requires limits.Valid()
    ensures View(limits, live).WellFormed()
  {
    forall k
      ensures k in Finals(live) <==> k in Keys(live)
      ensures k in Keys(live) ==> Times(live, k) != []
    {
      FinalsAreTheKeys(live, k);
      TimesNonempty(live, k);
    }
    FinalsAreDistinct(live);
  }

  /** A map that is exactly the view of the live log keeps representing the log at every later time. */
  lemma ViewRepresents(limits: Limits, log: seq<Failure>, now: int)
    requires limits.Valid() && SortedLog(log) && NotAfter(log, now)
    ensures Represents(limits, View(limits, Live(log, now, limits.windowMs)), log, now)
  {
    var live := Live(log, now, limits.windowMs);
    ViewWellFormed(limits, live);
    LiveKeepsOrder(log, now, limits.windowMs);
    forall later | now <= later
      ensures Pruned(View(limits, live), later, limits.windowMs) == View(limits, Live(log, later, limits.windowMs))
    {
      PrunedView(limits, live, later);
      LiveAgain(log, now, later, limits.windowMs);
    }
  }

  lemma ViewWithout(limits: Limits, live: seq<Failure>, key: string)
    requires limits.Valid()
    ensures View(limits, live).Delete(key) == View(limits, Without(live, key))
  {
    FinalsWithout(live, key);
    KeysWithout(live, key);
    ViewKeys(limits, live);
    forall k | k in Keys(live) && k != key
      ensures Times(Without(live, key), k) == Times(live, k)
    {
      TimesWithout(live, key, k);
    }
    assert View(limits, live).Delete(key).entries == View(limits, Without(live, key)).entries;
  }

  lemma PrunedDelete(a: Attempts, key: string, now: int, windowMs: int)
    ensures Pruned(a.Delete(key), now, windowMs) == Pruned(a, now, windowMs).Delete(key)
  {
    var kept := Surviving(a, now, windowMs);
    var keys := a.entries.Keys - {key};
    assert Surviving(a.Delete(key), now, windowMs) == kept - {key};
    KeepTwice(a.order, keys, kept - {key});
    KeepTwice(a.order, kept, kept - {key});
    assert keys * (kept - {key}) == kept * (kept - {key});
    assert Pruned(a, now, windowMs).entries.Keys == kept;
    assert Pruned(a.Delete(key), now, windowMs).entries == Pruned(a, now, windowMs).Delete(key).entries;
  }

  lemma LatestAppend(times: seq<int>, n: nat, t: int)
    requires 0 < n
    ensures Latest(Latest(times, n) + [t], n) == Latest(times + [t], n)
  {
  }

  lemma TimesAppend(live: seq<Failure>, f: Failure, key: string)
    ensures Times(live + [f], key) == if key == f.key then Times(live, key) + [f.at] else Times(live, key)
  {
    TimesConcat(live, [f], key);
  }

  lemma ViewCounted(limits: Limits, live: seq<Failure>, key: string, now: int)
    requires limits.Valid()
    ensures
      var v := View(limits, live);
      v.Delete(key).Set(key, Latest(v.Get(key) + [now], limits.maxFailures))
      == View(limits, live + [Failure(key, now)])
  {
    var f := Failure(key, now);
    var v := View(limits, live);
    var w := View(limits, live + [f]);
    var counted := v.Delete(key).Set(key, Latest(v.Get(key) + [now], limits.maxFailures));
    FinalsAppend(live, f);
    KeysAppend(live, f);
    ViewKeys(limits, live);
    forall k | k in w.entries
      ensures counted.entries[k] == w.entries[k]
    {
      ViewCountedTimes(limits, live, key, now, k);
    }
    SameAttempts(counted, w);
  }

  lemma ViewCountedTimes(limits: Limits, live: seq<Failure>, key: string, now: int, k: string)
    requires limits.Valid() && k in Keys(live) + {key}
    ensures
      Latest(Times(live + [Failure(key, now)], k), limits.maxFailures)
      == if k == key then Latest(View(limits, live).Get(key) + [now], limits.maxFailures)
         else View(limits, live).Get(k)
  {
    TimesAppend(live, Failure(key, now), k);
    TimesNonempty(live, key);
    LatestAppend(Times(live, key), limits.maxFailures, now);
  }

  lemma RoomAgrees(limits: Limits, log: seq<Failure>, key: string, now: int)
    requires limits.Valid()
    ensures
      WithCapacity(View(limits, Live(log, now, limits.windowMs)), key, limits.maxKeys)
      == View(limits, Live(MakeRoom(limits, log, key, now), now, limits.windowMs))
  {
    var live := Live(log, now, limits.windowMs);
    if key !in Keys(live) && limits.maxKeys <= |Finals(live)| {
      LiveWithout(log, Finals(live)[0], now, limits.windowMs);
      ViewWithout(limits, live, Finals(live)[0]);
    }
  }

  lemma RoomKeepsLog(limits: Limits, log: seq<Failure>, key: string, now: int)
    requires limits.Valid() && SortedLog(log) && NotAfter(log, now)
    ensures SortedLog(Record(limits, log, key, now)) && NotAfter(Record(limits, log, key, now), now)
  {
    var live := Live(log, now, limits.windowMs);
    if key !in Keys(live) && limits.maxKeys <= |Finals(live)| {
      WithoutKeepsOrder(log, Finals(live)[0]);
      forall f | f in Without(log, Finals(live)[0])
        ensures f in log
      {
        WithoutMember(log, Finals(live)[0], f);
      }
    }
  }

  // ---- One call ----

  datatype Call =
    | Ask(key: string, now: int)
    | Succeeded(key: string)
    | Uncounted(key: string)
    | Failed(key: string, now: int)

  function AfterMap(limits: Limits, a: Attempts, call: Call): Attempts
    requires limits.Valid()
  {
    match call
    case Ask(_, now) => Pruned(a, now, limits.windowMs)
    case Succeeded(key) => a.Delete(key)
    case Uncounted(_) => a
    case Failed(key, now) => Counted(limits, Pruned(a, now, limits.windowMs), key, now)
  }

  function AfterLog(limits: Limits, log: seq<Failure>, call: Call): seq<Failure>
    requires limits.Valid()
  {
    match call
    case Ask(_, _) => log
    case Succeeded(key) => Without(log, key)
    case Uncounted(_) => log
    case Failed(key, now) => Record(limits, log, key, now)
  }

  function Clock(call: Call, last: int): int {
    if call.Ask? || call.Failed? then call.now else last
  }

  lemma SuccessRefines(limits: Limits, a: Attempts, log: seq<Failure>, key: string, last: int)
    requires limits.Valid() && Represents(limits, a, log, last)
    ensures Represents(limits, a.Delete(key), Without(log, key), last)
  {
    DeleteWellFormed(a, key);
    WithoutKeepsOrder(log, key);
    forall f | f in Without(log, key)
      ensures f in log
    {
      WithoutMember(log, key, f);
    }
    forall now | last <= now
      ensures Pruned(a.Delete(key), now, limits.windowMs)
           == View(limits, Live(Without(log, key), now, limits.windowMs))
    {
      PrunedDelete(a, key, now, limits.windowMs);
      ViewWithout(limits, Live(log, now, limits.windowMs), key);
      LiveWithout(log, key, now, limits.windowMs);
    }
  }

  lemma CountedView(limits: Limits, log: seq<Failure>, key: string, now: int)
    requires limits.Valid()
    ensures Counted(limits, View(limits, Live(log, now, limits.windowMs)), key, now)
         == View(limits, Live(Record(limits, log, key, now), now, limits.windowMs))
  {
    RoomAgrees(limits, log, key, now);
    var roomy := MakeRoom(limits, log, key, now);
    LiveConcat(roomy, [Failure(key, now)], now, limits.windowMs);
    assert Live([Failure(key, now)], now, limits.windowMs) == [Failure(key, now)];
    ViewCounted(limits, Live(roomy, now, limits.windowMs), key, now);
  }

  lemma FailureRefines(limits: Limits, a: Attempts, log: seq<Failure>, key: string, now: int, last: int)
    requires limits.Valid() && Represents(limits, a, log, last) && last <= now
    ensures Represents(limits, Counted(limits, Pruned(a, now, limits.windowMs), key, now),
                       Record(limits, log, key, now), now)
  {
    assert NotAfter(log, now);
    CountedView(limits, log, key, now);
    RoomKeepsLog(limits, log, key, now);
    ViewRepresents(limits, Record(limits, log, key, now), now);
  }

  lemma CallRefines(limits: Limits, a: Attempts, log: seq<Failure>, call: Call, last: int)
    requires limits.Valid() && Represents(limits, a, log, last) && last <= Clock(call, last)
    ensures Represents(limits, AfterMap(limits, a, call), AfterLog(limits, log, call), Clock(call, last))
  {
    match call {
      case Uncounted(_) =>
      case Ask(_, now) =>
        ViewRepresents(limits, log, now);
      case Succeeded(key) =>
        SuccessRefines(limits, a, log, key, last);
      case Failed(key, now) =>
        FailureRefines(limits, a, log, key, now, last);
    }
  }

  lemma AnswerRefines(limits: Limits, a: Attempts, log: seq<Failure>, key: string, now: int, last: int)
    requires limits.Valid() && Represents(limits, a, log, last) && last <= now
    ensures Answer(limits, Pruned(a, now, limits.windowMs), key, now) == Decide(limits, log, key, now)
  {
    TimesNonempty(Live(log, now, limits.windowMs), key);
  }

  // ---- Every sequence of calls ----

  function MapAnswers(limits: Limits, a: Attempts, calls: seq<Call>): seq<Decision>
    requires limits.Valid()
    decreases calls
  {
    if calls == [] then []
    else
      var rest := MapAnswers(limits, AfterMap(limits, a, calls[0]), calls[1..]);
      if calls[0].Ask?
      then [Answer(limits, Pruned(a, calls[0].now, limits.windowMs), calls[0].key, calls[0].now)] + rest
      else rest
  }

  function LogAnswers(limits: Limits, log: seq<Failure>, calls: seq<Call>): seq<Decision>
    requires limits.Valid()
    decreases calls
  {
    if calls == [] then []
    else
      var rest := LogAnswers(limits, AfterLog(limits, log, calls[0]), calls[1..]);
      if calls[0].Ask? then [Decide(limits, log, calls[0].key, calls[0].now)] + rest else rest
  }

  ghost predicate ClockNeverGoesBack(calls: seq<Call>, last: int) {
    calls != [] ==> last <= Clock(calls[0], last) && ClockNeverGoesBack(calls[1..], Clock(calls[0], last))
  }

  lemma {:induction false} RunRefines(limits: Limits, a: Attempts, log: seq<Failure>, calls: seq<Call>, last: int)
    requires limits.Valid() && Represents(limits, a, log, last) && ClockNeverGoesBack(calls, last)
    ensures MapAnswers(limits, a, calls) == LogAnswers(limits, log, calls)
    decreases calls
  {
    if calls != [] {
      CallRefines(limits, a, log, calls[0], last);
      if calls[0].Ask? {
        AnswerRefines(limits, a, log, calls[0].key, calls[0].now, last);
      }
      RunRefines(limits, AfterMap(limits, a, calls[0]), AfterLog(limits, log, calls[0]), calls[1..],
                 Clock(calls[0], last));
    }
  }

  /** A guard that starts empty gives every caller the answers of the plain log. */
  lemma GuardAnswersAsTheLog(limits: Limits, calls: seq<Call>, start: int)
    requires limits.Valid() && ClockNeverGoesBack(calls, start)
    ensures MapAnswers(limits, Attempts([], map[]), calls) == LogAnswers(limits, [], calls)
  {
    ViewRepresents(limits, [], start);
    assert View(limits, []) == Attempts([], map[]);
    RunRefines(limits, Attempts([], map[]), [], calls, start);
  }
}
