/** The plain guard the memory guard stands for: a log of counted failures that is never pruned.
    A failure is live while less than a window has passed since it was counted. */
module AttemptLog {
  import opened Common

  datatype Failure = Failure(key: string, at: int)

  datatype Limits = Limits(maxFailures: int, windowMs: int, maxKeys: int, retryAfterSeconds: Option<int>)
  {
    ghost predicate Valid() {
      0 < maxFailures && 0 < windowMs && 0 < maxKeys
    }
  }

  datatype Decision = Allow | Deny(retryAfterSeconds: int)

  function Max(a: int, b: int): int {
    if a < b then b else a
  }

  /** Whole seconds that cover the given milliseconds. */
  function CeilingSeconds(milliseconds: int): (s: int)
    ensures 1000 * (s - 1) < milliseconds <= 1000 * s
  {
    -((-milliseconds) / 1000)
  }

  function RetryAfter(limits: Limits, remainingMs: int): int {
    match limits.retryAfterSeconds
    case Some(seconds) => seconds
    case None => Max(1, CeilingSeconds(remainingMs))
  }

  function Recent(times: seq<int>, now: int, windowMs: int): seq<int> {
    if times == [] then []
    else if now - times[0] < windowMs then [times[0]] + Recent(times[1..], now, windowMs)
    else Recent(times[1..], now, windowMs)
  }

  function Live(log: seq<Failure>, now: int, windowMs: int): seq<Failure> {
    if log == [] then []
    else if now - log[0].at < windowMs then [log[0]] + Live(log[1..], now, windowMs)
    else Live(log[1..], now, windowMs)
  }

  function Times(log: seq<Failure>, key: string): seq<int> {
    if log == [] then []
    else if log[0].key == key then [log[0].at] + Times(log[1..], key)
    else Times(log[1..], key)
  }

  function Without(log: seq<Failure>, key: string): seq<Failure> {
    if log == [] then []
    else if log[0].key == key then Without(log[1..], key)
    else [log[0]] + Without(log[1..], key)
  }

  function Keys(log: seq<Failure>): set<string> {
    set f | f in log :: f.key
  }

  /** The keys of the log, each at the place of its latest failure. */
  function Finals(log: seq<Failure>): seq<string> {
    if log == [] then []
    else if log[0].key in Keys(log[1..]) then Finals(log[1..])
    else [log[0].key] + Finals(log[1..])
  }

  /** Denies a key with `maxFailures` live failures until the one that completes the count leaves the window. */
  function Decide(limits: Limits, log: seq<Failure>, key: string, now: int): Decision
    requires limits.Valid()
  {
    var times := Times(Live(log, now, limits.windowMs), key);
    if |times| < limits.maxFailures then Allow
    else Deny(RetryAfter(limits, times[|times| - limits.maxFailures] + limits.windowMs - now))
  }

  /** Makes room for `key`: at capacity the live key whose latest failure is oldest is forgotten. */
  function MakeRoom(limits: Limits, log: seq<Failure>, key: string, now: int): seq<Failure>
    requires limits.Valid()
  {
    var live := Live(log, now, limits.windowMs);
    if key in Keys(live) || |Finals(live)| < limits.maxKeys then log
    else Without(log, Finals(live)[0])
  }

  function Record(limits: Limits, log: seq<Failure>, key: string, now: int): seq<Failure>
    requires limits.Valid()
  {
    MakeRoom(limits, log, key, now) + [Failure(key, now)]
  }

  ghost predicate Sorted(times: seq<int>) {
    forall i, j :: 0 <= i < j < |times| ==> times[i] <= times[j]
  }

  ghost predicate SortedLog(log: seq<Failure>) {
    forall i, j :: 0 <= i < j < |log| ==> log[i].at <= log[j].at
  }

  ghost predicate NotAfter(log: seq<Failure>, now: int) {
    forall f :: f in log ==> f.at <= now
  }

  /** The latest `n` elements. */
  function Latest(times: seq<int>, n: nat): (r: seq<int>)
    ensures |r| <= n
  {
    if |times| <= n then times else times[|times| - n..]
  }

  // ---- What the definitions above mean ----

  lemma {:induction false} AllRecent(times: seq<int>, now: int, windowMs: int)
    requires forall i :: 0 <= i < |times| ==> now - times[i] < windowMs
    ensures Recent(times, now, windowMs) == times
  {
    if times != [] {
      AllRecent(times[1..], now, windowMs);
    }
  }

  lemma {:induction false} RecentOfSorted(times: seq<int>, now: int, windowMs: int)
    requires Sorted(times)
    ensures
      var r := Recent(times, now, windowMs);
      && |r| <= |times|
      && r == times[|times| - |r|..]
      && (forall i :: 0 <= i < |times| - |r| ==> now - times[i] >= windowMs)
      && (forall i :: |times| - |r| <= i < |times| ==> now - times[i] < windowMs)
  {
    if times != [] {
      if now - times[0] < windowMs {
        AllRecent(times, now, windowMs);
      } else {
        var tail := times[1..];
        RecentOfSorted(tail, now, windowMs);
        forall i | 0 < i < |times|
          ensures now - times[i] >= windowMs <==> i < |times| - |Recent(tail, now, windowMs)|
        {
          assert times[i] == tail[i - 1];
        }
      }
    }
  }

  lemma {:induction false} LiveMember(log: seq<Failure>, now: int, windowMs: int, f: Failure)
    ensures f in Live(log, now, windowMs) <==> f in log && now - f.at < windowMs
  {
    if log != [] {
      LiveMember(log[1..], now, windowMs, f);
    }
  }

  lemma {:induction false} WithoutMember(log: seq<Failure>, key: string, f: Failure)
    ensures f in Without(log, key) <==> f in log && f.key != key
  {
    if log != [] {
      WithoutMember(log[1..], key, f);
    }
  }

  lemma {:induction false} LiveConcat(a: seq<Failure>, b: seq<Failure>, now: int, windowMs: int)
    ensures Live(a + b, now, windowMs) == Live(a, now, windowMs) + Live(b, now, windowMs)
  {
    if a == [] {
      assert a + b == b;
    } else {
      assert (a + b)[1..] == a[1..] + b;
      LiveConcat(a[1..], b, now, windowMs);
    }
  }

  lemma {:induction false} TimesConcat(a: seq<Failure>, b: seq<Failure>, key: string)
    ensures Times(a + b, key) == Times(a, key) + Times(b, key)
  {
    if a == [] {
      assert a + b == b;
    } else {
      assert (a + b)[1..] == a[1..] + b;
      TimesConcat(a[1..], b, key);
    }
  }

  lemma {:induction false} LiveWithout(log: seq<Failure>, key: string, now: int, windowMs: int)
    ensures Live(Without(log, key), now, windowMs) == Without(Live(log, now, windowMs), key)
  {
    if log != [] {
      LiveWithout(log[1..], key, now, windowMs);
    }
  }

  lemma {:induction false} TimesWithout(log: seq<Failure>, gone: string, key: string)
    ensures Times(Without(log, gone), key) == if key == gone then [] else Times(log, key)
  {
    if log != [] {
      TimesWithout(log[1..], gone, key);
    }
  }

  lemma {:induction false} TimesOfLive(log: seq<Failure>, key: string, now: int, windowMs: int)
    ensures Times(Live(log, now, windowMs), key) == Recent(Times(log, key), now, windowMs)
  {
    if log != [] {
      TimesOfLive(log[1..], key, now, windowMs);
    }
  }

  lemma {:induction false} TimesNonempty(log: seq<Failure>, key: string)
    ensures Times(log, key) != [] <==> key in Keys(log)
  {
    if log != [] {
      TimesNonempty(log[1..], key);
    }
  }

  lemma {:induction false} TimesMember(log: seq<Failure>, key: string, t: int)
    ensures t in Times(log, key) <==> Failure(key, t) in log
  {
    if log != [] {
      TimesMember(log[1..], key, t);
    }
  }

  lemma {:induction false} TimesSorted(log: seq<Failure>, key: string)
    requires SortedLog(log)
    ensures Sorted(Times(log, key))
  {
    if log != [] {
      var rest := Times(log[1..], key);
      TimesSorted(log[1..], key);
      forall t | t in Times(log[1..], key)
        ensures log[0].at <= t
      {
        TimesMember(log[1..], key, t);
      }
      assert forall j :: 0 <= j < |rest| ==> rest[j] in rest;
    }
  }

  lemma {:induction false} LiveKeepsOrder(log: seq<Failure>, now: int, windowMs: int)
    requires SortedLog(log)
    ensures SortedLog(Live(log, now, windowMs))
  {
    if log != [] {
      LiveKeepsOrder(log[1..], now, windowMs);
      forall f | f in Live(log[1..], now, windowMs)
        ensures log[0].at <= f.at
      {
        LiveMember(log[1..], now, windowMs, f);
      }
    }
  }

  lemma {:induction false} WithoutKeepsOrder(log: seq<Failure>, key: string)
    requires SortedLog(log)
    ensures SortedLog(Without(log, key))
  {
    if log != [] {
      WithoutKeepsOrder(log[1..], key);
      forall f | f in Without(log[1..], key)
        ensures log[0].at <= f.at
      {
        WithoutMember(log[1..], key, f);
      }
    }
  }

  lemma {:induction false} LiveAgain(log: seq<Failure>, now: int, later: int, windowMs: int)
    requires now <= later
    ensures Live(Live(log, now, windowMs), later, windowMs) == Live(log, later, windowMs)
  {
    if log != [] {
      LiveAgain(log[1..], now, later, windowMs);
    }
  }

  lemma {:induction false} FinalsAreTheKeys(log: seq<Failure>, key: string)
    ensures key in Finals(log) <==> key in Keys(log)
  {
    if log != [] {
      FinalsAreTheKeys(log[1..], key);
    }
  }

  lemma {:induction false} FinalsAreDistinct(log: seq<Failure>)
    ensures forall i, j :: 0 <= i < j < |Finals(log)| ==> Finals(log)[i] != Finals(log)[j]
  {
    if log != [] {
      FinalsAreDistinct(log[1..]);
      FinalsAreTheKeys(log[1..], log[0].key);
    }
  }

  lemma TailHasKey(log: seq<Failure>, i: nat)
    requires 0 < i < |log|
    ensures log[i].key in Keys(log[1..])
  {
  }

  /** The key that `MakeRoom` forgets has no failure after the latest failure of any other live key. */
  lemma {:induction false} FirstFinalIsOldest(log: seq<Failure>, i: nat, key: string)
    requires i < |log| && Finals(log) != [] && log[i].key == Finals(log)[0]
    requires key in Keys(log)
    ensures exists j :: i <= j < |log| && log[j].key == key
  {
    if log[0].key in Keys(log[1..]) {
      if i == 0 {
        if key == log[0].key {
          assert log[i].key == key;
        } else {
          assert key in Keys(log[1..]);
          var j :| 0 <= j < |log[1..]| && log[1..][j].key == key;
          assert log[j + 1].key == key;
        }
      } else {
        assert key in Keys(log[1..]);
        FirstFinalIsOldest(log[1..], i - 1, key);
        var j :| i - 1 <= j < |log[1..]| && log[1..][j].key == key;
        assert log[j + 1].key == key;
      }
    } else {
      if 0 < i {
        TailHasKey(log, i);
      }
      var j :| 0 <= j < |log| && log[j].key == key;
    }
  }
}
