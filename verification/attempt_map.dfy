/** The guard's insertion-ordered map of timestamp lists, and the proof that it answers as the plain log does. */
module AttemptMap {
  import opened AttemptLog

  /** A map that remembers insertion order: `order` lists the keys of `entries`, each once. */
  datatype Attempts = Attempts(order: seq<string>, entries: map<string, seq<int>>)
  {
    ghost predicate WellFormed() {
      && (forall k :: k in order <==> k in entries)
      && (forall i, j :: 0 <= i < j < |order| ==> order[i] != order[j])
      && (forall k :: k in entries ==> entries[k] != [])
    }

    ghost predicate TimesSorted() {
      forall k :: k in entries ==> Sorted(entries[k])
    }

    function Get(key: string): seq<int> {
      if key in entries then entries[key] else []
    }

    function Delete(key: string): Attempts {
      Attempts(Keep(order, entries.Keys - {key}), entries - {key})
    }

    /** Writing to a present key keeps its place, a new key goes last. */
    function Set(key: string, times: seq<int>): Attempts {
      Attempts(if key in entries then order else order + [key], entries[key := times])
    }
  }

  function Keep(order: seq<string>, keys: set<string>): seq<string> {
    if order == [] then []
    else if order[0] in keys then [order[0]] + Keep(order[1..], keys)
    else Keep(order[1..], keys)
  }

  /** Everything a call at `now` drops: timestamps out of the window, in the lists that start with one. */
  function PrunedTimes(times: seq<int>, now: int, windowMs: int): seq<int> {
    if times == [] || times[0] + windowMs > now then times else Recent(times, now, windowMs)
  }

  function Surviving(a: Attempts, now: int, windowMs: int): set<string> {
    set k | k in a.entries && PrunedTimes(a.entries[k], now, windowMs) != []
  }

  function Pruned(a: Attempts, now: int, windowMs: int): Attempts {
    var kept := Surviving(a, now, windowMs);
    Attempts(Keep(a.order, kept), map k | k in kept :: PrunedTimes(a.entries[k], now, windowMs))
  }

  /** The decision on lists that have just been pruned. */
  function Answer(limits: Limits, a: Attempts, key: string, now: int): Decision
    requires limits.Valid()
  {
    var recent := a.Get(key);
    if |recent| >= limits.maxFailures then Deny(RetryAfter(limits, recent[0] + limits.windowMs - now)) else Allow
  }

  function WithCapacity(a: Attempts, key: string, maxKeys: int): Attempts {
    if key in a.entries || |a.order| < maxKeys || a.order == [] then a else a.Delete(a.order[0])
  }

  /** A counted failure on pruned lists: the key moves to the end with its latest timestamps. */
  function Counted(limits: Limits, a: Attempts, key: string, now: int): Attempts
    requires limits.Valid()
  {
    var roomy := WithCapacity(a, key, limits.maxKeys);
    roomy.Delete(key).Set(key, Latest(roomy.Get(key) + [now], limits.maxFailures))
  }

  // ---- Keep ----

  lemma {:induction false} KeepMember(order: seq<string>, keys: set<string>, k: string)
    ensures k in Keep(order, keys) <==> k in order && k in keys
  {
    if order != [] {
      KeepMember(order[1..], keys, k);
    }
  }

  lemma {:induction false} KeepDistinct(order: seq<string>, keys: set<string>)
    requires forall i, j :: 0 <= i < j < |order| ==> order[i] != order[j]
    ensures
      var r := Keep(order, keys);
      |r| <= |order| && forall i, j :: 0 <= i < j < |r| ==> r[i] != r[j]
  {
    if order != [] {
      KeepDistinct(order[1..], keys);
      KeepMember(order[1..], keys, order[0]);
    }
  }

  lemma {:induction false} KeepAll(order: seq<string>, keys: set<string>)
    requires forall k :: k in order ==> k in keys
    ensures Keep(order, keys) == order
  {
    if order != [] {
      KeepAll(order[1..], keys);
    }
  }

  lemma {:induction false} KeepTwice(order: seq<string>, first: set<string>, second: set<string>)
    ensures Keep(Keep(order, first), second) == Keep(order, first * second)
  {
    if order != [] {
      KeepTwice(order[1..], first, second);
    }
  }

  lemma {:induction false} KeepSame(order: seq<string>, first: set<string>, second: set<string>)
    requires forall k :: k in order ==> (k in first <==> k in second)
    ensures Keep(order, first) == Keep(order, second)
  {
    if order != [] {
      KeepSame(order[1..], first, second);
    }
  }

  lemma {:induction false} KeepLength(order: seq<string>, keys: set<string>, gone: string)
    requires forall i, j :: 0 <= i < j < |order| ==> order[i] != order[j]
    requires gone in order && gone !in keys
    ensures |Keep(order, keys)| < |order|
  {
    if order[0] == gone {
      KeepDistinct(order[1..], keys);
    } else {
      KeepLength(order[1..], keys, gone);
    }
  }

  // ---- Well-formedness ----

  lemma DeleteWellFormed(a: Attempts, key: string)
    requires a.WellFormed()
    ensures a.Delete(key).WellFormed()
    ensures |a.Delete(key).order| <= |a.order|
    ensures key in a.entries ==> |a.Delete(key).order| < |a.order|
  {
    var keys := a.entries.Keys - {key};
    forall k
      ensures k in a.Delete(key).order <==> k in a.Delete(key).entries
    {
      KeepMember(a.order, keys, k);
    }
    KeepDistinct(a.order, keys);
    if key in a.entries {
      KeepLength(a.order, keys, key);
    }
  }

  lemma CountedWellFormed(limits: Limits, a: Attempts, key: string, now: int)
    requires a.WellFormed() && limits.Valid() && |a.order| <= limits.maxKeys
    ensures Counted(limits, a, key, now).WellFormed()
    ensures |Counted(limits, a, key, now).order| <= limits.maxKeys
  {
    var roomy := WithCapacity(a, key, limits.maxKeys);
    if a.order != [] {
      assert a.order[0] in a.order;
      DeleteWellFormed(a, a.order[0]);
    }
    DeleteWellFormed(roomy, key);
    if key !in roomy.entries && roomy == a && a.order != [] {
      assert |a.order| < limits.maxKeys;
    }
  }
}
