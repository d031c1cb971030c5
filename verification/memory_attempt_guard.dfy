/** The memory attempt guard itself: the map of timestamp lists, its heap of expirations and the two calls.
    Nothing here assumes a clock that moves forward. */
module MemoryGuard {
  import opened Common
  import opened ExpirationHeap
  import opened AttemptLog
  import opened AttemptMap

  datatype Reason = VALIDATION_FAILED | INTERNAL

  datatype Outcome = Succeeded | Failed(countsAsAttempt: bool)

  ghost function ExpiredKeys(a: Attempts, now: int, windowMs: int): set<string>
    requires a.WellFormed()
  {
    set k | k in a.entries && a.entries[k][0] + windowMs <= now
  }

  /** What one due heap entry does to the map. */
  function PrunedAt(a: Attempts, key: string, now: int, windowMs: int): Attempts
    requires key in a.entries
  {
    var recent := Recent(a.entries[key], now, windowMs);
    if recent == [] then a.Delete(key) else a.Set(key, recent)
  }

  lemma {:induction false} RecentIsLive(times: seq<int>, now: int, windowMs: int)
    ensures forall t :: t in Recent(times, now, windowMs) ==> now < t + windowMs
  {
    if times != [] {
      RecentIsLive(times[1..], now, windowMs);
    }
  }

  lemma PrunedAtShape(a: Attempts, key: string, now: int, windowMs: int)
    requires a.WellFormed() && key in ExpiredKeys(a, now, windowMs)
    ensures
      var b := PrunedAt(a, key, now, windowMs);
      && b.WellFormed() && |b.order| <= |a.order|
      && ExpiredKeys(b, now, windowMs) < ExpiredKeys(a, now, windowMs)
      && (forall k :: k in b.entries && k != key ==> k in a.entries && b.entries[k] == a.entries[k])
  {
    var b := PrunedAt(a, key, now, windowMs);
    var recent := Recent(a.entries[key], now, windowMs);
    RecentIsLive(a.entries[key], now, windowMs);
    DeleteWellFormed(a, key);
    assert recent != [] ==> recent[0] in recent;
    assert key !in ExpiredKeys(b, now, windowMs);
  }

  lemma PrunedAtTimes(a: Attempts, key: string, now: int, windowMs: int, k: string)
    requires a.WellFormed() && key in ExpiredKeys(a, now, windowMs) && k in a.entries
    ensures PrunedTimes(PrunedAt(a, key, now, windowMs).Get(k), now, windowMs)
         == PrunedTimes(a.entries[k], now, windowMs)
  {
    var recent := Recent(a.entries[key], now, windowMs);
    RecentIsLive(a.entries[key], now, windowMs);
    assert recent != [] ==> recent[0] in recent;
  }

  lemma PrunedAtKeepsResult(a: Attempts, key: string, now: int, windowMs: int)
    requires a.WellFormed() && key in ExpiredKeys(a, now, windowMs)
    ensures Pruned(PrunedAt(a, key, now, windowMs), now, windowMs) == Pruned(a, now, windowMs)
  {
    var b := PrunedAt(a, key, now, windowMs);
    var kept := Surviving(a, now, windowMs);
    forall k | k in a.entries
      ensures k in Surviving(b, now, windowMs) <==> k in kept
      ensures k in kept ==> PrunedTimes(b.entries[k], now, windowMs) == PrunedTimes(a.entries[k], now, windowMs)
    {
      PrunedAtTimes(a, key, now, windowMs, k);
    }
    assert Surviving(b, now, windowMs) == kept;
    if Recent(a.entries[key], now, windowMs) == [] {
      KeepTwice(a.order, a.entries.Keys - {key}, kept);
      KeepSame(a.order, (a.entries.Keys - {key}) * kept, kept);
    }
    assert Pruned(b, now, windowMs).entries == Pruned(a, now, windowMs).entries;
  }

  lemma NothingExpired(a: Attempts, now: int, windowMs: int)
    requires a.WellFormed() && ExpiredKeys(a, now, windowMs) == {}
    ensures Pruned(a, now, windowMs) == a
  {
    forall k | k in a.entries
      ensures PrunedTimes(a.entries[k], now, windowMs) == a.entries[k]
    {
      assert k !in ExpiredKeys(a, now, windowMs);
    }
    KeepAll(a.order, Surviving(a, now, windowMs));
    assert Pruned(a, now, windowMs).entries == a.entries;
  }

  /** Every key of the map has an entry at exactly the time its first timestamp leaves the window.
      Entries of keys that have changed since may still be around. */
  ghost predicate Indexed(a: Attempts, items: seq<Expiration>, windowMs: int)
    requires a.WellFormed()
  {
    forall k :: k in a.entries ==> Expiration(k, a.entries[k][0] + windowMs) in items
  }

  lemma StaleEntryPopped(a: Attempts, before: seq<Expiration>, rest: seq<Expiration>, popped: Expiration,
                         now: int, windowMs: int)
    requires a.WellFormed() && Indexed(a, before, windowMs)
    requires multiset(before) == multiset(rest) + multiset{popped}
    requires popped.expiresAt <= now
    requires popped.key !in a.entries || a.entries[popped.key][0] + windowMs > now
    ensures Indexed(a, rest, windowMs)
  {
    PoppedFrom(before, rest, popped);
  }

  lemma OthersStayIndexed(a: Attempts, b: Attempts, before: seq<Expiration>, after: seq<Expiration>,
                          popped: Expiration, windowMs: int)
    requires a.WellFormed() && b.WellFormed() && Indexed(a, before, windowMs)
    requires forall k :: k in b.entries && k != popped.key ==> k in a.entries && b.entries[k] == a.entries[k]
    requires popped.key in b.entries ==> Expiration(popped.key, b.entries[popped.key][0] + windowMs) in after
    requires forall e :: e in before && e != popped ==> e in after
    ensures Indexed(b, after, windowMs)
  {
  }

  lemma DueEntryPruned(a: Attempts, before: seq<Expiration>, after: seq<Expiration>,
                       popped: Expiration, now: int, windowMs: int)
    requires a.WellFormed() && Indexed(a, before, windowMs)
    requires popped.key in ExpiredKeys(a, now, windowMs)
    requires forall e :: e in before && e != popped ==> e in after
    requires
      var recent := Recent(a.entries[popped.key], now, windowMs);
      recent != [] ==> Expiration(popped.key, recent[0] + windowMs) in after
    ensures
      var b := PrunedAt(a, popped.key, now, windowMs);
      && b.WellFormed() && |b.order| <= |a.order|
      && Indexed(b, after, windowMs)
      && Pruned(b, now, windowMs) == Pruned(a, now, windowMs)
      && ExpiredKeys(b, now, windowMs) < ExpiredKeys(a, now, windowMs)
  {
    PrunedAtShape(a, popped.key, now, windowMs);
    PrunedAtKeepsResult(a, popped.key, now, windowMs);
    OthersStayIndexed(a, PrunedAt(a, popped.key, now, windowMs), before, after, popped, windowMs);
  }

  lemma CountedIndexed(limits: Limits, a: Attempts, before: seq<Expiration>, after: seq<Expiration>,
                       key: string, now: int)
    requires limits.Valid() && a.WellFormed() && |a.order| <= limits.maxKeys
    requires Indexed(a, before, limits.windowMs)
    requires
      var updated := Counted(limits, a, key, now).entries[key];
      updated != [] && Expiration(key, updated[0] + limits.windowMs) in after
    requires forall e :: e in before ==> e in after
    ensures
      var b := Counted(limits, a, key, now);
      && b.WellFormed() && |b.order| <= limits.maxKeys
      && Indexed(b, after, limits.windowMs)
  {
    CountedWellFormed(limits, a, key, now);
    CountedOthers(limits, a, key, now);
    var b := Counted(limits, a, key, now);
    OthersStayIndexed(a, b, before, after, Expiration(key, b.entries[key][0] + limits.windowMs), limits.windowMs);
  }

  lemma CountedOthers(limits: Limits, a: Attempts, key: string, now: int)
    requires limits.Valid() && a.WellFormed()
    ensures var b := Counted(limits, a, key, now);
            forall k :: k in b.entries && k != key ==> k in a.entries && b.entries[k] == a.entries[k]
  {
  }

  class MemoryAttemptGuard {
    const limits: Limits
    var attempts: Attempts
    var expirations: Heap

    ghost predicate Consistent()
      reads this, expirations
    {
      && attempts.WellFormed()
      && HeapOrdered(expirations.items)
      && Indexed(attempts, expirations.items, limits.windowMs)
    }

    ghost predicate Valid()
      reads this, expirations
    {
      && limits.Valid()
      && Consistent()
      && |attempts.order| <= limits.maxKeys
      && |expirations.items| <= 4 * limits.maxKeys
    }

    constructor (limits: Limits)
      requires limits.Valid()
      ensures Valid() && fresh(expirations)
      ensures this.limits == limits && attempts == Attempts([], map[])
    {
      this.limits := limits;
      attempts := Attempts([], map[]);
      expirations := new Heap();
    }

    method PruneExpired(now: int)
      requires Valid()
      modifies this`attempts, expirations
      ensures Valid() && expirations == old(expirations)
      ensures attempts == Pruned(old(attempts), now, limits.windowMs)
      ensures ExpiredKeys(attempts, now, limits.windowMs) == {}
      ensures |expirations.items| <= old(|expirations.items|)
    {
      while |expirations.items| > 0 && expirations.items[0].expiresAt <= now
        invariant Consistent() && |attempts.order| <= old(|attempts.order|)
        invariant |expirations.items| <= old(|expirations.items|)
        invariant Pruned(attempts, now, limits.windowMs) == Pruned(old(attempts), now, limits.windowMs)
        decreases ExpiredKeys(attempts, now, limits.windowMs), |expirations.items|
      {
        DropDueEntry(now);
      }
      NoneDue(now);
      NothingExpired(attempts, now, limits.windowMs);
    }

    /** One turn of the pruning loop. Either the heap loses a stale entry or the map loses an expired key's
        old timestamps, so a key never turns due again. */
    method DropDueEntry(now: int)
      requires Consistent() && |expirations.items| > 0 && expirations.items[0].expiresAt <= now
      modifies this`attempts, expirations
      ensures Consistent() && |attempts.order| <= old(|attempts.order|)
      ensures |expirations.items| <= old(|expirations.items|)
      ensures Pruned(attempts, now, limits.windowMs) == Pruned(old(attempts), now, limits.windowMs)
      ensures
        || ExpiredKeys(attempts, now, limits.windowMs) < old(ExpiredKeys(attempts, now, limits.windowMs))
        || (attempts == old(attempts) && |expirations.items| < old(|expirations.items|))
    {
      ghost var before := expirations.items;
      var popped := expirations.Pop();
      var expired := popped.value;
      ghost var rest := expirations.items;
      if expired.key !in attempts.entries
         || attempts.entries[expired.key][0] + limits.windowMs > now {
        StaleEntryPopped(attempts, before, rest, expired, now, limits.windowMs);
        return;
      }
      PoppedFrom(before, rest, expired);
      ghost var unpruned := attempts;
      var recent := Recent(attempts.entries[expired.key], now, limits.windowMs);
      if |recent| == 0 {
        attempts := attempts.Delete(expired.key);
      } else {
        attempts := attempts.Set(expired.key, recent);
        expirations.Push(Expiration(expired.key, recent[0] + limits.windowMs));
        PushedOnto(rest, expirations.items, Expiration(expired.key, recent[0] + limits.windowMs));
      }
      DueEntryPruned(unpruned, before, expirations.items, expired, now, limits.windowMs);
    }

    lemma NoneDue(now: int)
      requires attempts.WellFormed() && HeapOrdered(expirations.items)
      requires Indexed(attempts, expirations.items, limits.windowMs)
      requires |expirations.items| == 0 || now < expirations.items[0].expiresAt
      ensures ExpiredKeys(attempts, now, limits.windowMs) == {}
    {
      forall k | k in attempts.entries
        ensures now < attempts.entries[k][0] + limits.windowMs
      {
        var i: nat :| i < |expirations.items|
                      && expirations.items[i] == Expiration(k, attempts.entries[k][0] + limits.windowMs);
        RootIsLeast(expirations.items, i);
      }
    }

    /** `key` is absent when the input did not validate, `now` when the clock failed. */
    method BeforeAttempt(key: Option<string>, now: Option<int>) returns (r: Result<Decision, Reason>)
      requires Valid()
      modifies this`attempts, expirations
      ensures Valid() && expirations == old(expirations)
      ensures key.None? ==> r == Err(VALIDATION_FAILED) && attempts == old(attempts)
      ensures key.Some? && now.None? ==> r == Err(INTERNAL) && attempts == old(attempts)
      ensures key.Some? && now.Some? ==>
                && attempts == Pruned(old(attempts), now.value, limits.windowMs)
                && r == Ok(Answer(limits, attempts, key.value, now.value))
    {
      if key.None? {
        return Err(VALIDATION_FAILED);
      }
      if now.None? {
        return Err(INTERNAL);
      }
      PruneExpired(now.value);
      var recent := attempts.Get(key.value);
      if |recent| >= limits.maxFailures {
        return Ok(Deny(RetryAfter(limits, recent[0] + limits.windowMs - now.value)));
      }
      return Ok(Allow);
    }

    method AfterAttempt(key: Option<string>, outcome: Outcome, now: Option<int>) returns (r: Result<(), Reason>)
      requires Valid()
      modifies this, expirations
      ensures Valid() && (expirations == old(expirations) || fresh(expirations))
      ensures key.None? ==> r == Err(VALIDATION_FAILED) && attempts == old(attempts)
      ensures key.Some? && outcome == Succeeded ==> r == Ok(()) && attempts == old(attempts).Delete(key.value)
      ensures key.Some? && outcome == Failed(false) ==> r == Ok(()) && attempts == old(attempts)
      ensures key.Some? && outcome == Failed(true) && now.None? ==> r == Err(INTERNAL) && attempts == old(attempts)
      ensures key.Some? && outcome == Failed(true) && now.Some? ==>
                && r == Ok(())
                && attempts == Counted(limits, Pruned(old(attempts), now.value, limits.windowMs), key.value, now.value)
    {
      if key.None? {
        return Err(VALIDATION_FAILED);
      }
      if outcome.Succeeded? {
        DeleteWellFormed(attempts, key.value);
        attempts := attempts.Delete(key.value);
        return Ok(());
      }
      if !outcome.countsAsAttempt {
        return Ok(());
      }
      if now.None? {
        return Err(INTERNAL);
      }
      PruneExpired(now.value);
      CountFailure(key.value, now.value);
      return Ok(());
    }

    /** The rest of a counted failure, once the map has been pruned. */
    method CountFailure(key: string, now: int)
      requires Valid()
      modifies this, expirations
      ensures Valid() && (expirations == old(expirations) || fresh(expirations))
      ensures attempts == Counted(limits, old(attempts), key, now)
    {
      ghost var before := attempts;
      ghost var indexed := expirations.items;
      if key !in attempts.entries && |attempts.order| >= limits.maxKeys && attempts.order != [] {
        attempts := attempts.Delete(attempts.order[0]);
      }
      var recent := attempts.Get(key);
      attempts := attempts.Delete(key);
      var updated := Latest(recent + [now], limits.maxFailures);
      attempts := attempts.Set(key, updated);
      expirations.Push(Expiration(key, updated[0] + limits.windowMs));
      PushedOnto(indexed, expirations.items, Expiration(key, updated[0] + limits.windowMs));
      CountedIndexed(limits, before, indexed, expirations.items, key, now);
      if |expirations.items| > limits.maxKeys * 4 {
        expirations := RebuildExpirations();
      }
    }

    method RebuildExpirations() returns (heap: Heap)
      requires attempts.WellFormed()
      ensures fresh(heap) && HeapOrdered(heap.items)
      ensures |heap.items| == |attempts.order|
      ensures Indexed(attempts, heap.items, limits.windowMs)
    {
      heap := new Heap();
      var i := 0;
      while i < |attempts.order|
        invariant 0 <= i <= |attempts.order| && fresh(heap)
        invariant HeapOrdered(heap.items) && |heap.items| == i
        invariant forall j :: 0 <= j < i ==>
                                Expiration(attempts.order[j], attempts.entries[attempts.order[j]][0] + limits.windowMs)
                                in heap.items
      {
        var key := attempts.order[i];
        var timestamps := attempts.entries[key];
        ghost var before := heap.items;
        heap.Push(Expiration(key, timestamps[0] + limits.windowMs));
        PushedOnto(before, heap.items, Expiration(key, timestamps[0] + limits.windowMs));
        i := i + 1;
      }
    }
  }

  lemma PoppedFrom(before: seq<Expiration>, after: seq<Expiration>, popped: Expiration)
    requires multiset(before) == multiset(after) + multiset{popped}
    ensures forall e :: e in before && e != popped ==> e in after
  {
    forall e | e in before && e != popped
      ensures e in after
    {
      assert e in multiset(before);
      assert e in multiset(after);
    }
  }

  lemma PushedOnto(before: seq<Expiration>, after: seq<Expiration>, pushed: Expiration)
    requires multiset(after) == multiset(before) + multiset{pushed}
    ensures pushed in after && forall e :: e in before ==> e in after
  {
    assert pushed in multiset(after);
    forall e | e in before
      ensures e in after
    {
      assert e in multiset(before);
      assert e in multiset(after);
    }
  }
}
