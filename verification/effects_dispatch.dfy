/** How core splits side effects by policy, checks what a dispatcher answers, and puts the two halves together again. */
module EffectsDispatch {
  import opened Common

  datatype Policy = Required | BestEffort

  /** The two reasons the code names itself, and any other text. */
  datatype Reason = SIDE_EFFECT_FAILED | STORE_UNAVAILABLE | Given(text: string)

  datatype Failure = Failure(index: int, reason: Reason)

  /** What a dispatcher reports. An absent list is an undefined field. */
  datatype Report = Report(dispatched: seq<int>, deferred: Option<seq<int>>, failed: Option<seq<Failure>>)
  {
    function Deferred(): seq<int> {
      if deferred.Some? then deferred.value else []
    }

    function Failed(): seq<Failure> {
      if failed.Some? then failed.value else []
    }
  }

  /** At most 512 characters, at least one, none of them a control character; so are the two named reasons. */
  predicate SafeReason(reason: Reason) {
    reason.Given? ==>
      0 < |reason.text| <= 512
      && forall i :: 0 <= i < |reason.text| ==> '\U{20}' <= reason.text[i] != '\U{7f}'
  }

  // ---- Exact cover ----

  function FailedIndexes(failed: seq<Failure>): seq<int> {
    seq(|failed|, k requires 0 <= k < |failed| => failed[k].index)
  }

  function AllIndexes(r: Report): seq<int> {
    r.dispatched + r.Deferred() + FailedIndexes(r.Failed())
  }

  /** Every index, as often as some list of the report has it. */
  ghost function Placed(r: Option<Report>): multiset<int> {
    if r.None? then multiset{} else multiset(AllIndexes(r.value))
  }

  /** The indexes 0 to n-1, once each. */
  ghost function EachOnce(n: nat): multiset<int> {
    if n == 0 then multiset{} else EachOnce(n - 1) + multiset{n - 1}
  }

  lemma {:induction false} EachOnceCounts(n: nat)
    ensures |EachOnce(n)| == n
    ensures forall i :: EachOnce(n)[i] == if 0 <= i < n then 1 else 0
  {
    if n > 0 {
      EachOnceCounts(n - 1);
    }
  }

  /** Each effect is in exactly one of the three lists, exactly once, and nothing else is. */
  ghost predicate Covers(r: Option<Report>, n: nat) {
    Placed(r) == EachOnce(n)
  }

  predicate FailuresAllowed(failed: seq<Failure>, policies: seq<Policy>) {
    forall k :: 0 <= k < |failed| ==>
      && 0 <= failed[k].index < |policies| && policies[failed[k].index] == BestEffort && SafeReason(failed[k].reason)
  }

  /** What core accepts from a dispatcher. */
  ghost predicate IsDispatchResult(r: Report, policies: seq<Policy>) {
    Covers(Some(r), |policies|) && FailuresAllowed(r.Failed(), policies)
  }

  // ---- Core's check, as the loop it is ----

  predicate Distinct(all: seq<int>) {
    forall j, k :: 0 <= j < k < |all| ==> all[j] != all[k]
  }

  predicate Within(all: seq<int>, n: nat) {
    forall k :: 0 <= k < |all| ==> 0 <= all[k] < n
  }

  lemma {:induction false} DistinctCounts(all: seq<int>)
    requires Distinct(all)
    ensures forall i :: multiset(all)[i] <= 1
  {
    if all != [] {
      var rest, last := all[..|all| - 1], all[|all| - 1];
      DistinctCounts(rest);
      assert all == rest + [last];
      assert last !in rest;
    }
  }

  lemma SubBagOfSameSize(a: multiset<int>, b: multiset<int>)
    requires a <= b && |a| == |b|
    ensures a == b
  {
    assert b == a + (b - a);
    assert |b - a| == 0;
  }

  lemma DistinctCover(all: seq<int>, n: nat)
    requires Distinct(all) && Within(all, n) && |all| == n
    ensures multiset(all) == EachOnce(n)
  {
    EachOnceCounts(n);
    DistinctCounts(all);
    forall i
      ensures multiset(all)[i] <= EachOnce(n)[i]
    {
      if i in multiset(all) {
        assert i in all;
      }
    }
    SubBagOfSameSize(multiset(all), EachOnce(n));
  }

  lemma TakeOut(items: seq<int>, at: nat)
    requires at < |items|
    ensures items == items[..at] + [items[at]] + items[at + 1..]
    ensures multiset(items) == multiset(items[..at] + items[at + 1..]) + multiset{items[at]}
  {
  }

  lemma CountOfTwo(all: seq<int>, j: nat, k: nat)
    requires j < k < |all| && all[j] == all[k]
    ensures multiset(all)[all[k]] >= 2
  {
    TakeOut(all, k);
    assert (all[..k] + all[k + 1..])[j] == all[j];
    assert all[j] in multiset(all[..k] + all[k + 1..]);
  }

  lemma CoverIsDistinct(all: seq<int>, n: nat)
    requires multiset(all) == EachOnce(n)
    ensures Distinct(all) && Within(all, n) && |all| == n
  {
    EachOnceCounts(n);
    assert |multiset(all)| == |all|;
    forall k | 0 <= k < |all|
      ensures 0 <= all[k] < n
    {
      assert all[k] in multiset(all);
    }
    forall j, k | 0 <= j < k < |all|
      ensures all[j] != all[k]
    {
      if all[j] == all[k] {
        CountOfTwo(all, j, k);
      }
    }
  }

  ghost function SetOf(all: seq<int>): set<int> {
    set x | x in all
  }

  lemma {:induction false} SetOfDistinct(all: seq<int>)
    requires Distinct(all)
    ensures |SetOf(all)| == |all|
  {
    if all == [] {
      assert SetOf(all) == {};
    } else {
      var rest, last := all[..|all| - 1], all[|all| - 1];
      SetOfDistinct(rest);
      assert all == rest + [last] && last !in rest;
      assert SetOf(all) == SetOf(rest) + {last};
    }
  }

  /** The loop with its set of indexes accepts exactly the lists that have each index once. */
  method CheckIndexes(items: seq<int>, n: nat) returns (ok: bool)
    ensures ok <==> multiset(items) == EachOnce(n)
  {
    var indexes: set<int> := {};
    var i := 0;
    while i < |items|
      invariant 0 <= i <= |items| && indexes == SetOf(items[..i])
      invariant Within(items[..i], n) && Distinct(items[..i])
    {
      if items[i] < 0 || items[i] >= n || items[i] in indexes {
        if multiset(items) == EachOnce(n) {
          CoverIsDistinct(items, n);
        }
        return false;
      }
      assert items[..i + 1] == items[..i] + [items[i]];
      indexes := indexes + {items[i]};
      i := i + 1;
    }
    assert items[..i] == items;
    SetOfDistinct(items);
    if |items| == n {
      DistinctCover(items, n);
    } else if multiset(items) == EachOnce(n) {
      CoverIsDistinct(items, n);
    }
    return |indexes| == n;
  }

  /** Core accepts exactly the reports that cover the effects and fail no required one. */
  method CheckDispatchResult(r: Report, policies: seq<Policy>) returns (ok: bool)
    ensures ok <==> IsDispatchResult(r, policies)
  {
    var failed := r.Failed();
    if exists k :: 0 <= k < |failed| && !SafeReason(failed[k].reason) {
      return false;
    }
    ok := CheckIndexes(AllIndexes(r), |policies|);
    if ok {
      CoverInRange(r, |policies|);
      ok := forall k :: 0 <= k < |failed| ==> policies[failed[k].index] == BestEffort;
    }
  }

  // ---- Splitting by policy and mapping back ----

  /** The indexes of the effects with this policy, in order. */
  function Selected(policies: seq<Policy>, policy: Policy): seq<int> {
    if policies == [] then []
    else
      var n := |policies| - 1;
      var rest := Selected(policies[..n], policy);
      if policies[n] == policy then rest + [n] else rest
  }

  lemma {:induction false} SelectedAre(policies: seq<Policy>, policy: Policy)
    ensures forall k :: 0 <= k < |Selected(policies, policy)| ==>
                          && 0 <= Selected(policies, policy)[k] < |policies|
                          && policies[Selected(policies, policy)[k]] == policy
  {
    if policies != [] {
      SelectedAre(policies[..|policies| - 1], policy);
    }
  }

  /** Between them the two selections have every index once. */
  lemma {:induction false} SelectionsPartition(policies: seq<Policy>)
    ensures multiset(Selected(policies, Required)) + multiset(Selected(policies, BestEffort)) == EachOnce(|policies|)
  {
    if policies != [] {
      SelectionsPartition(policies[..|policies| - 1]);
    }
  }

  function RemapItems(items: seq<int>, original: seq<int>): seq<int>
    requires Within(items, |original|)
  {
    seq(|items|, k requires 0 <= k < |items| => original[items[k]])
  }

  function RemapFailures(failed: seq<Failure>, original: seq<int>): seq<Failure>
    requires forall k :: 0 <= k < |failed| ==> 0 <= failed[k].index < |original|
  {
    seq(|failed|, k requires 0 <= k < |failed| => failed[k].(index := original[failed[k].index]))
  }

  predicate InRange(r: Report, n: nat) {
    && Within(r.dispatched, n) && Within(r.Deferred(), n)
    && (forall k :: 0 <= k < |r.Failed()| ==> 0 <= r.Failed()[k].index < n)
  }

  function Remapped(r: Report, original: seq<int>): Report
    requires InRange(r, |original|)
  {
    Report(RemapItems(r.dispatched, original),
           if r.deferred.Some? then Some(RemapItems(r.Deferred(), original)) else None,
           if r.failed.Some? then Some(RemapFailures(r.Failed(), original)) else None)
  }

  lemma RemapAppend(a: seq<int>, b: seq<int>, original: seq<int>)
    requires Within(a, |original|) && Within(b, |original|)
    ensures Within(a + b, |original|)
    ensures RemapItems(a + b, original) == RemapItems(a, original) + RemapItems(b, original)
  {
  }

  lemma RemapFailedIndexes(failed: seq<Failure>, original: seq<int>)
    requires Within(FailedIndexes(failed), |original|)
    ensures forall k :: 0 <= k < |failed| ==> 0 <= failed[k].index < |original|
    ensures FailedIndexes(RemapFailures(failed, original)) == RemapItems(FailedIndexes(failed), original)
  {
    assert forall k :: 0 <= k < |failed| ==> failed[k].index == FailedIndexes(failed)[k];
  }

  lemma RemapTakeOut(items: seq<int>, at: nat, original: seq<int>)
    requires Within(items, |original|) && at < |items|
    ensures Within(items[..at] + items[at + 1..], |original|)
    ensures multiset(RemapItems(items, original))
            == multiset(RemapItems(items[..at] + items[at + 1..], original)) + multiset{original[items[at]]}
  {
    var before, after := items[..at], items[at + 1..];
    TakeOut(items, at);
    RemapAppend(before + [items[at]], after, original);
    RemapAppend(before, [items[at]], original);
    RemapAppend(before, after, original);
    assert RemapItems([items[at]], original) == [original[items[at]]];
  }

  /** Mapping a permutation of 0 to n-1 through a list gives its first n elements, each once. */
  lemma {:induction false} RemapPermutation(items: seq<int>, n: nat, original: seq<int>)
    requires multiset(items) == EachOnce(n) && n <= |original| && Within(items, |original|)
    ensures multiset(RemapItems(items, original)) == multiset(original[..n])
    decreases n
  {
    if n == 0 {
      EmptyCover(items);
    } else {
      var rest := TakeLast(items, n, original);
      RemapPermutation(rest, n - 1, original);
      PrefixBag(original, n);
    }
  }

  lemma EmptyCover(items: seq<int>)
    requires multiset(items) == EachOnce(0)
    ensures items == []
  {
    CoverIsDistinct(items, 0);
  }

  lemma PrefixBag(original: seq<int>, n: nat)
    requires 0 < n <= |original|
    ensures multiset(original[..n]) == multiset(original[..n - 1]) + multiset{original[n - 1]}
  {
    assert original[..n] == original[..n - 1] + [original[n - 1]];
  }

  lemma Cancel(a: multiset<int>, b: multiset<int>, i: int)
    requires a + multiset{i} == b + multiset{i}
    ensures a == b
  {
    assert a == (a + multiset{i}) - multiset{i};
  }

  lemma TakeLast(items: seq<int>, n: nat, original: seq<int>) returns (rest: seq<int>)
    requires 0 < n <= |original| && multiset(items) == EachOnce(n) && Within(items, |original|)
    ensures multiset(rest) == EachOnce(n - 1) && Within(rest, |original|)
    ensures multiset(RemapItems(items, original))
            == multiset(RemapItems(rest, original)) + multiset{original[n - 1]}
  {
    EachOnceCounts(n);
    assert n - 1 in multiset(items);
    var at :| 0 <= at < |items| && items[at] == n - 1;
    rest := items[..at] + items[at + 1..];
    RestCovers(items, at, n);
    RemapTakeOut(items, at, original);
  }

  lemma RestCovers(items: seq<int>, at: nat, n: nat)
    requires 0 < n && multiset(items) == EachOnce(n) && at < |items| && items[at] == n - 1
    ensures multiset(items[..at] + items[at + 1..]) == EachOnce(n - 1)
  {
    TakeOut(items, at);
    Cancel(multiset(items[..at] + items[at + 1..]), EachOnce(n - 1), n - 1);
  }

  lemma PartsWithin(a: seq<int>, b: seq<int>, c: seq<int>, n: nat)
    requires Within(a + b + c, n)
    ensures Within(a, n) && Within(b, n) && Within(c, n)
  {
    var all := a + b + c;
    assert forall k :: 0 <= k < |a| ==> a[k] == all[k];
    assert forall k :: 0 <= k < |b| ==> b[k] == all[|a| + k];
    assert forall k :: 0 <= k < |c| ==> c[k] == all[|a| + |b| + k];
  }

  lemma CoverInRange(r: Report, n: nat)
    requires Covers(Some(r), n)
    ensures InRange(r, n) && Within(FailedIndexes(r.Failed()), n)
  {
    CoverIsDistinct(AllIndexes(r), n);
    PartsWithin(r.dispatched, r.Deferred(), FailedIndexes(r.Failed()), n);
    assert forall k :: 0 <= k < |r.Failed()| ==> r.Failed()[k].index == FailedIndexes(r.Failed())[k];
  }

  /** A report that covers the selected effects covers, mapped back, exactly their original indexes. */
  lemma RemappedCovers(r: Report, original: seq<int>)
    requires Covers(Some(r), |original|)
    ensures InRange(r, |original|)
    ensures Placed(Some(Remapped(r, original))) == multiset(original)
  {
    CoverInRange(r, |original|);
    var all := AllIndexes(r);
    CoverIsDistinct(all, |original|);
    RemapAppend(r.dispatched + r.Deferred(), FailedIndexes(r.Failed()), original);
    RemapAppend(r.dispatched, r.Deferred(), original);
    RemapFailedIndexes(r.Failed(), original);
    RemapPermutation(all, |original|, original);
    assert original[..|original|] == original;
    assert AllIndexes(Remapped(r, original)) == RemapItems(all, original);
  }

  // ---- A whole dispatch and the merge ----

  /** What the dispatcher answered; absent when there is none, it threw, or it answered something else. */
  type Answer = Option<Result<Report, Reason>>

  ghost predicate Accepted(answer: Answer, policies: seq<Policy>) {
    answer.Some? && answer.value.Ok? && IsDispatchResult(answer.value.value, policies)
  }

  /** `dispatchSideEffects` on effects that all have this policy: a failure is an error only for required ones. */
  ghost function Dispatched(answer: Answer, policy: Policy, count: nat): Result<Option<Report>, Reason> {
    var policies := seq(count, _ => policy);
    if count == 0 then Ok(None)
    else if Accepted(answer, policies) then Ok(Some(answer.value.value))
    else if policy == BestEffort then Ok(None)
    else Err(if answer.Some? && answer.value.Err? && SafeReason(answer.value.error) then answer.value.error
             else SIDE_EFFECT_FAILED)
  }

  /** `dispatchSelectedSideEffects`. */
  ghost function DispatchSelected(answer: Answer, policies: seq<Policy>, policy: Policy): Result<Option<Report>, Reason> {
    var original := Selected(policies, policy);
    var result := Dispatched(answer, policy, |original|);
    if result.Err? || result.value.None? || !InRange(result.value.value, |original|) then result
    else Ok(Some(Remapped(result.value.value, original)))
  }

  function Present<T>(items: seq<T>): Option<seq<T>> {
    if |items| > 0 then Some(items) else None
  }

  /** `mergeSideEffectResults`. */
  function Merged(first: Option<Report>, second: Option<Report>): Option<Report> {
    if first.None? then second
    else if second.None? then first
    else
      var deferred := first.value.Deferred() + second.value.Deferred();
      var failed := first.value.Failed() + second.value.Failed();
      Some(Report(first.value.dispatched + second.value.dispatched, Present(deferred), Present(failed)))
  }

  lemma PlacedIsSum(r: Report)
    ensures Placed(Some(r)) == multiset(r.dispatched) + multiset(r.Deferred()) + multiset(FailedIndexes(r.Failed()))
  {
  }

  lemma SumsMerge(a1: multiset<int>, b1: multiset<int>, c1: multiset<int>,
                  a2: multiset<int>, b2: multiset<int>, c2: multiset<int>)
    ensures (a1 + a2) + (b1 + b2) + (c1 + c2) == (a1 + b1 + c1) + (a2 + b2 + c2)
  {
  }

  lemma MergePlaces(first: Option<Report>, second: Option<Report>)
    ensures Placed(Merged(first, second)) == Placed(first) + Placed(second)
  {
    if first.Some? && second.Some? {
      var a, b, merged := first.value, second.value, Merged(first, second).value;
      assert FailedIndexes(a.Failed() + b.Failed()) == FailedIndexes(a.Failed()) + FailedIndexes(b.Failed());
      PlacedIsSum(a);
      PlacedIsSum(b);
      PlacedIsSum(merged);
      assert merged.Deferred() == a.Deferred() + b.Deferred() && merged.Failed() == a.Failed() + b.Failed();
      SumsMerge(multiset(a.dispatched), multiset(a.Deferred()), multiset(FailedIndexes(a.Failed())),
                multiset(b.dispatched), multiset(b.Deferred()), multiset(FailedIndexes(b.Failed())));
    }
  }

  /** A half is dropped when it had effects and no report came of them. */
  ghost predicate Drops(answer: Answer, policies: seq<Policy>, policy: Policy) {
    var count := |Selected(policies, policy)|;
    count > 0 && !Accepted(answer, seq(count, _ => policy))
  }

  lemma HalfPlaces(answer: Answer, policies: seq<Policy>, policy: Policy)
    requires DispatchSelected(answer, policies, policy).Ok?
    ensures Placed(DispatchSelected(answer, policies, policy).value)
            == if Drops(answer, policies, policy) then multiset{} else multiset(Selected(policies, policy))
    ensures policy == Required ==> !Drops(answer, policies, policy)
  {
    var original := Selected(policies, policy);
    if |original| > 0 && Accepted(answer, seq(|original|, _ => policy)) {
      RemappedCovers(answer.value.value, original);
    }
  }

  lemma HalfFails(answer: Answer, policies: seq<Policy>, policy: Policy)
    requires DispatchSelected(answer, policies, policy).Ok? && DispatchSelected(answer, policies, policy).value.Some?
    ensures FailuresAllowed(DispatchSelected(answer, policies, policy).value.value.Failed(), policies)
  {
    var original := Selected(policies, policy);
    SelectedAre(policies, policy);
    CoverInRange(answer.value.value, |original|);
    var failed := answer.value.value.Failed();
    forall k | 0 <= k < |failed|
      ensures policies[original[failed[k].index]] == BestEffort
    {
      assert seq(|original|, _ => policy)[failed[k].index] == policy;
    }
  }

  lemma BagSum(a: multiset<int>, b: multiset<int>, all: multiset<int>, drop: bool)
    requires a + b == all
    ensures a + (if drop then multiset{} else b) == all <==> !drop || |b| == 0
  {
    if drop && |b| > 0 {
      assert |a| < |all|;
    }
  }

  lemma MergedPlaces(policies: seq<Policy>, required: Answer, bestEffort: Answer)
    requires DispatchSelected(required, policies, Required).Ok?
    requires DispatchSelected(bestEffort, policies, BestEffort).Ok?
    ensures Placed(Merged(DispatchSelected(required, policies, Required).value,
                          DispatchSelected(bestEffort, policies, BestEffort).value))
            == multiset(Selected(policies, Required))
               + if Drops(bestEffort, policies, BestEffort) then multiset{} else multiset(Selected(policies, BestEffort))
  {
    HalfPlaces(required, policies, Required);
    HalfPlaces(bestEffort, policies, BestEffort);
    MergePlaces(DispatchSelected(required, policies, Required).value,
                DispatchSelected(bestEffort, policies, BestEffort).value);
  }

  lemma MergedFailures(policies: seq<Policy>, first: Option<Report>, second: Option<Report>)
    requires first.Some? ==> FailuresAllowed(first.value.Failed(), policies)
    requires second.Some? ==> FailuresAllowed(second.value.Failed(), policies)
    ensures Merged(first, second).Some? ==> FailuresAllowed(Merged(first, second).value.Failed(), policies)
  {
  }

  lemma BestEffortNeverFails(policies: seq<Policy>, answer: Answer)
    ensures DispatchSelected(answer, policies, BestEffort).Ok?
  {
  }

  /** After the required half succeeded, the merged report places every original index exactly once, exactly unless the
      best-effort half was dropped; and it never reports a required effect as failed. */
  lemma MergedCoversExactly(policies: seq<Policy>, required: Answer, bestEffort: Answer)
    requires DispatchSelected(required, policies, Required).Ok?
    ensures DispatchSelected(bestEffort, policies, BestEffort).Ok?
    ensures var merged := Merged(DispatchSelected(required, policies, Required).value,
                                 DispatchSelected(bestEffort, policies, BestEffort).value);
            && (Covers(merged, |policies|) <==> !Drops(bestEffort, policies, BestEffort))
            && (merged.Some? ==> FailuresAllowed(merged.value.Failed(), policies))
  {
    BestEffortNeverFails(policies, bestEffort);
    var first := DispatchSelected(required, policies, Required).value;
    var second := DispatchSelected(bestEffort, policies, BestEffort).value;
    MergedPlaces(policies, required, bestEffort);
    SelectionsPartition(policies);
    BagSum(multiset(Selected(policies, Required)), multiset(Selected(policies, BestEffort)), EachOnce(|policies|),
           Drops(bestEffort, policies, BestEffort));
    if first.Some? {
      HalfFails(required, policies, Required);
    }
    if second.Some? {
      HalfFails(bestEffort, policies, BestEffort);
    }
    MergedFailures(policies, first, second);
  }
}
