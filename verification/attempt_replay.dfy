/** The guard object itself, driven through a sequence of calls. */
module AttemptReplay {
  import opened Common
  import opened AttemptLog
  import opened AttemptMap
  import opened AttemptRefinement
  import opened MemoryGuard

  function Given(limits: Limits, a: Attempts, call: Call): seq<Decision>
    requires limits.Valid()
  {
    if call.Ask? then [Answer(limits, Pruned(a, call.now, limits.windowMs), call.key, call.now)] else []
  }

  /** One call: what it leaves in the map, and what a question is answered. */
  method Serve(guard: MemoryAttemptGuard, call: Call) returns (answers: seq<Decision>)
    requires guard.Valid()
    modifies guard, guard.expirations
    ensures guard.Valid() && (guard.expirations == old(guard.expirations) || fresh(guard.expirations))
    ensures guard.attempts == AfterMap(guard.limits, old(guard.attempts), call)
    ensures answers == Given(guard.limits, old(guard.attempts), call)
  {
    answers := [];
    match call {
      case Ask(key, now) =>
        var answer := guard.BeforeAttempt(Some(key), Some(now));
        answers := [answer.value];
      case Failed(key, now) =>
        var _ := guard.AfterAttempt(Some(key), Outcome.Failed(true), Some(now));
      case Uncounted(key) =>
        var _ := guard.AfterAttempt(Some(key), Outcome.Failed(false), None);
      case Succeeded(key) =>
        var _ := guard.AfterAttempt(Some(key), Outcome.Succeeded, None);
    }
  }

  /** The answers given and those still to come are all the answers. */
  ghost predicate Answered(limits: Limits, calls: seq<Call>, i: nat, answers: seq<Decision>, a: Attempts)
    requires limits.Valid()
  {
    i <= |calls|
    && answers + MapAnswers(limits, a, calls[i..]) == MapAnswers(limits, Attempts([], map[]), calls)
  }

  lemma FirstAnswer(limits: Limits, a: Attempts, calls: seq<Call>)
    requires limits.Valid() && calls != []
    ensures MapAnswers(limits, a, calls)
            == Given(limits, a, calls[0]) + MapAnswers(limits, AfterMap(limits, a, calls[0]), calls[1..])
  {
  }

  lemma Shift(answers: seq<Decision>, more: seq<Decision>, rest: seq<Decision>, tail: seq<Decision>, all: seq<Decision>)
    requires answers + tail == all && tail == more + rest
    ensures (answers + more) + rest == all
  {
  }

  lemma AnswerNext(limits: Limits, calls: seq<Call>, i: nat, answers: seq<Decision>, a: Attempts)
    requires limits.Valid() && i < |calls| && Answered(limits, calls, i, answers, a)
    ensures Answered(limits, calls, i + 1, answers + Given(limits, a, calls[i]), AfterMap(limits, a, calls[i]))
  {
    var tail := calls[i..];
    assert tail[0] == calls[i] && tail[1..] == calls[i + 1..];
    FirstAnswer(limits, a, tail);
    Shift(answers, Given(limits, a, calls[i]), MapAnswers(limits, AfterMap(limits, a, calls[i]), calls[i + 1..]),
          MapAnswers(limits, a, tail), MapAnswers(limits, Attempts([], map[]), calls));
  }

  lemma AnsweredAll(limits: Limits, calls: seq<Call>, answers: seq<Decision>, a: Attempts)
    requires limits.Valid() && Answered(limits, calls, |calls|, answers, a)
    ensures answers == MapAnswers(limits, Attempts([], map[]), calls)
  {
    assert calls[|calls|..] == [];
  }

  /** A new guard, called in this order under a clock that never goes back, answers as the plain log does. */
  method Replay(limits: Limits, calls: seq<Call>, ghost start: int) returns (answers: seq<Decision>)
    requires limits.Valid() && ClockNeverGoesBack(calls, start)
    ensures answers == LogAnswers(limits, [], calls)
  {
    var guard := new MemoryAttemptGuard(limits);
    answers := [];
    var i := 0;
    assert calls[0..] == calls;
    while i < |calls|
      invariant 0 <= i <= |calls| && guard.Valid() && guard.limits == limits
      invariant fresh(guard) && fresh(guard.expirations)
      invariant Answered(limits, calls, i, answers, guard.attempts)
    {
      ghost var before := guard.attempts;
      var more := Serve(guard, calls[i]);
      AnswerNext(limits, calls, i, answers, before);
      answers := answers + more;
      i := i + 1;
    }
    AnsweredAll(limits, calls, answers, guard.attempts);
    GuardAnswersAsTheLog(limits, calls, start);
  }
}
