/** One `runOnce` of a worker as the loop it is, against a store, a sealer and a transport that may answer anything.
    What the worker did is kept as a trace, and every entry of the trace is one the answers so far call for. */
module OutboxRunOnce {
  import opened Common
  import opened OutboxRows

  const DELIVERY_FAILED := "DELIVERY_FAILED"
  const MAX_DATE := 8_640_000_000_000_000

  function Max(a: int, b: int): int {
    if a < b then b else a
  }

  function Min(a: int, b: int): int {
    if a < b then a else b
  }

  // ---- What others answer ----

  /** A claimed message as the store hands it over; `valid` and `contextOk` stand for the checks of its shape. */
  datatype Message = Message(id: RowId, leaseId: LeaseId, leaseWorker: string, until: int, expiresAt: Option<int>,
                             valid: bool, contextOk: bool)
  {
    predicate ExpiredBy(now: int) {
      expiresAt.Some? && expiresAt.value <= now
    }

    function Key(): (RowId, LeaseId) {
      (id, leaseId)
    }
  }

  datatype LeaseReply = NoLease | Renewed(leaseId: LeaseId, workerId: string, until: int)

  /** Everything others answer in one iteration. An absent claim is a failed store call. */
  datatype Replies = Replies(claim: Option<seq<Message>>, firstRenewal: LeaseReply, unsealed: bool,
                             secondRenewal: LeaseReply, accepted: bool, failureReason: string, marked: bool)
  {
    /** The claim failed or brought more than it was asked for. */
    predicate BadClaim() {
      claim.None? || |claim.value| > 1
    }

    function One(): Option<Message> {
      if claim.Some? && |claim.value| == 1 then Some(claim.value[0]) else None
    }
  }

  datatype Setting = Setting(workerId: string, tenantId: Option<string>, retryDelaySeconds: int)
  {
    predicate Foreign(m: Message) {
      tenantId.Some? && m.id.tenantId != tenantId.value
    }

    /** `snapshotOutboxLease`: only a reply that repeats the lease and the worker and ends later than now counts. */
    function Granted(m: Message, now: int, reply: LeaseReply): Option<int> {
      if reply.Renewed? && reply.leaseId == m.leaseId && reply.workerId == workerId && now < reply.until
      then Some(reply.until) else None
    }
  }

  // ---- What the worker did ----

  datatype Event =
    | Claim(now: int, r: Replies)
    | Drop(now: int, m: Message)
    | Renew(now: int, m: Message, until: Option<int>)
    | Unseal(now: int, m: Message)
    | Send(now: int, m: Message)
    | MarkDispatched(now: int, m: Message)
    | MarkFailed(now: int, m: Message, terminal: bool, retryAt: Option<int>, reason: string)

  datatype Trace = Start | Then(earlier: Trace, last: Event)

  function Events(trace: Trace): seq<Event> {
    match trace
    case Start => []
    case Then(earlier, last) => Events(earlier) + [last]
  }

  /** The first n events of a trace. */
  function First(trace: Trace, n: nat): Trace
    requires n <= |Events(trace)|
  {
    if n == |Events(trace)| then trace else First(trace.earlier, n)
  }

  /** The answers of the iteration the trace is in. */
  function InForce(trace: Trace): Option<Replies> {
    match trace
    case Start => None
    case Then(earlier, last) => if last.Claim? then Some(last.r) else InForce(earlier)
  }

  function ClaimsIn(trace: Trace): seq<Replies> {
    match trace
    case Start => []
    case Then(earlier, last) => if last.Claim? then ClaimsIn(earlier) + [last.r] else ClaimsIn(earlier)
  }

  /** The message and lease of every well formed message claimed for the right tenant. */
  function SeenIn(trace: Trace, s: Setting): set<(RowId, LeaseId)> {
    match trace
    case Start => {}
    case Then(earlier, last) =>
      SeenIn(earlier, s) + if last.Claim? then Noted(last.r.One(), s) else {}
  }

  function Noted(m: Option<Message>, s: Setting): set<(RowId, LeaseId)> {
    if m.Some? && m.value.valid && !s.Foreign(m.value) then {m.value.Key()} else {}
  }

  function SendsIn(trace: Trace): set<(RowId, LeaseId)> {
    match trace
    case Start => {}
    case Then(earlier, last) => SendsIn(earlier) + if last.Send? then {last.m.Key()} else {}
  }

  predicate Marked(trace: Trace) {
    InForce(trace).Some? && InForce(trace).value.marked
  }

  function MessagesClaimed(trace: Trace): nat {
    match trace
    case Start => 0
    case Then(earlier, last) => MessagesClaimed(earlier) + if last.Claim? && last.r.One().Some? then 1 else 0
  }

  /** The dispatches the store acknowledged. */
  function DispatchMarks(trace: Trace): nat {
    match trace
    case Start => 0
    case Then(earlier, last) => DispatchMarks(earlier) + if last.MarkDispatched? && Marked(earlier) then 1 else 0
  }

  function FailureMarks(trace: Trace): nat {
    match trace
    case Start => 0
    case Then(earlier, last) => FailureMarks(earlier) + if last.MarkFailed? then 1 else 0
  }

  /** Something the run has to report: a refused or bad claim, a message dropped, a renewal or a mark refused. */
  predicate Trouble(trace: Trace, e: Event) {
    match e
    case Claim(_, r) => r.BadClaim()
    case Drop(_, _) => true
    case Renew(_, _, until) => until.None?
    case MarkDispatched(_, _) => !Marked(trace)
    case MarkFailed(_, _, _, _, _) => !Marked(trace)
    case _ => false
  }

  predicate Troubled(trace: Trace) {
    match trace
    case Start => false
    case Then(earlier, last) => Troubled(earlier) || Trouble(earlier, last)
  }

  // ---- What may come next ----

  /** The worker is through with the message it claimed last. */
  predicate Settled(trace: Trace) {
    trace.Start? || trace.last.Drop? || trace.last.MarkDispatched? || trace.last.MarkFailed?
    || (trace.last.Renew? && trace.last.until.None?)
  }

  predicate JustClaimed(trace: Trace, m: Message) {
    trace.Then? && trace.last.Claim? && trace.last.r.One() == Some(m)
  }

  /** A claimed message to go on with: well formed, of the tenant, new to this run, and under this worker's live lease. */
  predicate Fit(before: Trace, m: Message, now: int, s: Setting) {
    && m.valid && !s.Foreign(m) && m.Key() !in SeenIn(before, s) && m.contextOk
    && m.leaseWorker == s.workerId && now < m.until
  }

  predicate JustRenewed(trace: Trace, m: Message) {
    && trace.Then? && trace.last.Renew? && trace.last.m == m && trace.last.until.Some?
  }

  predicate RenewedFirst(trace: Trace, m: Message) {
    JustRenewed(trace, m) && trace.earlier.Then? && trace.earlier.last.Claim?
  }

  predicate RenewedAgain(trace: Trace, m: Message) {
    JustRenewed(trace, m) && trace.earlier.Then? && trace.earlier.last.Unseal?
  }

  predicate JustUnsealed(trace: Trace, m: Message) {
    trace.Then? && trace.last.Unseal? && trace.last.m == m && InForce(trace).Some?
  }

  predicate JustSent(trace: Trace, m: Message) {
    trace.Then? && trace.last.Send? && trace.last.m == m && InForce(trace).Some?
  }

  function Failing(now: int, m: Message, terminal: bool, reason: string, s: Setting): Event {
    Event.MarkFailed(now, m, terminal, if terminal then None else Some(now + s.retryDelaySeconds * 1000), reason)
  }

  /** The trace so far calls for this event: each step follows from the one before and from what was answered. */
  predicate Justified(trace: Trace, e: Event, s: Setting) {
    && (trace.Then? ==> trace.last.now <= e.now)
    && match e
       case Claim(now, r) => Settled(trace)
       case Drop(now, m) =>
         || (JustClaimed(trace, m) && !Fit(trace.earlier, m, now, s))
         || (JustRenewed(trace, m) && !m.ExpiredBy(now) && trace.last.until.value <= now)
       case Renew(now, m, until) =>
         && InForce(trace).Some?
         && (|| (JustClaimed(trace, m) && Fit(trace.earlier, m, now, s)
                 && until == s.Granted(m, now, InForce(trace).value.firstRenewal))
             || (JustUnsealed(trace, m) && InForce(trace).value.unsealed && !m.ExpiredBy(now)
                 && until == s.Granted(m, now, InForce(trace).value.secondRenewal)))
       case Unseal(now, m) => RenewedFirst(trace, m) && !m.ExpiredBy(now) && now < trace.last.until.value
       case Send(now, m) => RenewedAgain(trace, m) && !m.ExpiredBy(now) && now < trace.last.until.value
       case MarkDispatched(now, m) => JustSent(trace, m) && InForce(trace).value.accepted
       case MarkFailed(now, m, terminal, retryAt, reason) =>
         || (e == Failing(now, m, true, DELIVERY_FAILED, s) && JustRenewed(trace, m) && m.ExpiredBy(now))
         || (e == Failing(now, m, m.ExpiredBy(now), DELIVERY_FAILED, s) && JustUnsealed(trace, m)
             && (!InForce(trace).value.unsealed || m.ExpiredBy(now)))
         || (JustSent(trace, m) && !InForce(trace).value.accepted
             && e == Failing(now, m, false, InForce(trace).value.failureReason, s))
  }

  predicate Orderly(trace: Trace, s: Setting) {
    match trace
    case Start => true
    case Then(earlier, last) => Orderly(earlier, s) && Justified(earlier, last, s)
  }

  /** Each event of an orderly trace was called for by what came before it. */
  lemma {:induction false} OrderlyMeansEveryEventJustified(trace: Trace, s: Setting, k: nat)
    requires Orderly(trace, s) && k < |Events(trace)|
    ensures |Events(First(trace, k))| == k && Events(First(trace, k)) == Events(trace)[..k]
    ensures Justified(First(trace, k), Events(trace)[k], s)
  {
    if k < |Events(trace.earlier)| {
      OrderlyMeansEveryEventJustified(trace.earlier, s, k);
      assert Events(trace.earlier)[..k] == Events(trace)[..k];
    } else {
      assert First(trace, k) == trace.earlier && Events(trace)[..k] == Events(trace.earlier);
    }
  }

  // ---- What an orderly trace never has ----

  /** Every event is about the message of its own iteration's claim. */
  lemma {:induction false} AboutTheClaim(trace: Trace, s: Setting)
    requires Orderly(trace, s) && trace.Then? && !trace.last.Claim?
    ensures InForce(trace).Some? && InForce(trace).value.One() == Some(trace.last.m)
  {
    var earlier := trace.earlier;
    assert Justified(earlier, trace.last, s);
    if earlier.Then? && !earlier.last.Claim? {
      AboutTheClaim(earlier, s);
    }
  }

  /** A second renewal belongs to a message that was new when it was claimed, and nothing was sent since. */
  lemma RenewedAgainIsNew(trace: Trace, s: Setting, m: Message)
    requires Orderly(trace, s) && RenewedAgain(trace, m)
    ensures exists t :: Orderly(t, s) && m.Key() !in SeenIn(t, s)
                        && SendsIn(trace) == SendsIn(t) && SeenIn(trace, s) == SeenIn(t, s) + {m.Key()}
  {
    Unroll(trace, s);
    Unroll(trace.earlier, s);
    var renewed := trace.earlier.earlier;
    Unroll(renewed, s);
    Unroll(renewed.earlier, s);
    var before := renewed.earlier.earlier;
    assert JustClaimed(renewed.earlier, m) && Fit(before, m, renewed.last.now, s);
    Quiet(trace, s);
    Quiet(trace.earlier, s);
    Quiet(renewed, s);
    assert SeenIn(renewed.earlier, s) == SeenIn(before, s) + {m.Key()} && SendsIn(renewed.earlier) == SendsIn(before);
  }

  lemma Quiet(trace: Trace, s: Setting)
    requires trace.Then? && !trace.last.Claim? && !trace.last.Send?
    ensures SeenIn(trace, s) == SeenIn(trace.earlier, s) && SendsIn(trace) == SendsIn(trace.earlier)
  {
  }

  lemma Unroll(trace: Trace, s: Setting)
    requires Orderly(trace, s) && trace.Then?
    ensures Orderly(trace.earlier, s) && Justified(trace.earlier, trace.last, s)
  {
  }

  lemma {:induction false} SendsAreSeen(trace: Trace, s: Setting)
    requires Orderly(trace, s)
    ensures SendsIn(trace) <= SeenIn(trace, s)
  {
    if trace.Then? {
      SendsAreSeen(trace.earlier, s);
      if trace.last.Send? {
        RenewedAgainIsNew(trace.earlier, s, trace.last.m);
      }
    }
  }

  lemma SendIsNew(trace: Trace, s: Setting, e: Event)
    requires Orderly(trace, s) && e.Send? && Justified(trace, e, s)
    ensures e.m.Key() !in SendsIn(trace)
  {
    RenewedAgainIsNew(trace, s, e.m);
    var t :| Orderly(t, s) && e.m.Key() !in SeenIn(t, s) && SendsIn(trace) == SendsIn(t)
             && SeenIn(trace, s) == SeenIn(t, s) + {e.m.Key()};
    SendsAreSeen(t, s);
  }

  lemma {:induction false} SendsInHasAll(trace: Trace, j: nat)
    requires j < |Events(trace)| && Events(trace)[j].Send?
    ensures Events(trace)[j].m.Key() in SendsIn(trace)
  {
    if j < |Events(trace.earlier)| {
      SendsInHasAll(trace.earlier, j);
    }
  }

  /** No message is sent twice under one lease, though the store may hand it out again. */
  lemma {:induction false} NoLeaseSendsTwice(trace: Trace, s: Setting, j: nat, k: nat)
    requires Orderly(trace, s) && j < k < |Events(trace)|
    requires Events(trace)[j].Send? && Events(trace)[k].Send?
    ensures Events(trace)[j].m.Key() != Events(trace)[k].m.Key()
  {
    if k < |Events(trace.earlier)| {
      NoLeaseSendsTwice(trace.earlier, s, j, k);
    } else {
      SendsInHasAll(trace.earlier, j);
      SendIsNew(trace.earlier, s, trace.last);
    }
  }

  // ---- When nothing goes wrong ----

  predicate GoodRenewal(reply: LeaseReply, m: Message, s: Setting, horizon: int) {
    reply.Renewed? && reply.leaseId == m.leaseId && reply.workerId == s.workerId && horizon < reply.until
  }

  /** The store answers as it should, with leases that outlast the run; what sealer and transport say is open. */
  predicate Clean(r: Replies, s: Setting, horizon: int) {
    && !r.BadClaim() && r.marked
    && (r.One().Some? ==>
          var m := r.One().value;
          && m.valid && !s.Foreign(m) && m.contextOk && m.leaseWorker == s.workerId && horizon < m.until
          && GoodRenewal(r.firstRenewal, m, s, horizon) && GoodRenewal(r.secondRenewal, m, s, horizon))
  }

  predicate AllClean(claims: seq<Replies>, s: Setting, horizon: int) {
    forall i :: 0 <= i < |claims| ==> Clean(claims[i], s, horizon)
  }

  /** No message comes twice under one lease. */
  predicate NeverRepeats(claims: seq<Replies>) {
    forall i, j :: 0 <= i < j < |claims| && claims[i].One().Some? && claims[j].One().Some? ==>
                     claims[i].One().value.Key() != claims[j].One().value.Key()
  }

  predicate EndsBy(trace: Trace, horizon: int) {
    trace.Then? ==> trace.last.now <= horizon
  }

  lemma {:induction false} SeenWasClaimed(trace: Trace, s: Setting, key: (RowId, LeaseId))
    requires key in SeenIn(trace, s)
    ensures exists i :: 0 <= i < |ClaimsIn(trace)| && ClaimsIn(trace)[i].One().Some?
                        && ClaimsIn(trace)[i].One().value.Key() == key
  {
    if key in SeenIn(trace.earlier, s) {
      SeenWasClaimed(trace.earlier, s, key);
      var i :| 0 <= i < |ClaimsIn(trace.earlier)| && ClaimsIn(trace.earlier)[i].One().Some?
               && ClaimsIn(trace.earlier)[i].One().value.Key() == key;
      assert ClaimsIn(trace)[i] == ClaimsIn(trace.earlier)[i];
    } else {
      assert ClaimsIn(trace)[|ClaimsIn(trace)| - 1] == trace.last.r;
    }
  }

  lemma {:induction false} InForceIsLastClaim(trace: Trace)
    requires InForce(trace).Some?
    ensures ClaimsIn(trace) != [] && ClaimsIn(trace)[|ClaimsIn(trace)| - 1] == InForce(trace).value
  {
    if !trace.last.Claim? {
      InForceIsLastClaim(trace.earlier);
    }
  }

  lemma CleanClaimIsFit(trace: Trace, s: Setting, horizon: int, now: int)
    requires Orderly(trace, s) && trace.Then? && trace.last.Claim? && trace.last.r.One().Some? && now <= horizon
    requires AllClean(ClaimsIn(trace), s, horizon) && NeverRepeats(ClaimsIn(trace))
    ensures Fit(trace.earlier, trace.last.r.One().value, now, s)
  {
    var m := trace.last.r.One().value;
    var claims := ClaimsIn(trace);
    assert claims[|claims| - 1] == trace.last.r;
    if m.Key() in SeenIn(trace.earlier, s) {
      SeenRepeats(trace, s);
    }
  }

  lemma SeenRepeats(trace: Trace, s: Setting)
    requires trace.Then? && trace.last.Claim? && trace.last.r.One().Some?
    requires trace.last.r.One().value.Key() in SeenIn(trace.earlier, s)
    ensures !NeverRepeats(ClaimsIn(trace))
  {
    var m, claims, fewer := trace.last.r.One().value, ClaimsIn(trace), ClaimsIn(trace.earlier);
    SeenWasClaimed(trace.earlier, s, m.Key());
    var i :| 0 <= i < |fewer| && fewer[i].One().Some? && fewer[i].One().value.Key() == m.Key();
    assert claims[i] == fewer[i] && claims[|claims| - 1] == trace.last.r;
  }

  lemma CleanRenewal(trace: Trace, s: Setting, horizon: int)
    requires Orderly(trace, s) && trace.Then? && trace.last.Renew? && EndsBy(trace, horizon)
    requires AllClean(ClaimsIn(trace), s, horizon)
    ensures trace.last.until.Some? && horizon < trace.last.until.value
  {
    AboutTheClaim(trace, s);
    InForceIsLastClaim(trace);
    assert Clean(InForce(trace).value, s, horizon);
    assert Justified(trace.earlier, trace.last, s);
  }

  lemma CleanStep(trace: Trace, s: Setting, horizon: int)
    requires Orderly(trace, s) && trace.Then? && EndsBy(trace, horizon)
    requires AllClean(ClaimsIn(trace), s, horizon) && NeverRepeats(ClaimsIn(trace))
    ensures !Trouble(trace.earlier, trace.last)
  {
    var earlier, e := trace.earlier, trace.last;
    assert Justified(earlier, e, s);
    if e.Claim? {
      assert ClaimsIn(trace)[|ClaimsIn(trace)| - 1] == e.r;
    } else {
      AboutTheClaim(trace, s);
      InForceIsLastClaim(trace);
      if e.Renew? {
        CleanRenewal(trace, s, horizon);
      } else if earlier.Then? && earlier.last.Claim? && earlier.last.r.One().Some? {
        CleanClaimIsFit(earlier, s, horizon, e.now);
      } else if earlier.Then? && earlier.last.Renew? {
        CleanRenewal(earlier, s, horizon);
      }
    }
  }

  /** A run to which the store answers as it should has nothing to report, whatever sealer and transport say. */
  lemma {:induction false} CleanRunIsUntroubled(trace: Trace, s: Setting, horizon: int)
    requires Orderly(trace, s) && EndsBy(trace, horizon)
    requires AllClean(ClaimsIn(trace), s, horizon) && NeverRepeats(ClaimsIn(trace))
    ensures !Troubled(trace)
  {
    if trace.Then? {
      CleanStep(trace, s, horizon);
      EarlierClaims(trace, s, horizon);
      CleanRunIsUntroubled(trace.earlier, s, horizon);
    }
  }

  lemma EarlierClaims(trace: Trace, s: Setting, horizon: int)
    requires Orderly(trace, s) && trace.Then? && EndsBy(trace, horizon)
    requires AllClean(ClaimsIn(trace), s, horizon) && NeverRepeats(ClaimsIn(trace))
    ensures EndsBy(trace.earlier, horizon)
    ensures AllClean(ClaimsIn(trace.earlier), s, horizon) && NeverRepeats(ClaimsIn(trace.earlier))
  {
    var claims, fewer := ClaimsIn(trace), ClaimsIn(trace.earlier);
    assert forall i :: 0 <= i < |fewer| ==> fewer[i] == claims[i];
    assert Justified(trace.earlier, trace.last, s);
  }

  // ---- The run ----

  datatype Report = Report(claimed: nat, dispatched: nat, failed: nat)

  /** The run is over: as many claims as allowed, or one that brought nothing to do. */
  predicate Over(trace: Trace, limit: nat, replies: seq<Replies>) {
    && |ClaimsIn(trace)| <= limit <= |replies| && ClaimsIn(trace) == replies[..|ClaimsIn(trace)|]
    && ((Settled(trace) && |ClaimsIn(trace)| == limit)
        || (trace.Then? && trace.last.Claim? && trace.last.r.One().None?))
  }

  class WorkerRun {
    const s: Setting
    const initialTime: int
    const startedAt: int
    const dateNow: nat -> int
    /** A time the clock is watched against. */
    ghost const horizon: int
    var ticks: nat
    var previousTime: int
    var claimed: nat
    var dispatched: nat
    var failed: nat
    var failure: bool
    var seen: set<(RowId, LeaseId)>
    var trace: Trace

    ghost predicate ClockWithin() {
      initialTime <= horizon
      && forall k: nat :: Min(initialTime + Max(0, dateNow(k) - startedAt), MAX_DATE) <= horizon
    }

    ghost predicate Valid()
      reads `trace, `previousTime
    {
      && Orderly(trace, s)
      && initialTime <= previousTime
      && (trace.Then? ==> trace.last.now <= previousTime)
      && (ClockWithin() ==> previousTime <= horizon)
    }

    /** The counters and the remembered failure are what the trace shows. */
    ghost predicate Counted()
      reads `trace, `failed, `dispatched, `failure, `claimed
    {
      && claimed == MessagesClaimed(trace)
      && dispatched == DispatchMarks(trace)
      && failed == FailureMarks(trace)
      && failure == Troubled(trace)
    }

    constructor (s: Setting, now: int, startedAt: int, dateNow: nat -> int, ghost horizon: int)
      ensures Valid() && Counted() && this.s == s && initialTime == now && this.startedAt == startedAt
      ensures this.dateNow == dateNow && this.horizon == horizon && trace == Start && seen == {} && previousTime == now
    {
      this.s, this.initialTime, this.startedAt, this.dateNow, this.horizon := s, now, startedAt, dateNow, horizon;
      ticks, previousTime := 0, now;
      claimed, dispatched, failed, failure, seen, trace := 0, 0, 0, false, {}, Start;
    }

    /** The run's own clock: the given start plus what has elapsed, never going back. */
    method CurrentTime() returns (now: int)
      requires Valid()
      modifies this`ticks, this`previousTime
      ensures Valid() && now == previousTime && old(previousTime) <= now
      ensures now == Max(old(previousTime), Min(initialTime + Max(0, dateNow(old(ticks)) - startedAt), MAX_DATE))
    {
      var candidate := initialTime + Max(0, dateNow(ticks) - startedAt);
      ticks := ticks + 1;
      previousTime := Max(previousTime, Min(candidate, MAX_DATE));
      return previousTime;
    }

    /** `renewMessageLease`: a reply that does not repeat lease and worker or does not end after now is no lease. */
    method RenewMessageLease(m: Message, now: int, reply: LeaseReply) returns (until: Option<int>)
      ensures until.Some? ==> reply == Renewed(m.leaseId, s.workerId, until.value) && now < until.value
      ensures until == s.Granted(m, now, reply)
    {
      if reply.NoLease? {
        return None;
      }
      if reply.leaseId != m.leaseId || reply.workerId != s.workerId {
        return None;
      }
      return if reply.until <= now then None else Some(reply.until);
    }

    /** Does what an event says to the counters and the remembered failure. */
    method Record(e: Event)
      requires Valid() && Counted() && Justified(trace, e, s) && e.now == previousTime
      modifies this`trace, this`claimed, this`dispatched, this`failed, this`failure
      ensures Valid() && Counted() && trace == Then(old(trace), e)
      ensures InForce(trace) == if e.Claim? then Some(e.r) else InForce(old(trace))
      ensures ClaimsIn(trace) == ClaimsIn(old(trace)) + if e.Claim? then [e.r] else []
      ensures SeenIn(trace, s) == SeenIn(old(trace), s) + if e.Claim? then Noted(e.r.One(), s) else {}
      ensures failure <==> old(failure) || Trouble(old(trace), e)
      ensures claimed == old(claimed) + if e.Claim? && e.r.One().Some? then 1 else 0
      ensures dispatched == old(dispatched) + if e.MarkDispatched? && Marked(old(trace)) then 1 else 0
      ensures failed == old(failed) + if e.MarkFailed? then 1 else 0
    {
      match e {
        case Claim(_, r) =>
          if r.claim.Some? && |r.claim.value| == 1 {
            claimed := claimed + 1;
          } else if r.claim.None? || |r.claim.value| > 1 {
            failure := true;
          }
        case Drop(_, _) =>
          failure := true;
        case Renew(_, _, until) =>
          failure := failure || until.None?;
        case MarkDispatched(_, _) =>
          if Marked(trace) {
            dispatched := dispatched + 1;
          } else {
            failure := true;
          }
        case MarkFailed(_, _, _, _, _) =>
          failed := failed + 1;
          failure := failure || !Marked(trace);
        case _ =>
      }
      trace := Then(trace, e);
    }

    /** What processing one message keeps: the claims made, and that it ends settled and accounted for. */
    twostate predicate Processed()
      reads this
    {
      && Valid() && Counted() && Settled(trace)
      && ClaimsIn(trace) == old(ClaimsIn(trace)) && SeenIn(trace, s) == old(SeenIn(trace, s))
      && claimed == old(claimed) && (old(failure) ==> failure)
      && (failure || dispatched + failed == old(dispatched) + old(failed) + 1)
    }

    method Settle(e: Event)
      requires Valid() && Counted() && Justified(trace, e, s) && e.now == previousTime && InForce(trace).Some?
      requires e.Drop? || e.MarkDispatched? || e.MarkFailed? || (e.Renew? && e.until.None?)
      modifies this`trace, this`claimed, this`dispatched, this`failed, this`failure
      ensures Processed() && (old(previousTime) == previousTime)
    {
      Record(e);
    }

    /** From a claimed message to the first renewal. */
    method Begin(m: Message, r: Replies)
      requires Valid() && Counted() && JustClaimed(trace, m) && InForce(trace) == Some(r)
      requires m.valid && !s.Foreign(m) && m.Key() !in SeenIn(trace.earlier, s) && m.contextOk
      modifies this`ticks, this`previousTime, this`trace, this`claimed, this`dispatched, this`failed, this`failure
      ensures Processed()
    {
      var processingNow := CurrentTime();
      if m.leaseWorker != s.workerId || m.until <= processingNow {
        Settle(Drop(processingNow, m));
        return;
      }
      var until := RenewMessageLease(m, processingNow, r.firstRenewal);
      if until.None? {
        Settle(Renew(processingNow, m, until));
        return;
      }
      Record(Renew(processingNow, m, until));
      Open(m, r, until.value);
    }

    /** From the first renewal to the unsealed content. */
    method Open(m: Message, r: Replies, until: int)
      requires Valid() && Counted() && RenewedFirst(trace, m) && trace.last.until == Some(until)
      requires InForce(trace) == Some(r)
      modifies this`ticks, this`previousTime, this`trace, this`claimed, this`dispatched, this`failed, this`failure
      ensures Processed()
    {
      var unsealNow := CurrentTime();
      if m.ExpiredBy(unsealNow) {
        Settle(Failing(unsealNow, m, true, DELIVERY_FAILED, s));
        return;
      }
      if until <= unsealNow {
        Settle(Drop(unsealNow, m));
        return;
      }
      Record(Unseal(unsealNow, m));
      Deliver(m, r);
    }

    /** From the unsealed content to the second renewal. */
    method Deliver(m: Message, r: Replies)
      requires Valid() && Counted() && JustUnsealed(trace, m) && InForce(trace) == Some(r)
      modifies this`ticks, this`previousTime, this`trace, this`claimed, this`dispatched, this`failed, this`failure
      ensures Processed()
    {
      var deliveryNow := CurrentTime();
      if !r.unsealed {
        Settle(Failing(deliveryNow, m, m.ExpiredBy(deliveryNow), DELIVERY_FAILED, s));
        return;
      }
      if m.ExpiredBy(deliveryNow) {
        Settle(Failing(deliveryNow, m, true, DELIVERY_FAILED, s));
        return;
      }
      var until := RenewMessageLease(m, deliveryNow, r.secondRenewal);
      if until.None? {
        Settle(Renew(deliveryNow, m, until));
        return;
      }
      Record(Renew(deliveryNow, m, until));
      Hand(m, r, until.value);
    }

    /** From the second renewal to the mark. */
    method Hand(m: Message, r: Replies, until: int)
      requires Valid() && Counted() && RenewedAgain(trace, m) && trace.last.until == Some(until)
      requires InForce(trace) == Some(r)
      modifies this`ticks, this`previousTime, this`trace, this`claimed, this`dispatched, this`failed, this`failure
      ensures Processed()
    {
      var sendNow := CurrentTime();
      if m.ExpiredBy(sendNow) {
        Settle(Failing(sendNow, m, true, DELIVERY_FAILED, s));
        return;
      }
      if until <= sendNow {
        Settle(Drop(sendNow, m));
        return;
      }
      Record(Send(sendNow, m));
      var markedAt := CurrentTime();
      if r.accepted {
        Settle(Event.MarkDispatched(markedAt, m));
      } else {
        Settle(Failing(markedAt, m, false, r.failureReason, s));
      }
    }

    /** The body of one iteration once a message was claimed. */
    method Process(m: Message, r: Replies)
      requires Valid() && Counted() && JustClaimed(trace, m) && InForce(trace) == Some(r)
      requires seen == SeenIn(trace.earlier, s)
      modifies this`ticks, this`previousTime, this`trace, this`claimed, this`dispatched, this`failed, this`failure
      modifies this`seen
      ensures Processed() && seen == SeenIn(trace, s)
    {
      if !m.valid || s.Foreign(m) || m.Key() in seen {
        Settle(Drop(previousTime, m));
        return;
      }
      seen := seen + {m.Key()};
      if !m.contextOk {
        Settle(Drop(previousTime, m));
        return;
      }
      Begin(m, r);
    }

    /** The loop; `replies` answers the iterations in turn. The run did exactly what the answers call for, reports ok
        exactly when it has nothing to report, and then reports the marks it made, one for each message it claimed. */
    method RunOnce(limit: nat, replies: seq<Replies>) returns (result: Option<Report>)
      requires Valid() && Counted() && limit <= |replies| && trace == Start && seen == {}
      modifies this
      ensures Over(trace, limit, replies)
      ensures forall k :: 0 <= k < |Events(trace)| ==>
                && |Events(First(trace, k))| == k && Events(First(trace, k)) == Events(trace)[..k]
                && Justified(First(trace, k), Events(trace)[k], s)
      ensures result.Some? <==> !Troubled(trace)
      ensures result.Some? ==>
                && result.value == Report(MessagesClaimed(trace), DispatchMarks(trace), FailureMarks(trace))
                && result.value.claimed == result.value.dispatched + result.value.failed
      ensures ClockWithin() && AllClean(replies[..limit], s, horizon) && NeverRepeats(replies[..limit]) ==> result.Some?
    {
      var index := 0;
      while index < limit
        invariant 0 <= index <= limit && Valid() && Counted() && seen == SeenIn(trace, s)
        invariant ClaimsIn(trace) == replies[..index]
        invariant Settled(trace)
        invariant failure || claimed == dispatched + failed
      {
        var reply := replies[index];
        assert replies[..index + 1] == replies[..index] + [reply];
        index := index + 1;
        var claimNow := CurrentTime();
        Record(Claim(claimNow, reply));
        if reply.claim.None? || |reply.claim.value| != 1 {
          break;
        }
        Process(reply.claim.value[0], reply);
      }
      forall k | 0 <= k < |Events(trace)|
        ensures |Events(First(trace, k))| == k && Events(First(trace, k)) == Events(trace)[..k]
        ensures Justified(First(trace, k), Events(trace)[k], s)
      {
        OrderlyMeansEveryEventJustified(trace, s, k);
      }
      if ClockWithin() && AllClean(replies[..limit], s, horizon) && NeverRepeats(replies[..limit]) {
        CleanPrefix(replies, limit, index);
        CleanRunIsUntroubled(trace, s, horizon);
      }
      return if failure then None else Some(Report(claimed, dispatched, failed));
    }

    lemma CleanPrefix(replies: seq<Replies>, limit: nat, index: nat)
      requires index <= limit <= |replies|
      requires AllClean(replies[..limit], s, horizon) && NeverRepeats(replies[..limit])
      ensures AllClean(replies[..index], s, horizon) && NeverRepeats(replies[..index])
    {
      assert forall i :: 0 <= i < index ==> replies[..index][i] == replies[..limit][i];
    }
  }
}
