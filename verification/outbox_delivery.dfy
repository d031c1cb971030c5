/** Delivery guarantees over whole runs: bounded sends, acceptance before dispatch, honest run reports,
    and, when everyone reads one clock, no send without a live lease. */
module OutboxDelivery {
  import opened OutboxRows
  import opened OutboxInvariants
  import opened OutboxRuns
  import opened OutboxWorkers
  import opened OutboxSafety

  ghost predicate Behaviour(ss: seq<System>, acts: seq<Action>) {
    && |ss| == |acts| + 1
    && ss[0].db == EMPTY && ss[0].workers == map[] && ss[0].sent == {} && ss[0].accepted == {}
    && forall i :: 0 <= i < |acts| ==> CanAct(ss[i], acts[i]) && ss[i + 1] == Act(ss[i], acts[i])
  }

  lemma {:induction false} ReachableInv(ss: seq<System>, acts: seq<Action>, i: nat)
    requires Behaviour(ss, acts) && i < |ss|
    ensures SystemInv(ss[i])
  {
    if 0 < i {
      ReachableInv(ss, acts, i - 1);
      ActionKeepsInv(ss[i - 1], acts[i - 1]);
    }
  }

  /** A run that reports success accounts for every message it claimed. */
  lemma OkReportAddsUp(ss: seq<System>, acts: seq<Action>, i: nat, pid: nat)
    requires Behaviour(ss, acts) && i < |ss| && pid in ss[i].workers
    requires ss[i].workers[pid].pc == Finished(true)
    ensures ss[i].workers[pid].claimed == ss[i].workers[pid].dispatched + ss[i].workers[pid].failed
  {
    ReachableInv(ss, acts, i);
    assert CountsOk(ss[i].workers[pid]);
  }

  // ---- Sends ----

  ghost predicate SendsUnder(s: System, a: Action, l: LeaseId) {
    CanAct(s, a) && StartsSend(s, a) && s.workers[a.pid].pc.HasJob() && s.workers[a.pid].pc.job.leaseId == l
  }

  lemma SendStep(s: System, a: Action)
    requires SystemInv(s) && CanAct(s, a)
    ensures s.sent <= Act(s, a).sent && s.accepted <= Act(s, a).accepted
    ensures if StartsSend(s, a)
            then s.workers[a.pid].pc.BeforeSend?
                 && s.workers[a.pid].pc.job.leaseId !in s.sent
                 && Act(s, a).sent == s.sent + {s.workers[a.pid].pc.job.leaseId}
            else Act(s, a).sent == s.sent
  {
    if a.Proceed? {
      assert JobOk(s, s.workers[a.pid]);
    }
  }

  lemma {:induction false} SentStays(ss: seq<System>, acts: seq<Action>, i: nat, j: nat)
    requires Behaviour(ss, acts) && i <= j < |ss|
    ensures ss[i].sent <= ss[j].sent
    decreases j
  {
    if i < j {
      SentStays(ss, acts, i, j - 1);
      ReachableInv(ss, acts, j - 1);
      SendStep(ss[j - 1], acts[j - 1]);
    }
  }

  /** No lease is used for two sends. */
  lemma EachLeaseSendsOnce(ss: seq<System>, acts: seq<Action>, l: LeaseId, i: nat, j: nat)
    requires Behaviour(ss, acts) && i < |acts| && j < |acts|
    requires SendsUnder(ss[i], acts[i], l) && SendsUnder(ss[j], acts[j], l)
    ensures i == j
  {
    ReachableInv(ss, acts, i);
    ReachableInv(ss, acts, j);
    SendStep(ss[i], acts[i]);
    SendStep(ss[j], acts[j]);
    if i < j {
      SentStays(ss, acts, i + 1, j);
    } else if j < i {
      SentStays(ss, acts, j + 1, i);
    }
  }

  /** How often the first `k` actions handed row incarnation `n` to the transport. */
  ghost function SendCount(ss: seq<System>, acts: seq<Action>, n: nat, k: nat): nat
    requires Behaviour(ss, acts) && k <= |acts|
  {
    if k == 0 then 0
    else SendCount(ss, acts, n, k - 1)
         + if StartsSend(ss[k - 1], acts[k - 1]) && ss[k - 1].workers[acts[k - 1].pid].pc.HasJob()
              && ss[k - 1].workers[acts[k - 1].pid].pc.job.incarnation == n
           then 1 else 0
  }

  ghost function SentFor(s: System, n: nat): set<LeaseId> {
    set l | l in s.sent && l in s.db.issued && s.db.issued[l] == n
  }

  lemma IssuedAfterAction(s: System, a: Action, l: LeaseId)
    requires CanAct(s, a) && l in s.db.issued
    ensures l in Act(s, a).db.issued && Act(s, a).db.issued[l] == s.db.issued[l]
  {
    match a {
      case Proceed(pid, o) =>
        if s.workers[pid].pc.AtStore() && !o.delivery.Refused? {
          IssuedStays(s.db, StatementAt(s.workers[pid], o), l);
        }
      case _ =>
    }
  }

  lemma SentForStep(s: System, a: Action, n: nat)
    requires SystemInv(s) && CanAct(s, a)
    ensures
      var more := if StartsSend(s, a) && s.workers[a.pid].pc.HasJob() && s.workers[a.pid].pc.job.incarnation == n
                  then {s.workers[a.pid].pc.job.leaseId} else {};
      SentFor(Act(s, a), n) == SentFor(s, n) + more && SentFor(s, n) !! more
  {
    SendStep(s, a);
    forall l | l in s.db.issued
      ensures l in Act(s, a).db.issued && Act(s, a).db.issued[l] == s.db.issued[l]
    {
      IssuedAfterAction(s, a, l);
    }
    if StartsSend(s, a) {
      assert JobOk(s, s.workers[a.pid]);
    }
  }

  lemma {:induction false} SendCountIsSentFor(ss: seq<System>, acts: seq<Action>, n: nat, k: nat)
    requires Behaviour(ss, acts) && k <= |acts|
    ensures SendCount(ss, acts, n, k) == |SentFor(ss[k], n)|
  {
    if k == 0 {
      assert SentFor(ss[0], n) == {};
    } else {
      SendCountIsSentFor(ss, acts, n, k - 1);
      ReachableInv(ss, acts, k - 1);
      SentForStep(ss[k - 1], acts[k - 1], n);
    }
  }

  lemma SubsetSize<T>(a: set<T>, b: set<T>)
    requires a <= b
    ensures |a| <= |b|
  {
    assert b == a + (b - a);
  }

  /** Over any interleaving, crashes and reclaims included, a row is handed to the transport at most maxAttempts times. */
  lemma SendsAreBounded(ss: seq<System>, acts: seq<Action>, n: nat, k: nat)
    requires Behaviour(ss, acts) && k <= |acts| && n < |ss[k].db.bounds|
    ensures SendCount(ss, acts, n, k) <= ss[k].db.bounds[n]
  {
    SendCountIsSentFor(ss, acts, n, k);
    ReachableInv(ss, acts, k);
    SubsetSize(SentFor(ss[k], n), LeasesOf(ss[k].db.issued, n));
  }

  // ---- Acceptance ----

  /** The transport accepts the message being sent under lease `l`. */
  ghost predicate Accepts(s: System, a: Action, l: LeaseId) {
    && CanAct(s, a) && a.Proceed? && s.workers[a.pid].pc.Sending?
    && s.workers[a.pid].pc.job.leaseId == l && a.outside.good
  }

  lemma AcceptedGrowsBySends(s: System, a: Action, l: LeaseId)
    requires CanAct(s, a) && l in Act(s, a).accepted && l !in s.accepted
    ensures Accepts(s, a, l)
  {
  }

  lemma {:induction false} AcceptedWasAccepted(ss: seq<System>, acts: seq<Action>, l: LeaseId, k: nat)
    requires Behaviour(ss, acts) && k <= |acts| && l in ss[k].accepted
    ensures exists i :: 0 <= i < k && Accepts(ss[i], acts[i], l)
  {
    assert 0 < k;
    if l in ss[k - 1].accepted {
      AcceptedWasAccepted(ss, acts, l, k - 1);
      var i :| 0 <= i < k - 1 && Accepts(ss[i], acts[i], l);
    } else {
      AcceptedGrowsBySends(ss[k - 1], acts[k - 1], l);
    }
  }

  /** A row is dispatched only after the transport accepted it under a lease issued for that very row. */
  lemma DispatchedWasAccepted(ss: seq<System>, acts: seq<Action>, k: nat, id: RowId)
    requires Behaviour(ss, acts) && k <= |acts| && id in ss[k].db.rows && ss[k].db.rows[id].status.Dispatched?
    ensures exists l, i ::
              0 <= i < k && Accepts(ss[i], acts[i], l)
              && l in ss[k].db.issued && ss[k].db.issued[l] == ss[k].db.rows[id].incarnation
  {
    ReachableInv(ss, acts, k);
    var l :| l in ss[k].accepted && l in ss[k].db.issued && ss[k].db.issued[l] == ss[k].db.rows[id].incarnation;
    AcceptedWasAccepted(ss, acts, l, k);
  }
}
