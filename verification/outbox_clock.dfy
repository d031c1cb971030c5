/** When all workers read one clock that never goes back, a worker that starts a send still holds the row. */
module OutboxClock {
  import opened Common
  import opened OutboxRows
  import opened OutboxInvariants
  import opened OutboxRuns
  import opened OutboxWorkers
  import opened OutboxSafety
  import opened OutboxDelivery

  /** The action reads the common clock when it reads a clock at all. */
  ghost predicate OnClock(s: System, a: Action) {
    a.Proceed? ==> a.outside.now == s.clock
  }

  ghost predicate ReadEarlier(pc: Pc, clock: int) {
    (pc.Expiring? || pc.Reclaiming? || pc.Claiming? || pc.FirstRenewal? || pc.SecondRenewal?) ==> pc.now <= clock
  }

  predicate Live(job: Job, clock: int) {
    clock < job.until && !job.ExpiredBy(clock)
  }

  /** The row is claimed under the job's lease, up to the time the job knows of. */
  ghost predicate Backs(rows: map<RowId, Row>, workerId: string, job: Job) {
    && job.id in rows && rows[job.id].status.Claimed?
    && rows[job.id].lease == Some(Lease(job.leaseId, workerId, job.until))
    && rows[job.id].expiresAt == job.expiresAt
  }

  ghost predicate SameExpiry(rows: map<RowId, Row>, job: Job) {
    job.id in rows && rows[job.id].incarnation == job.incarnation ==> rows[job.id].expiresAt == job.expiresAt
  }

  ghost predicate WorkerTimely(s: System, w: Worker) {
    && ReadEarlier(w.pc, s.clock)
    && (w.pc.HasJob() ==> SameExpiry(s.db.rows, w.pc.job))
    && (w.pc.HasJob() && Live(w.pc.job, s.clock) ==> Backs(s.db.rows, w.config.workerId, w.pc.job))
  }

  ghost predicate Timely(s: System) {
    forall p <- s.workers :: WorkerTimely(s, s.workers[p])
  }

  ghost predicate ActsInTime(st: Statement, clock: int) {
    st.ExpireDue? || st.ReclaimAbandoned? ==> st.now <= clock
  }

  lemma StatementKeepsBacking(db: Database, st: Statement, clock: int, workerId: string, job: Job)
    requires Inv(db) && Enabled(db, st) && ActsInTime(st, clock) && !UsesLease(st, job.leaseId)
    requires Live(job, clock) && Backs(db.rows, workerId, job)
    ensures Backs(Execute(db, st).rows, workerId, job)
  {
  }

  lemma StatementKeepsExpiry(db: Database, st: Statement, job: Job)
    requires Inv(db) && Enabled(db, st) && SameExpiry(db.rows, job) && job.incarnation < |db.bounds|
    ensures SameExpiry(Execute(db, st).rows, job)
  {
  }

  /** A statement of someone else leaves a worker's claim alone. */
  lemma StatementKeepsTimely(s: System, st: Statement, p: nat)
    requires SystemInv(s) && Enabled(s.db, st) && ActsInTime(st, s.clock)
    requires p in s.workers && WorkerTimely(s, s.workers[p])
    requires s.workers[p].pc.HasJob() ==> !UsesLease(st, s.workers[p].pc.job.leaseId)
    ensures WorkerTimely(s.(db := Execute(s.db, st)), s.workers[p])
  {
    var w := s.workers[p];
    if w.pc.HasJob() {
      assert JobOk(s, w);
      StatementKeepsExpiry(s.db, st, w.pc.job);
      if Live(w.pc.job, s.clock) {
        StatementKeepsBacking(s.db, st, s.clock, w.config.workerId, w.pc.job);
      }
    }
  }

  lemma RenewalIsTimely(s: System, w: Worker, o: Outside)
    requires SystemInv(s) && WorkerTimely(s, w) && JobOk(s, w)
    requires w.pc.FirstRenewal? || w.pc.SecondRenewal?
    requires Enabled(s.db, StatementAt(w, o))
    ensures WorkerTimely(s.(db := Execute(s.db, StatementAt(w, o))), AfterAnswer(w, s.db, o))
  {
    var job := w.pc.job;
    if Held(s.db.rows, job.id, w.config.workerId, job.leaseId, w.pc.now) {
      assert RowInv(s.db, s.db.rows[job.id]);
    }
  }

  lemma ClaimIsTimely(s: System, w: Worker, o: Outside)
    requires w.pc.Claiming? && Enabled(s.db, StatementAt(w, o))
    ensures WorkerTimely(s.(db := Execute(s.db, StatementAt(w, o))), AfterAnswer(w, s.db, o))
  {
  }

  lemma AnswerIsTimely(s: System, pid: nat, o: Outside)
    requires SystemInv(s) && Timely(s) && CanAct(s, Proceed(pid, o))
    requires s.workers[pid].pc.AtStore() && !o.delivery.Refused?
    ensures
      var w := s.workers[pid];
      WorkerTimely(s.(db := Execute(s.db, StatementAt(w, o))), AfterAnswer(w, s.db, o))
  {
    var w := s.workers[pid];
    assert JobOk(s, w) && WorkerTimely(s, w);
    if w.pc.Claiming? {
      ClaimIsTimely(s, w, o);
    } else if w.pc.FirstRenewal? || w.pc.SecondRenewal? {
      RenewalIsTimely(s, w, o);
    }
  }

  lemma StatementAtIsInTime(w: Worker, o: Outside, clock: int)
    requires w.pc.AtStore() && ReadEarlier(w.pc, clock)
    ensures ActsInTime(StatementAt(w, o), clock)
    ensures forall l :: UsesLease(StatementAt(w, o), l) ==> w.pc.HasJob() && w.pc.job.leaseId == l
  {
  }

  lemma OtherStaysTimely(s: System, pid: nat, o: Outside, p: nat)
    requires SystemInv(s) && Timely(s) && CanAct(s, Proceed(pid, o))
    requires s.workers[pid].pc.AtStore() && !o.delivery.Refused?
    requires p in s.workers && p != pid
    ensures WorkerTimely(s.(db := Execute(s.db, StatementAt(s.workers[pid], o))), s.workers[p])
  {
    assert WorkerTimely(s, s.workers[pid]) && WorkerTimely(s, s.workers[p]);
    StatementAtIsInTime(s.workers[pid], o, s.clock);
    StatementKeepsTimely(s, StatementAt(s.workers[pid], o), p);
  }

  lemma StoreStepIsTimely(s: System, pid: nat, o: Outside)
    requires SystemInv(s) && Timely(s) && CanAct(s, Proceed(pid, o)) && s.workers[pid].pc.AtStore()
    ensures Timely(Act(s, Proceed(pid, o)))
  {
    var after := Act(s, Proceed(pid, o));
    forall p <- after.workers
      ensures WorkerTimely(after, after.workers[p])
    {
      assert WorkerTimely(s, s.workers[p]);
      if !o.delivery.Refused? {
        if p == pid {
          AnswerIsTimely(s, pid, o);
        } else {
          OtherStaysTimely(s, pid, o, p);
        }
      }
    }
  }

  lemma LocalStepIsTimely(s: System, pid: nat, o: Outside)
    requires Timely(s) && CanAct(s, Proceed(pid, o)) && !s.workers[pid].pc.AtStore() && o.now == s.clock
    ensures Timely(Act(s, Proceed(pid, o)))
  {
    var after := Act(s, Proceed(pid, o));
    forall p <- after.workers
      ensures WorkerTimely(after, after.workers[p])
    {
      assert WorkerTimely(s, s.workers[p]);
    }
  }

  lemma TableActionIsTimely(s: System, st: Statement)
    requires SystemInv(s) && Timely(s) && Enabled(s.db, st) && (st.Insert? || st.CleanupTerminal?)
    ensures Timely(s.(db := Execute(s.db, st)))
  {
  }

  lemma WorkersOnlyTimely(s: System, after: System)
    requires Timely(s) && after.db == s.db && s.clock <= after.clock
    requires forall p <- after.workers ::
               (p in s.workers && after.workers[p] == s.workers[p]) || after.workers[p].pc.Looping?
    ensures Timely(after)
  {
  }

  lemma ActionIsTimely(s: System, a: Action)
    requires SystemInv(s) && Timely(s) && CanAct(s, a) && OnClock(s, a)
    ensures Timely(Act(s, a))
  {
    match a {
      case Proceed(pid, o) =>
        if s.workers[pid].pc.AtStore() {
          StoreStepIsTimely(s, pid, o);
        } else {
          LocalStepIsTimely(s, pid, o);
        }
      case Enqueue(id, row) =>
        TableActionIsTimely(s, Insert(id, row));
      case Cleanup(statuses, before, tenantId, limit, chosen) =>
        TableActionIsTimely(s, CleanupTerminal(statuses, before, tenantId, limit, chosen));
      case Tick(_) =>
        WorkersOnlyTimely(s, Act(s, a));
      case Start(_, _) =>
        WorkersOnlyTimely(s, Act(s, a));
      case Crash(_) =>
        WorkersOnlyTimely(s, Act(s, a));
    }
  }

  ghost predicate ClockBehaviour(ss: seq<System>, acts: seq<Action>) {
    Behaviour(ss, acts) && forall i :: 0 <= i < |acts| ==> OnClock(ss[i], acts[i])
  }

  lemma {:induction false} ReachableTimely(ss: seq<System>, acts: seq<Action>, i: nat)
    requires ClockBehaviour(ss, acts) && i < |ss|
    ensures Timely(ss[i])
  {
    if 0 < i {
      ReachableTimely(ss, acts, i - 1);
      ReachableInv(ss, acts, i - 1);
      ActionIsTimely(ss[i - 1], acts[i - 1]);
    }
  }

  /** Whenever a send starts, the row is claimed under the sender's own lease and neither has run out. */
  lemma SendHoldsTheRow(ss: seq<System>, acts: seq<Action>, i: nat)
    requires ClockBehaviour(ss, acts) && i < |acts| && StartsSend(ss[i], acts[i])
    ensures
      var w := ss[i].workers[acts[i].pid];
      && w.pc.BeforeSend?
      && Live(w.pc.job, ss[i].clock)
      && Backs(ss[i].db.rows, w.config.workerId, w.pc.job)
      && Held(ss[i].db.rows, w.pc.job.id, w.config.workerId, w.pc.job.leaseId, ss[i].clock)
      && !ss[i].db.rows[w.pc.job.id].ExpiredBy(ss[i].clock)
  {
    ReachableInv(ss, acts, i);
    SendStep(ss[i], acts[i]);
    ReachableTimely(ss, acts, i);
    assert WorkerTimely(ss[i], ss[i].workers[acts[i].pid]);
  }

  /** Two workers never send one message while both leases live. */
  lemma OneSenderPerMessage(ss: seq<System>, acts: seq<Action>, i: nat, p: nat, q: nat)
    requires ClockBehaviour(ss, acts) && i < |ss| && p in ss[i].workers && q in ss[i].workers
    requires ss[i].workers[p].pc.Sending? && ss[i].workers[q].pc.Sending?
    requires ss[i].workers[p].pc.job.id == ss[i].workers[q].pc.job.id
    requires Live(ss[i].workers[p].pc.job, ss[i].clock) && Live(ss[i].workers[q].pc.job, ss[i].clock)
    ensures p == q
  {
    ReachableInv(ss, acts, i);
    ReachableTimely(ss, acts, i);
    assert WorkerTimely(ss[i], ss[i].workers[p]);
    assert WorkerTimely(ss[i], ss[i].workers[q]);
  }
}
