/** What holds in every reachable state of the workers and the table, with or without a common clock. */
module OutboxSafety {
  import opened OutboxRows
  import opened OutboxInvariants
  import opened OutboxRuns
  import opened OutboxWorkers

  // ---- Any clocks ----

  /** Claimed messages not yet counted as dispatched or failed. */
  function InFlight(w: Worker): nat {
    if w.pc.HasJob() && !w.pc.Failing? then 1 else 0
  }

  ghost predicate CountsOk(w: Worker) {
    && (w.failure || w.claimed == w.dispatched + w.failed + InFlight(w))
    && (w.pc.Finished? && w.pc.ok ==> !w.failure)
  }

  ghost predicate JobOk(s: System, w: Worker) {
    w.pc.HasJob() ==>
      && w.pc.job.leaseId in s.db.issued && s.db.issued[w.pc.job.leaseId] == w.pc.job.incarnation
      && (w.pc.BeforeSending() ==> w.pc.job.leaseId !in s.sent)
      && (w.pc.Sending? ==> w.pc.job.leaseId in s.sent)
      && (w.pc.Acknowledging? ==> w.pc.job.leaseId in s.accepted)
  }

  ghost predicate OwnLeases(workers: map<nat, Worker>) {
    forall p <- workers, q <- workers ::
      workers[p].pc.HasJob() && workers[q].pc.HasJob() && workers[p].pc.job.leaseId == workers[q].pc.job.leaseId ==> p == q
  }

  ghost predicate DispatchedAfterAcceptance(db: Database, accepted: set<LeaseId>) {
    forall id <- db.rows :: db.rows[id].status.Dispatched? ==>
                              exists l :: l in accepted && l in db.issued && db.issued[l] == db.rows[id].incarnation
  }

  ghost predicate SystemInv(s: System) {
    && Inv(s.db)
    && s.sent <= s.db.issued.Keys && s.accepted <= s.sent
    && DispatchedAfterAcceptance(s.db, s.accepted)
    && (forall p <- s.workers :: JobOk(s, s.workers[p]) && CountsOk(s.workers[p]))
    && OwnLeases(s.workers)
  }

  lemma StatementKeepsDispatched(db: Database, st: Statement, accepted: set<LeaseId>)
    requires Inv(db) && Enabled(db, st) && DispatchedAfterAcceptance(db, accepted)
    requires st.MarkDispatched? ==> st.leaseId in accepted
    ensures DispatchedAfterAcceptance(Execute(db, st), accepted)
  {
    var after := Execute(db, st);
    forall id <- after.rows | after.rows[id].status.Dispatched?
      ensures exists l :: l in accepted && l in after.issued && after.issued[l] == after.rows[id].incarnation
    {
      assert RowInv(db, db.rows[id]);
      if db.rows[id].status.Dispatched? {
        var l :| l in accepted && l in db.issued && db.issued[l] == db.rows[id].incarnation;
        IssuedStays(db, st, l);
      } else {
        assert st.MarkDispatched? && st.id == id;
      }
    }
  }

  lemma StatementKeepsJobs(s: System, st: Statement)
    requires SystemInv(s) && Enabled(s.db, st)
    ensures forall p <- s.workers :: JobOk(s.(db := Execute(s.db, st)), s.workers[p])
    ensures s.sent <= Execute(s.db, st).issued.Keys
  {
  }

  lemma AnswerKeepsCounts(w: Worker, db: Database, o: Outside)
    requires w.pc.AtStore() && Enabled(db, StatementAt(w, o)) && CountsOk(w)
    ensures CountsOk(AfterAnswer(w, db, o))
  {
  }

  /** After any answer but a claim's the worker has its old job or none, and is past sending only if it was. */
  lemma AnswerKeepsJob(w: Worker, db: Database, o: Outside)
    requires w.pc.AtStore() && !w.pc.Claiming? && Enabled(db, StatementAt(w, o))
    ensures
      var next := AfterAnswer(w, db, o);
      next.pc.HasJob() ==>
        && w.pc.HasJob()
        && next.pc.job.leaseId == w.pc.job.leaseId && next.pc.job.incarnation == w.pc.job.incarnation
        && w.pc.BeforeSending() && next.pc.BeforeSending()
  {
  }

  lemma ClaimGivesNewJob(w: Worker, db: Database, o: Outside)
    requires w.pc.Claiming? && Enabled(db, StatementAt(w, o))
    ensures
      var next := AfterAnswer(w, db, o);
      var issued := Execute(db, StatementAt(w, o)).issued;
      next.pc.HasJob() ==>
        && next.pc.Checking?
        && next.pc.job.leaseId !in db.issued
        && next.pc.job.leaseId in issued && issued[next.pc.job.leaseId] == next.pc.job.incarnation
  {
    if o.grant.Some? {
      assert o.grant.value.id in o.Leases();
      assert o.Leases()[o.grant.value.id] == o.grant.value.leaseId;
      assert o.grant.value.leaseId in Grants(db, o.Leases());
    }
  }

  /** The worker's next state carries its old job or a freshly leased one. */
  lemma AnswerKeepsWorker(s: System, pid: nat, o: Outside)
    requires SystemInv(s) && CanAct(s, Proceed(pid, o)) && s.workers[pid].pc.AtStore() && o.delivery.Answered?
    ensures
      var w := s.workers[pid];
      var st := StatementAt(w, o);
      var next := AfterAnswer(w, s.db, o);
      && JobOk(s.(db := Execute(s.db, st)), next)
      && (next.pc.HasJob() ==>
            || next.pc.job.leaseId !in s.db.issued
            || (w.pc.HasJob() && next.pc.job.leaseId == w.pc.job.leaseId))
  {
    var w := s.workers[pid];
    if w.pc.Claiming? {
      ClaimGivesNewJob(w, s.db, o);
    } else {
      AnswerKeepsJob(w, s.db, o);
      StatementKeepsJobs(s, StatementAt(w, o));
      assert JobOk(s.(db := Execute(s.db, StatementAt(w, o))), w);
    }
  }

  lemma FailureKeepsWorker(s: System, w: Worker)
    requires w.pc.AtStore() && CountsOk(w)
    ensures CountsOk(AfterStoreFailure(w)) && !AfterStoreFailure(w).pc.HasJob()
  {
  }

  lemma OneWorkerMoves(workers: map<nat, Worker>, pid: nat, next: Worker, issued: set<LeaseId>)
    requires OwnLeases(workers) && pid in workers
    requires forall p <- workers :: workers[p].pc.HasJob() ==> workers[p].pc.job.leaseId in issued
    requires next.pc.HasJob() ==>
               || next.pc.job.leaseId !in issued
               || (workers[pid].pc.HasJob() && next.pc.job.leaseId == workers[pid].pc.job.leaseId)
    ensures OwnLeases(workers[pid := next])
  {
  }

  lemma StoreStepKeepsInv(s: System, pid: nat, o: Outside)
    requires SystemInv(s) && CanAct(s, Proceed(pid, o)) && s.workers[pid].pc.AtStore()
    ensures SystemInv(Act(s, Proceed(pid, o)))
  {
    var w := s.workers[pid];
    var after := Act(s, Proceed(pid, o));
    assert JobOk(s, w) && CountsOk(w);
    FailureKeepsWorker(s, w);
    OneWorkerMoves(s.workers, pid, AfterStoreFailure(w), s.db.issued.Keys);
    if !o.delivery.Refused? {
      var st := StatementAt(w, o);
      StatementKeepsInv(s.db, st);
      StatementKeepsDispatched(s.db, st, s.accepted);
      StatementKeepsJobs(s, st);
      if o.delivery.Answered? {
        AnswerKeepsWorker(s, pid, o);
        AnswerKeepsCounts(w, s.db, o);
        OneWorkerMoves(s.workers, pid, AfterAnswer(w, s.db, o), s.db.issued.Keys);
      }
    }
    forall p <- after.workers
      ensures JobOk(after, after.workers[p]) && CountsOk(after.workers[p])
    {
      if p != pid {
        assert JobOk(s, s.workers[p]) && CountsOk(s.workers[p]);
      }
    }
  }

  lemma LocalKeepsWorker(s: System, w: Worker, o: Outside, after: System)
    requires !w.pc.AtStore() && !w.pc.Finished? && JobOk(s, w) && CountsOk(w)
    requires after.db == s.db
    requires
      var next := AfterLocal(w, o);
      && after.sent == (if next.pc.Sending? then s.sent + {next.pc.job.leaseId} else s.sent)
      && after.accepted == (if next.pc.Acknowledging? then s.accepted + {next.pc.job.leaseId} else s.accepted)
    ensures
      var next := AfterLocal(w, o);
      && JobOk(after, next) && CountsOk(next)
      && (next.pc.HasJob() ==> w.pc.HasJob() && next.pc.job.leaseId == w.pc.job.leaseId)
      && (next.pc.Acknowledging? ==> next.pc.job.leaseId in s.sent)
  {
  }

  lemma OthersKeepJobs(s: System, pid: nat, next: Worker, after: System)
    requires SystemInv(s) && pid in s.workers
    requires next.pc.HasJob() ==> s.workers[pid].pc.HasJob() && next.pc.job.leaseId == s.workers[pid].pc.job.leaseId
    requires after.db == s.db
    requires after.sent == (if next.pc.Sending? then s.sent + {next.pc.job.leaseId} else s.sent)
    requires after.accepted == (if next.pc.Acknowledging? then s.accepted + {next.pc.job.leaseId} else s.accepted)
    ensures forall p <- s.workers :: p != pid ==> JobOk(after, s.workers[p]) && CountsOk(s.workers[p])
    ensures DispatchedAfterAcceptance(after.db, after.accepted)
  {
  }

  lemma LocalStepKeepsInv(s: System, pid: nat, o: Outside)
    requires SystemInv(s) && CanAct(s, Proceed(pid, o)) && !s.workers[pid].pc.AtStore()
    ensures SystemInv(Act(s, Proceed(pid, o)))
  {
    var w := s.workers[pid];
    var after := Act(s, Proceed(pid, o));
    assert JobOk(s, w) && CountsOk(w);
    LocalKeepsWorker(s, w, o, after);
    OthersKeepJobs(s, pid, AfterLocal(w, o), after);
    forall p <- s.workers | s.workers[p].pc.HasJob()
      ensures s.workers[p].pc.job.leaseId in s.db.issued.Keys
    {
      assert JobOk(s, s.workers[p]);
    }
    OneWorkerMoves(s.workers, pid, AfterLocal(w, o), s.db.issued.Keys);
  }

  lemma ActionKeepsInv(s: System, a: Action)
    requires SystemInv(s) && CanAct(s, a)
    ensures SystemInv(Act(s, a))
  {
    var after := Act(s, a);
    match a {
      case Proceed(pid, o) =>
        if s.workers[pid].pc.AtStore() {
          StoreStepKeepsInv(s, pid, o);
        } else {
          LocalStepKeepsInv(s, pid, o);
        }
      case Enqueue(id, row) =>
        TableActionKeepsInv(s, Insert(id, row));
      case Cleanup(statuses, before, tenantId, limit, chosen) =>
        TableActionKeepsInv(s, CleanupTerminal(statuses, before, tenantId, limit, chosen));
      case Tick(_) =>
        WorkersOnly(s, after);
      case Start(_, _) =>
        WorkersOnly(s, after);
      case Crash(_) =>
        WorkersOnly(s, after);
    }
  }

  lemma TableActionKeepsInv(s: System, st: Statement)
    requires SystemInv(s) && Enabled(s.db, st) && (st.Insert? || st.CleanupTerminal?)
    ensures SystemInv(s.(db := Execute(s.db, st)))
  {
    StatementKeepsInv(s.db, st);
    StatementKeepsDispatched(s.db, st, s.accepted);
    StatementKeepsJobs(s, st);
  }

  lemma WorkersOnly(s: System, after: System)
    requires SystemInv(s)
    requires after.db == s.db && after.sent == s.sent && after.accepted == s.accepted
    requires forall p <- after.workers ::
               (p in s.workers && after.workers[p] == s.workers[p])
               || (!after.workers[p].pc.HasJob() && CountsOk(after.workers[p]))
    ensures SystemInv(after)
  {
  }
}
