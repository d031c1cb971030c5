/** Workers over the outbox. Each worker is a program counter inside `runOnce`; between any two of its
    steps other workers may act, it may crash, and a store answer may be lost after the statement ran. */
module OutboxWorkers {
  import opened Common
  import opened OutboxRows

  /** The claimed message a worker is processing, with its own copy of the lease end. */
  datatype Job = Job(id: RowId, incarnation: nat, leaseId: LeaseId, until: int, expiresAt: Option<int>)
  {
    predicate ExpiredBy(now: int) {
      expiresAt.Some? && expiresAt.value <= now
    }
  }

  datatype Pc =
    | Looping
    | Expiring(now: int)
    | Reclaiming(now: int)
    | Claiming(now: int)
    | Checking(job: Job)
    | FirstRenewal(job: Job, now: int)
    | BeforeUnseal(job: Job)
    | Unsealing(job: Job)
    | SecondRenewal(job: Job, now: int)
    | BeforeSend(job: Job)
    | Sending(job: Job)
    | Acknowledging(job: Job, now: int)
    | Failing(job: Job, now: int, terminal: bool, retryAt: Option<int>, reason: string)
    | Finished(ok: bool)
  {
    predicate HasJob() {
      !Looping? && !Expiring? && !Reclaiming? && !Claiming? && !Finished?
    }

    predicate BeforeSending() {
      Checking? || FirstRenewal? || BeforeUnseal? || Unsealing? || SecondRenewal? || BeforeSend?
    }

    predicate AtStore() {
      Expiring? || Reclaiming? || Claiming? || FirstRenewal? || SecondRenewal? || Acknowledging? || Failing?
    }
  }

  datatype Config = Config(workerId: string, leaseSeconds: int, tenantId: Option<string>, limit: nat,
                           retryDelaySeconds: int)

  datatype Worker = Worker(config: Config, pc: Pc, index: nat, claimed: nat, dispatched: nat, failed: nat,
                           failure: bool)
  {
    function Continue(): Worker {
      this.(pc := Looping, index := index + 1)
    }

    function Remember(): Worker {
      this.(failure := true)
    }

    function Fail(job: Job, now: int, terminal: bool, retryAt: Option<int>, reason: string): Worker {
      this.(failed := failed + 1, pc := Failing(job, now, terminal, retryAt, reason))
    }

    function RetryAt(now: int): int {
      now + config.retryDelaySeconds * 1000
    }
  }

  /** Whether a store call ran and whether its answer arrived. */
  datatype Delivery = Answered | AnswerLost | Refused

  datatype Grant = Grant(id: RowId, leaseId: LeaseId)

  /** Everything outside the worker's control in one step: the clock it reads, the rows a statement picks,
      the lease id it generates, and whether the sealer, the transport and the row checks say yes. */
  datatype Outside = Outside(now: int, delivery: Delivery, chosen: set<RowId>, grant: Option<Grant>,
                             good: bool, reason: string)
  {
    function Leases(): map<RowId, LeaseId> {
      if grant.Some? then map[grant.value.id := grant.value.leaseId] else map[]
    }
  }

  datatype System = System(db: Database, clock: int, workers: map<nat, Worker>, sent: set<LeaseId>,
                           accepted: set<LeaseId>)

  datatype Action =
    | Tick(clock: int)
    | Enqueue(id: RowId, row: Row)
    | Cleanup(statuses: set<Status>, before: int, tenantId: Option<string>, limit: nat, chosen: set<RowId>)
    | Start(pid: nat, config: Config)
    | Crash(pid: nat)
    | Proceed(pid: nat, outside: Outside)

  // ---- One step of a worker ----

  function StatementAt(w: Worker, o: Outside): Statement
    requires w.pc.AtStore()
  {
    match w.pc
    case Expiring(now) => ExpireDue(now, w.config.tenantId, 1, o.chosen)
    case Reclaiming(now) => ReclaimAbandoned(now, w.config.tenantId, 1, o.chosen)
    case Claiming(now) =>
      ClaimCandidates(now, w.config.tenantId, 1, w.config.workerId, w.config.leaseSeconds, o.Leases())
    case FirstRenewal(job, now) => RenewLease(job.id, w.config.workerId, job.leaseId, now, w.config.leaseSeconds)
    case SecondRenewal(job, now) => RenewLease(job.id, w.config.workerId, job.leaseId, now, w.config.leaseSeconds)
    case Acknowledging(job, now) => MarkDispatched(job.id, w.config.workerId, job.leaseId, now)
    case Failing(job, now, terminal, retryAt, reason) =>
      MarkFailed(job.id, w.config.workerId, job.leaseId, now, terminal, retryAt, reason)
  }

  function ClaimedJob(id: RowId, row: Row, leaseId: LeaseId, until: int): Job {
    Job(id, row.incarnation, leaseId, until, row.expiresAt)
  }

  /** What the worker does with the answer of a statement that ran on `db`. */
  function AfterAnswer(w: Worker, db: Database, o: Outside): Worker
    requires w.pc.AtStore() && Enabled(db, StatementAt(w, o))
  {
    match w.pc
    case Expiring(now) => w.(pc := Reclaiming(now))
    case Reclaiming(now) => w.(pc := Claiming(now))
    case Claiming(now) =>
      if o.grant.None? then w.(pc := Finished(!w.failure))
      else
        var id := o.grant.value.id;
        var job := ClaimedJob(id, db.rows[id], o.grant.value.leaseId, LeaseEnd(now, w.config.leaseSeconds));
        if o.good then w.(pc := Checking(job), claimed := w.claimed + 1)
        else w.(claimed := w.claimed + 1).Remember().Continue()
    case FirstRenewal(job, now) =>
      if Held(db.rows, job.id, w.config.workerId, job.leaseId, now)
      then w.(pc := BeforeUnseal(job.(until := LeaseEnd(now, w.config.leaseSeconds))))
      else w.Remember().Continue()
    case SecondRenewal(job, now) =>
      if Held(db.rows, job.id, w.config.workerId, job.leaseId, now)
      then w.(pc := BeforeSend(job.(until := LeaseEnd(now, w.config.leaseSeconds))))
      else w.Remember().Continue()
    case Acknowledging(job, now) =>
      if Held(db.rows, job.id, w.config.workerId, job.leaseId, now)
      then w.(dispatched := w.dispatched + 1).Continue()
      else w.Remember().Continue()
    case Failing(job, now, _, _, _) =>
      if Held(db.rows, job.id, w.config.workerId, job.leaseId, now)
      then w.Continue()
      else w.Remember().Continue()
  }

  /** A store call that failed or whose answer was lost: a claim ends the run, anything else ends the iteration. */
  function AfterStoreFailure(w: Worker): Worker
    requires w.pc.AtStore()
  {
    if w.pc.HasJob() then w.Remember().Continue() else w.Remember().(pc := Finished(false))
  }

  /** The steps that run without the store, each reading the clock once. */
  function AfterLocal(w: Worker, o: Outside): Worker
    requires !w.pc.AtStore() && !w.pc.Finished?
  {
    match w.pc
    case Looping =>
      if w.index >= w.config.limit then w.(pc := Finished(!w.failure)) else w.(pc := Expiring(o.now))
    case Checking(job) =>
      if job.until <= o.now then w.Remember().Continue() else w.(pc := FirstRenewal(job, o.now))
    case BeforeUnseal(job) =>
      if job.ExpiredBy(o.now) then w.Fail(job, o.now, true, None, "DELIVERY_FAILED")
      else if job.until <= o.now then w.Remember().Continue()
      else w.(pc := Unsealing(job))
    case Unsealing(job) =>
      if !o.good then
        var terminal := job.ExpiredBy(o.now);
        w.Fail(job, o.now, terminal, if terminal then None else Some(w.RetryAt(o.now)), "DELIVERY_FAILED")
      else if job.ExpiredBy(o.now) then w.Fail(job, o.now, true, None, "DELIVERY_FAILED")
      else w.(pc := SecondRenewal(job, o.now))
    case BeforeSend(job) =>
      if job.ExpiredBy(o.now) then w.Fail(job, o.now, true, None, "DELIVERY_FAILED")
      else if job.until <= o.now then w.Remember().Continue()
      else w.(pc := Sending(job))
    case Sending(job) =>
      if o.good then w.(pc := Acknowledging(job, o.now))
      else w.Fail(job, o.now, false, Some(w.RetryAt(o.now)), o.reason)
  }

  // ---- One step of the system ----

  predicate CanAct(s: System, a: Action) {
    match a
    case Tick(clock) => s.clock <= clock
    case Enqueue(id, row) => Enabled(s.db, Insert(id, row))
    case Cleanup(statuses, before, tenantId, limit, chosen) =>
      Enabled(s.db, CleanupTerminal(statuses, before, tenantId, limit, chosen))
    case Start(_, config) => 0 < config.leaseSeconds && 0 <= config.retryDelaySeconds
    case Crash(pid) => pid in s.workers
    case Proceed(pid, o) =>
      && pid in s.workers && !s.workers[pid].pc.Finished?
      && (s.workers[pid].pc.AtStore() && !o.delivery.Refused? ==> Enabled(s.db, StatementAt(s.workers[pid], o)))
  }

  function Proceeded(s: System, pid: nat, o: Outside): System
    requires CanAct(s, Proceed(pid, o))
  {
    var w := s.workers[pid];
    if w.pc.AtStore() then
      if o.delivery.Refused? then s.(workers := s.workers[pid := AfterStoreFailure(w)])
      else
        var st := StatementAt(w, o);
        s.(db := Execute(s.db, st),
           workers := s.workers[pid := if o.delivery.Answered? then AfterAnswer(w, s.db, o) else AfterStoreFailure(w)])
    else
      var next := AfterLocal(w, o);
      s.(workers := s.workers[pid := next],
         sent := if next.pc.Sending? then s.sent + {next.pc.job.leaseId} else s.sent,
         accepted := if next.pc.Acknowledging? then s.accepted + {next.pc.job.leaseId} else s.accepted)
  }

  function Act(s: System, a: Action): System
    requires CanAct(s, a)
  {
    match a
    case Tick(clock) => s.(clock := clock)
    case Enqueue(id, row) => s.(db := Execute(s.db, Insert(id, row)))
    case Cleanup(statuses, before, tenantId, limit, chosen) =>
      s.(db := Execute(s.db, CleanupTerminal(statuses, before, tenantId, limit, chosen)))
    case Start(pid, config) =>
      s.(workers := s.workers[pid := Worker(config, Looping, 0, 0, 0, 0, false)])
    case Crash(pid) => s.(workers := s.workers - {pid})
    case Proceed(pid, o) => Proceeded(s, pid, o)
  }

  /** The action hands a message to the transport. */
  predicate StartsSend(s: System, a: Action)
    requires CanAct(s, a)
  {
    a.Proceed? && !s.workers[a.pid].pc.Sending? && Act(s, a).workers[a.pid].pc.Sending?
  }
}
