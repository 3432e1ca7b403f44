/**
 Any number of workers and schedulers over the job tables: `worker_cycle` and `scheduler_cycle` as
 steps that interleave freely, with a crash or an abort possible after each of them. A claim is
 two steps, taking the row locks and committing; a post commits its two writes together. The
 database's clock decides what is due, the application's clock what fires next, and each reading of
 the latter is a step's own.
 */
module JobRuns {
  import opened Common
  import opened JobTables

  type Pid = nat

  datatype Worker =
    | Selected(task: TaskId)                 // row-locked, the claim not yet committed
    | Claimed(task: TaskId)
    | Running(task: TaskId)                  // the handler has started
    | Ran(task: TaskId, outcome: HandlerOutcome)

  /** A claimed row taken from the list: its next firing after `seen` is computed, nothing is written yet. */
  datatype Posting = Posting(row: RowId, copy: Schedule, seen: int, next: Option<int>, completed: int)

  datatype Scheduler =
    | Choosing(rows: set<RowId>)             // row-locked, the claim not yet committed
    | Holding(todo: map<RowId, Schedule>, posting: Option<Posting>)

  /** A process that is not in the map is between two rounds. `claims`, `runs` and `ended` are history. */
  datatype System = System(db: Db, workers: map<Pid, Worker>, schedulers: map<Pid, Scheduler>,
                           claims: seq<TaskId>, runs: seq<TaskId>, ended: map<TaskId, HandlerOutcome>)

  datatype Step =
    | Tick(elapsed: nat)
    | Enqueue(t: TaskId, task: Task)
    | Register(row: Schedule)
    | SelectTask(w: Pid, t: TaskId)
    | CommitClaim(w: Pid)
    | NoHandler(w: Pid)
    | StartHandler(w: Pid)
    | EndHandler(w: Pid, outcome: HandlerOutcome)
    | MarkDone(w: Pid)
    | WorkerStops(w: Pid)
    | ChooseRows(p: Pid)
    | CommitChoice(p: Pid)
    | BadCron(p: Pid, r: RowId)
    | Prepare(p: Pid, r: RowId, seen: int, next: Option<int>, completed: int)
    | CommitPost(p: Pid, t: TaskId, posted: int)
    | AbortPost(p: Pid)
    | SchedulerStops(p: Pid)

  function HeldTasks(s: System): set<TaskId> {
    set w | w in s.workers && s.workers[w].Selected? :: s.workers[w].task
  }

  function Rows(a: Scheduler): set<RowId> {
    if a.Choosing? then a.rows else a.todo.Keys
  }

  function HeldRows(s: System): set<RowId> {
    set p, r | p in s.schedulers && s.schedulers[p].Choosing? && r in s.schedulers[p].rows :: r
  }

  /** A row as `ScheduledTask::new` makes it, or one with a cron string nobody could parse. */
  ghost predicate WellMade(row: Schedule) {
    && !row.locked
    && (row.cron.Some? ==> row.due.Some? && IsNext(row.cron.value, row.made, row.due))
  }

  ghost predicate Can(s: System, a: Step) {
    match a
    case Tick(_) => true
    case Enqueue(t, task) => t !in s.db.queue && task.origin == Direct
    case Register(row) => WellMade(row)
    case SelectTask(w, t) => w !in s.workers && IsOldest(s.db, HeldTasks(s), t)
    case CommitClaim(w) => w in s.workers && s.workers[w].Selected?
    case NoHandler(w) => w in s.workers && s.workers[w].Claimed?
    case StartHandler(w) => w in s.workers && s.workers[w].Claimed?
    case EndHandler(w, _) => w in s.workers && s.workers[w].Running?
    case MarkDone(w) => w in s.workers && s.workers[w].Ran?
    case WorkerStops(w) => w in s.workers
    case ChooseRows(p) => p !in s.schedulers
    case CommitChoice(p) => p in s.schedulers && s.schedulers[p].Choosing?
    case BadCron(p, r) =>
      && p in s.schedulers && s.schedulers[p].Holding? && s.schedulers[p].posting == None
      && r in s.schedulers[p].todo && s.schedulers[p].todo[r].cron == None
    case Prepare(p, r, seen, next, _) =>
      && p in s.schedulers && s.schedulers[p].Holding? && s.schedulers[p].posting == None
      && r in s.schedulers[p].todo && s.schedulers[p].todo[r].cron.Some?
      && IsNext(s.schedulers[p].todo[r].cron.value, seen, next)
    case CommitPost(p, t, _) => InPost(s, p) && s.schedulers[p].posting.value.copy.due.Some? && t !in s.db.queue
    case AbortPost(p) => InPost(s, p)
    case SchedulerStops(p) => p in s.schedulers
  }

  ghost predicate InPost(s: System, p: Pid) {
    p in s.schedulers && s.schedulers[p].Holding? && s.schedulers[p].posting.Some?
  }

  function SetWorker(s: System, w: Pid, to: Worker): System {
    s.(workers := s.workers[w := to])
  }

  function SetScheduler(s: System, p: Pid, to: Scheduler): System {
    s.(schedulers := s.schedulers[p := to])
  }

  ghost function Take(s: System, a: Step): System
    requires Can(s, a)
  {
    match a
    case Tick(elapsed) => s.(db := s.db.(now := s.db.now + elapsed))
    case Enqueue(t, task) => s.(db := s.db.(queue := s.db.queue[t := task]))
    case Register(row) =>
      s.(db := s.db.(schedule := s.db.schedule[s.db.nextRow := row], nextRow := s.db.nextRow + 1))
    case SelectTask(w, t) => SetWorker(s, w, Selected(t))
    case CommitClaim(w) =>
      var t := s.workers[w].task;
      SetWorker(s, w, Claimed(t)).(db := LockTask(s.db, t), claims := s.claims + [t])
    case NoHandler(w) => s.(workers := s.workers - {w})
    case StartHandler(w) =>
      var t := s.workers[w].task;
      SetWorker(s, w, Running(t)).(runs := s.runs + [t])
    case EndHandler(w, outcome) =>
      var t := s.workers[w].task;
      SetWorker(s, w, Ran(t, outcome)).(ended := s.ended[t := outcome])
    case MarkDone(w) =>
      var Ran(t, outcome) := s.workers[w];
      s.(workers := s.workers - {w}, db := Mark(s.db, t, StatusAfter(outcome)))
    case WorkerStops(w) => s.(workers := s.workers - {w})
    case ChooseRows(p) => SetScheduler(s, p, Choosing(DueRows(s.db, HeldRows(s))))
    case CommitChoice(p) =>
      var rows := s.schedulers[p].rows;
      var db := LockRows(s.db, rows);
      SetScheduler(s, p, Holding(map r | r in rows && r in db.schedule :: db.schedule[r], None)).(db := db)
    case BadCron(p, r) => SetScheduler(s, p, Holding(s.schedulers[p].todo - {r}, None))
    case Prepare(p, r, seen, next, completed) =>
      var todo := s.schedulers[p].todo;
      SetScheduler(s, p, Holding(todo, Some(Posting(r, todo[r], seen, next, completed))))
    case CommitPost(p, t, posted) =>
      var todo, posting := s.schedulers[p].todo, s.schedulers[p].posting.value;
      SetScheduler(s, p, Holding(todo - {posting.row}, None))
        .(db := Post(s.db, t, posted, posting.row, posting.copy, posting.next, posting.completed))
    case AbortPost(p) =>
      var todo, posting := s.schedulers[p].todo, s.schedulers[p].posting.value;
      SetScheduler(s, p, Holding(todo - {posting.row}, None))
    case SchedulerStops(p) => s.(schedulers := s.schedulers - {p})
  }

  // ---- The invariant ----

  predicate NoDup(log: seq<TaskId>) {
    forall i, j :: 0 <= i < j < |log| ==> log[i] != log[j]
  }

  ghost predicate WorkerOk(s: System, w: Pid)
    requires w in s.workers
  {
    var t := s.workers[w].task;
    && t in s.db.queue
    && (if s.workers[w].Selected? then !s.db.queue[t].locked else t in s.claims)
    && (s.workers[w].Claimed? ==> t !in s.runs)
    && (s.workers[w].Running? ==> t in s.runs && t !in s.ended)
    && (s.workers[w].Ran? ==> t in s.ended && s.ended[t] == s.workers[w].outcome)
  }

  ghost predicate WorkersInv(s: System) {
    && NoDup(s.claims) && NoDup(s.runs)
    && (forall t <- s.claims :: t in s.db.queue && s.db.queue[t].locked)
    && (forall t <- s.runs :: t in s.claims)
    && (forall t <- s.ended :: t in s.runs)
    && (forall w <- s.workers :: WorkerOk(s, w))
    && (forall v, w :: v in s.workers && w in s.workers && v != w ==> s.workers[v].task != s.workers[w].task)
  }

  ghost predicate SchedulerOk(db: Db, a: Scheduler) {
    match a
    case Choosing(rows) => forall r <- rows :: IsDue(db, r)
    case Holding(todo, posting) =>
      && (forall r <- todo ::
            && r in db.schedule && db.schedule[r] == todo[r]
            && todo[r].locked && todo[r].due.Some? && todo[r].due.value <= db.now)
      && (posting.Some? ==>
            && posting.value.row in todo && todo[posting.value.row] == posting.value.copy
            && posting.value.copy.cron.Some?
            && IsNext(posting.value.copy.cron.value, posting.value.seen, posting.value.next))
  }

  /** No schedule row is with two schedulers. */
  ghost predicate Apart(s: System) {
    forall p, q :: p in s.schedulers && q in s.schedulers && p != q ==>
      forall r <- Rows(s.schedulers[p]) :: r !in Rows(s.schedulers[q])
  }

  ghost predicate SchedulersInv(s: System) {
    && (forall p <- s.schedulers :: SchedulerOk(s.db, s.schedulers[p]))
    && Apart(s)
  }

  /** A schedule row waits for a firing of its cron. */
  ghost predicate RowOk(db: Db, r: RowId)
    requires r in db.schedule
  {
    var row := db.schedule[r];
    r < db.nextRow && (row.cron.Some? && row.due.Some? ==> row.cron.value(row.due.value))
  }

  /** A queue row that was fired: for which past instant of which row, with that row's job. */
  ghost predicate FiredOk(db: Db, task: Task) {
    match task.origin
    case Direct => true
    case Fired(r, d) =>
      && r in db.schedule && db.schedule[r].job == task.job
      && db.schedule[r].cron.Some? && db.schedule[r].cron.value(d) && d <= db.now
  }

  ghost predicate TablesInv(db: Db) {
    && (forall r <- db.schedule :: RowOk(db, r))
    && (forall t <- db.queue :: FiredOk(db, db.queue[t]))
  }

  ghost predicate Inv(s: System) {
    WorkersInv(s) && SchedulersInv(s) && TablesInv(s.db)
  }

  // ---- Every step keeps it ----

  /** The tables say the same: only lock flags, statuses and the clock differ. */
  ghost predicate SameMeaning(db: Db, after: Db) {
    && db.now <= after.now && db.nextRow == after.nextRow
    && db.queue.Keys == after.queue.Keys && db.schedule.Keys == after.schedule.Keys
    && (forall t <- db.queue :: after.queue[t].origin == db.queue[t].origin && after.queue[t].job == db.queue[t].job)
    && (forall r <- db.schedule :: after.schedule[r].(locked := db.schedule[r].locked) == db.schedule[r])
  }

  lemma SameMeaningKeeps(db: Db, after: Db)
    requires TablesInv(db) && SameMeaning(db, after)
    ensures TablesInv(after)
  {
    forall r <- after.schedule
      ensures RowOk(after, r)
    {
      assert RowOk(db, r);
    }
    forall t <- after.queue
      ensures FiredOk(after, after.queue[t])
    {
      assert FiredOk(db, db.queue[t]);
    }
  }

  lemma PostKeepsTables(s: System, p: Pid, t: TaskId, posted: int)
    requires Inv(s) && Can(s, CommitPost(p, t, posted))
    ensures TablesInv(Take(s, CommitPost(p, t, posted)).db)
  {
    var db, after := s.db, Take(s, CommitPost(p, t, posted)).db;
    var posting := s.schedulers[p].posting.value;
    assert SchedulerOk(db, s.schedulers[p]) && RowOk(db, posting.row);
    forall r <- after.schedule
      ensures RowOk(after, r)
    {
      assert RowOk(db, r);
    }
    forall u <- after.queue
      ensures FiredOk(after, after.queue[u])
    {
      if u != t { assert FiredOk(db, db.queue[u]); }
    }
  }

  lemma RegisterKeepsTables(s: System, row: Schedule)
    requires Inv(s) && Can(s, Register(row))
    ensures TablesInv(Take(s, Register(row)).db)
  {
    var db, after := s.db, Take(s, Register(row)).db;
    assert db.nextRow in db.schedule ==> RowOk(db, db.nextRow);
    forall r <- after.schedule
      ensures RowOk(after, r)
    {
      if r != db.nextRow { assert RowOk(db, r); }
    }
    forall t <- after.queue
      ensures FiredOk(after, after.queue[t])
    {
      assert FiredOk(db, db.queue[t]);
    }
  }

  lemma EnqueueKeepsTables(s: System, t: TaskId, task: Task)
    requires Inv(s) && Can(s, Enqueue(t, task))
    ensures TablesInv(Take(s, Enqueue(t, task)).db)
  {
    var after := Take(s, Enqueue(t, task)).db;
    forall r <- after.schedule
      ensures RowOk(after, r)
    {
      assert RowOk(s.db, r);
    }
    forall u <- after.queue
      ensures FiredOk(after, after.queue[u])
    {
      if u != t { assert FiredOk(s.db, s.db.queue[u]); }
    }
  }

  predicate Adds(a: Step) {
    a.Register? || a.CommitPost? || a.Enqueue?
  }

  predicate OfWorker(a: Step) {
    a.SelectTask? || a.CommitClaim? || a.NoHandler? || a.StartHandler? || a.EndHandler? || a.MarkDone? || a.WorkerStops?
  }

  lemma OthersSayTheSame(s: System, a: Step)
    requires Inv(s) && Can(s, a) && !Adds(a)
    ensures SameMeaning(s.db, Take(s, a).db)
  {
    if OfWorker(a) { WorkersSayTheSame(s, a); }
  }

  lemma WorkersSayTheSame(s: System, a: Step)
    requires Inv(s) && Can(s, a) && OfWorker(a)
    ensures SameMeaning(s.db, Take(s, a).db)
  {
    if a.CommitClaim? {
      LockSaysTheSame(s.db, s.workers[a.w].task);
    } else if a.MarkDone? {
      MarkSaysTheSame(s.db, s.workers[a.w].task, StatusAfter(s.workers[a.w].outcome));
    } else {
      assert Take(s, a).db == s.db;
    }
  }

  lemma LockSaysTheSame(db: Db, t: TaskId)
    ensures SameMeaning(db, LockTask(db, t))
  {
  }

  lemma MarkSaysTheSame(db: Db, t: TaskId, status: Status)
    ensures SameMeaning(db, Mark(db, t, status))
  {
  }

  lemma TakeKeepsTables(s: System, a: Step)
    requires Inv(s) && Can(s, a)
    ensures TablesInv(Take(s, a).db)
  {
    if a.Register? {
      RegisterKeepsTables(s, a.row);
    } else if a.CommitPost? {
      PostKeepsTables(s, a.p, a.t, a.posted);
    } else if a.Enqueue? {
      EnqueueKeepsTables(s, a.t, a.task);
    } else {
      OthersSayTheSame(s, a);
      SameMeaningKeeps(s.db, Take(s, a).db);
    }
  }

  lemma WorkersUndisturbed(s: System, s': System)
    requires WorkersInv(s)
    requires s'.workers == s.workers && s'.claims == s.claims && s'.runs == s.runs && s'.ended == s.ended
    requires forall t <- s.db.queue :: t in s'.db.queue && s'.db.queue[t].locked == s.db.queue[t].locked
    ensures WorkersInv(s')
  {
    forall w <- s'.workers
      ensures WorkerOk(s', w)
    {
      assert WorkerOk(s, w);
    }
  }

  lemma CommitClaimKeepsWorkers(s: System, w: Pid)
    requires Inv(s) && Can(s, CommitClaim(w))
    ensures WorkersInv(Take(s, CommitClaim(w)))
  {
    var s' := Take(s, CommitClaim(w));
    assert WorkerOk(s, w);
    forall v <- s'.workers
      ensures WorkerOk(s', v)
    {
      assert WorkerOk(s, v);
    }
  }

  lemma HandlerKeepsWorkers(s: System, a: Step)
    requires Inv(s) && Can(s, a) && (a.StartHandler? || a.EndHandler?)
    ensures WorkersInv(Take(s, a))
  {
    var s' := Take(s, a);
    assert WorkerOk(s, a.w);
    forall w <- s'.workers
      ensures WorkerOk(s', w)
    {
      assert WorkerOk(s, w);
    }
  }

  lemma WorkerStepKeepsWorkers(s: System, a: Step)
    requires Inv(s) && Can(s, a) && OfWorker(a) && !a.CommitClaim? && !a.StartHandler? && !a.EndHandler?
    ensures WorkersInv(Take(s, a))
  {
    var s' := Take(s, a);
    forall w <- s'.workers
      ensures WorkerOk(s', w)
    {
      assert w in s.workers ==> WorkerOk(s, w);
    }
  }

  lemma TakeKeepsWorkers(s: System, a: Step)
    requires Inv(s) && Can(s, a)
    ensures WorkersInv(Take(s, a))
  {
    if a.CommitClaim? {
      CommitClaimKeepsWorkers(s, a.w);
    } else if a.StartHandler? || a.EndHandler? {
      HandlerKeepsWorkers(s, a);
    } else if OfWorker(a) {
      WorkerStepKeepsWorkers(s, a);
    } else {
      WorkersUndisturbed(s, Take(s, a));
    }
  }

  /** A schedule row changes only in the hands of the scheduler that steps. */
  lemma RowUntouched(s: System, a: Step, r: RowId)
    requires Inv(s) && Can(s, a) && r in s.db.schedule
    requires (a.CommitChoice? || a.CommitPost?) ==> r !in Rows(s.schedulers[a.p])
    ensures r in Take(s, a).db.schedule && Take(s, a).db.schedule[r] == s.db.schedule[r]
  {
    if a.CommitPost? { assert SchedulerOk(s.db, s.schedulers[a.p]); }
    if a.Register? { assert s.db.nextRow in s.db.schedule ==> RowOk(s.db, s.db.nextRow); }
  }

  lemma RowsAsBefore(db: Db, after: Db, q: Scheduler)
    requires SchedulerOk(db, q) && db.now <= after.now
    requires forall r <- Rows(q) :: r in db.schedule ==> r in after.schedule && after.schedule[r] == db.schedule[r]
    ensures SchedulerOk(after, q)
  {
  }

  lemma TimeGoesOn(s: System, a: Step)
    requires Can(s, a)
    ensures s.db.now <= Take(s, a).db.now
  {
  }

  /** A scheduler other than the one that steps keeps its rows as they were. */
  lemma OthersKeepRows(s: System, a: Step, q: Pid)
    requires Inv(s) && Can(s, a) && q in s.schedulers
    requires (a.CommitChoice? || a.CommitPost?) ==> a.p != q
    ensures SchedulerOk(Take(s, a).db, s.schedulers[q])
  {
    var after := Take(s, a).db;
    forall r <- Rows(s.schedulers[q]) | r in s.db.schedule
      ensures r in after.schedule && after.schedule[r] == s.db.schedule[r]
    {
      RowUntouched(s, a, r);
    }
    TimeGoesOn(s, a);
    RowsAsBefore(s.db, after, s.schedulers[q]);
  }

  predicate OfScheduler(a: Step) {
    || a.ChooseRows? || a.CommitChoice? || a.BadCron? || a.Prepare? || a.CommitPost? || a.AbortPost?
    || a.SchedulerStops?
  }

  lemma OnlyStepperMoves(s: System, a: Step, q: Pid)
    requires Can(s, a) && (OfScheduler(a) ==> q != a.p)
    ensures q in Take(s, a).schedulers <==> q in s.schedulers
    ensures q in s.schedulers ==> Take(s, a).schedulers[q] == s.schedulers[q]
  {
  }

  lemma ClaimKeepsRows(s: System, p: Pid)
    requires Inv(s) && Can(s, CommitChoice(p))
    ensures SchedulerOk(Take(s, CommitChoice(p)).db, Take(s, CommitChoice(p)).schedulers[p])
  {
    assert SchedulerOk(s.db, s.schedulers[p]);
  }

  lemma PostKeepsRows(s: System, p: Pid, t: TaskId, posted: int)
    requires Inv(s) && Can(s, CommitPost(p, t, posted))
    ensures SchedulerOk(Take(s, CommitPost(p, t, posted)).db, Take(s, CommitPost(p, t, posted)).schedulers[p])
  {
    assert SchedulerOk(s.db, s.schedulers[p]);
  }

  lemma StepperKeepsRows(s: System, a: Step)
    requires Inv(s) && Can(s, a) && OfScheduler(a) && a.p in Take(s, a).schedulers
    ensures SchedulerOk(Take(s, a).db, Take(s, a).schedulers[a.p])
  {
    if a.CommitChoice? {
      ClaimKeepsRows(s, a.p);
    } else if a.CommitPost? {
      PostKeepsRows(s, a.p, a.t, a.posted);
    } else {
      assert a.p in s.schedulers ==> SchedulerOk(s.db, s.schedulers[a.p]);
    }
  }

  lemma DueRowsAreFree(s: System)
    requires Inv(s)
    ensures forall q <- s.schedulers, r <- Rows(s.schedulers[q]) :: r !in DueRows(s.db, HeldRows(s))
  {
    forall q <- s.schedulers, r <- Rows(s.schedulers[q])
      ensures r !in DueRows(s.db, HeldRows(s))
    {
      assert SchedulerOk(s.db, s.schedulers[q]);
    }
  }

  lemma RowsStayApart(s: System, a: Step)
    requires Inv(s) && Can(s, a)
    ensures Apart(Take(s, a))
  {
    var s' := Take(s, a);
    if a.ChooseRows? {
      DueRowsAreFree(s);
    } else {
      RowsOnlyShrink(s, a);
    }
  }

  lemma RowsOnlyShrink(s: System, a: Step)
    requires Inv(s) && Can(s, a) && !a.ChooseRows?
    ensures forall p <- Take(s, a).schedulers ::
              p in s.schedulers && Rows(Take(s, a).schedulers[p]) <= Rows(s.schedulers[p])
  {
    var s' := Take(s, a);
    forall p <- s'.schedulers
      ensures p in s.schedulers && Rows(s'.schedulers[p]) <= Rows(s.schedulers[p])
    {
      if OfScheduler(a) && p == a.p { StepperShrinks(s, a); } else { OnlyStepperMoves(s, a, p); }
    }
  }

  lemma StepperShrinks(s: System, a: Step)
    requires Inv(s) && Can(s, a) && OfScheduler(a) && !a.ChooseRows? && a.p in Take(s, a).schedulers
    ensures a.p in s.schedulers && Rows(Take(s, a).schedulers[a.p]) <= Rows(s.schedulers[a.p])
  {
  }

  lemma TakeKeepsSchedulers(s: System, a: Step)
    requires Inv(s) && Can(s, a)
    ensures SchedulersInv(Take(s, a))
  {
    var s' := Take(s, a);
    RowsStayApart(s, a);
    forall p <- s'.schedulers
      ensures SchedulerOk(s'.db, s'.schedulers[p])
    {
      if OfScheduler(a) && a.p == p {
        StepperKeepsRows(s, a);
      } else {
        OnlyStepperMoves(s, a, p);
        OthersKeepRows(s, a, p);
      }
    }
  }

  lemma TakeKeepsInv(s: System, a: Step)
    requires Inv(s) && Can(s, a)
    ensures Inv(Take(s, a))
  {
    TakeKeepsTables(s, a);
    TakeKeepsWorkers(s, a);
    TakeKeepsSchedulers(s, a);
  }

  // ---- Whole runs ----

  ghost predicate Legal(s: System, steps: seq<Step>)
    decreases steps
  {
    steps != [] ==> Can(s, steps[0]) && Legal(Take(s, steps[0]), steps[1..])
  }

  ghost function Run(s: System, steps: seq<Step>): System
    requires Legal(s, steps)
    decreases steps
  {
    if steps == [] then s else Run(Take(s, steps[0]), steps[1..])
  }

  lemma {:induction false} RunKeepsInv(s: System, steps: seq<Step>)
    requires Inv(s) && Legal(s, steps)
    ensures Inv(Run(s, steps))
    decreases steps
  {
    if steps != [] {
      TakeKeepsInv(s, steps[0]);
      RunKeepsInv(Take(s, steps[0]), steps[1..]);
    }
  }

  lemma EmptyTablesStart(start: int)
    ensures Inv(Idle(start)) && Forward(Idle(start)) && StatusOk(Idle(start))
  {
  }

  function Idle(start: int): System {
    System(Db(start, map[], map[], 0), map[], map[], [], [], map[])
  }

  /** Claims in flight and claims committed: no task is with two workers, no row with two schedulers. */
  lemma ClaimsNeverOverlap(s: System, steps: seq<Step>, v: Pid, w: Pid)
    requires Inv(s) && Legal(s, steps) && v != w
    ensures var end := Run(s, steps);
            && (v in end.workers && w in end.workers ==> end.workers[v].task != end.workers[w].task)
            && (v in end.schedulers && w in end.schedulers ==>
                  forall r <- Rows(end.schedulers[v]) :: r !in Rows(end.schedulers[w]))
  {
    RunKeepsInv(s, steps);
  }

  // ---- The two clocks ----

  /**
   A post leaves the schedule row waiting for the first firing after the application's reading, and
   moves it strictly forward exactly when that reading is not behind the instant it posts for.
   */
  lemma PostMovesForwardIff(s: System, p: Pid, t: TaskId, posted: int, firing: int)
    requires Inv(s) && Can(s, CommitPost(p, t, posted))
    ensures var posting := s.schedulers[p].posting.value;
            var row, row' := s.db.schedule[posting.row], Take(s, CommitPost(p, t, posted)).db.schedule[posting.row];
            && row.cron.Some? && row.due.Some? && row.due.value <= s.db.now
            && ((row'.due.Some? ==> row.due.value < row'.due.value) <==> row.due.value <= posting.seen)
            && (firing > posting.seen && row.cron.value(firing) ==> row'.due.Some? && row'.due.value <= firing)
            && (row'.due.Some? ==> row'.due.value > posting.seen && row.cron.value(row'.due.value))
            && !row'.locked && row'.taskId == Some(t) && row'.completed == Some(posting.completed)
  {
    var posting := s.schedulers[p].posting.value;
    assert SchedulerOk(s.db, s.schedulers[p]) && RowOk(s.db, posting.row);
    NextMovesForwardIff(posting.copy.cron.value, posting.seen, posting.copy.due.value, posting.next);
  }

  /** A post whose reading of the clock is not behind the instant it posts for; any other step is timely. */
  ghost predicate Timely(s: System, a: Step)
    requires Can(s, a)
  {
    a.CommitPost? ==>
      var posting := s.schedulers[a.p].posting.value;
      posting.copy.due.value <= posting.seen
  }

  ghost predicate AllTimely(s: System, steps: seq<Step>)
    requires Legal(s, steps)
    decreases steps
  {
    steps != [] ==> Timely(s, steps[0]) && AllTimely(Take(s, steps[0]), steps[1..])
  }

  ghost predicate OneTaskPerFiring(db: Db) {
    forall t, u :: t in db.queue && u in db.queue && t != u && db.queue[t].origin.Fired? ==>
      db.queue[t].origin != db.queue[u].origin
  }

  /** Every row is past the instants posted for it, and those past the moment it was made. */
  ghost predicate PostsBehind(db: Db) {
    && (forall r <- db.schedule :: RowAhead(db.schedule[r]))
    && (forall t <- db.queue :: TaskBehind(db, db.queue[t]))
  }

  predicate RowAhead(row: Schedule) {
    row.cron.Some? && row.due.Some? ==> row.made < row.due.value
  }

  ghost predicate TaskBehind(db: Db, task: Task) {
    task.origin.Fired? && task.origin.row in db.schedule ==>
      var row := db.schedule[task.origin.row];
      row.made < task.origin.due && (row.due.Some? ==> task.origin.due < row.due.value)
  }

  /** What timely posts keep in addition. */
  ghost predicate Forward(s: System) {
    PostsBehind(s.db) && OneTaskPerFiring(s.db)
  }

  lemma TimelyPostKeepsForward(s: System, p: Pid, t: TaskId, posted: int)
    requires Inv(s) && Forward(s) && Can(s, CommitPost(p, t, posted)) && Timely(s, CommitPost(p, t, posted))
    ensures Forward(Take(s, CommitPost(p, t, posted)))
  {
    var s' := Take(s, CommitPost(p, t, posted));
    var db, after := s.db, s'.db;
    var posting := s.schedulers[p].posting.value;
    assert SchedulerOk(db, s.schedulers[p]) && RowAhead(db.schedule[posting.row]);
    forall r <- after.schedule
      ensures RowAhead(after.schedule[r])
    {
      assert RowAhead(db.schedule[r]);
    }
    forall u <- after.queue
      ensures TaskBehind(after, after.queue[u])
    {
      if u != t { assert TaskBehind(db, db.queue[u]) && FiredOk(db, db.queue[u]); }
    }
    forall u <- db.queue
      ensures db.queue[u].origin != after.queue[t].origin
    {
      assert TaskBehind(db, db.queue[u]);
    }
  }

  lemma RegisterKeepsForward(s: System, row: Schedule)
    requires Inv(s) && Forward(s) && Can(s, Register(row))
    ensures Forward(Take(s, Register(row)))
  {
    var db, after := s.db, Take(s, Register(row)).db;
    assert db.nextRow in db.schedule ==> RowOk(db, db.nextRow);
    forall r <- after.schedule
      ensures RowAhead(after.schedule[r])
    {
      if r != db.nextRow { assert RowAhead(db.schedule[r]); }
    }
    forall t <- after.queue
      ensures TaskBehind(after, after.queue[t])
    {
      assert TaskBehind(db, db.queue[t]) && FiredOk(db, db.queue[t]);
    }
  }

  lemma EnqueueKeepsForward(s: System, t: TaskId, task: Task)
    requires Inv(s) && Forward(s) && Can(s, Enqueue(t, task))
    ensures Forward(Take(s, Enqueue(t, task)))
  {
    var after := Take(s, Enqueue(t, task)).db;
    forall u <- after.queue
      ensures TaskBehind(after, after.queue[u])
    {
      if u != t { assert TaskBehind(s.db, s.db.queue[u]); }
    }
  }

  lemma SameMeaningStaysBehind(db: Db, after: Db)
    requires PostsBehind(db) && OneTaskPerFiring(db) && SameMeaning(db, after)
    ensures PostsBehind(after) && OneTaskPerFiring(after)
  {
    forall r <- after.schedule
      ensures RowAhead(after.schedule[r])
    {
      assert RowAhead(db.schedule[r]);
    }
    forall t <- after.queue
      ensures TaskBehind(after, after.queue[t])
    {
      assert TaskBehind(db, db.queue[t]);
    }
  }

  lemma TakeKeepsForward(s: System, a: Step)
    requires Inv(s) && Forward(s) && Can(s, a) && Timely(s, a)
    ensures Forward(Take(s, a))
  {
    if a.CommitPost? {
      TimelyPostKeepsForward(s, a.p, a.t, a.posted);
    } else if a.Register? {
      RegisterKeepsForward(s, a.row);
    } else if a.Enqueue? {
      EnqueueKeepsForward(s, a.t, a.task);
    } else {
      OthersSayTheSame(s, a);
      SameMeaningStaysBehind(s.db, Take(s, a).db);
    }
  }

  lemma {:induction false} RunKeepsForward(s: System, steps: seq<Step>)
    requires Inv(s) && Forward(s) && Legal(s, steps) && AllTimely(s, steps)
    ensures Forward(Run(s, steps))
    decreases steps
  {
    if steps != [] {
      TakeKeepsInv(s, steps[0]);
      TakeKeepsForward(s, steps[0]);
      RunKeepsForward(Take(s, steps[0]), steps[1..]);
    }
  }

  // ---- End to end ----

  /** No task is claimed or run twice, and each fired one has its row's job and a past firing of its cron. */
  ghost predicate RunsOnce(s: System) {
    && NoDup(s.claims) && NoDup(s.runs)
    && (forall t <- s.runs :: t in s.db.queue)
    && (forall t <- s.db.queue :: FiredOk(s.db, s.db.queue[t]))
  }

  /** Each queue row that was fired, and each handler run, is the only one for its firing. */
  ghost predicate AtMostOnce(s: System)
    requires RunsOnce(s)
  {
    && OneTaskPerFiring(s.db)
    && (forall i, j :: 0 <= i < j < |s.runs| && s.db.queue[s.runs[i]].origin.Fired? ==>
          s.db.queue[s.runs[i]].origin != s.db.queue[s.runs[j]].origin)
  }

  // ---- What an untimely post leads to ----

  /** Whatever runs with timely posts follow, no firing gets a second queue row. */
  ghost predicate Safe(s: System) {
    forall steps :: Legal(s, steps) && AllTimely(s, steps) ==> OneTaskPerFiring(Run(s, steps).db)
  }

  lemma UnsafeBefore(s: System, a: Step)
    requires Can(s, a) && Timely(s, a) && !Safe(Take(s, a))
    ensures !Safe(s)
  {
    var s' := Take(s, a);
    var rest :| Legal(s', rest) && AllTimely(s', rest) && !OneTaskPerFiring(Run(s', rest).db);
    var steps := [a] + rest;
    assert steps[1..] == rest;
    assert Legal(s, steps) && AllTimely(s, steps) && Run(s, steps) == Run(s', rest);
  }

  lemma TwoTasksAreUnsafe(s: System)
    requires !OneTaskPerFiring(s.db)
    ensures !Safe(s)
  {
    assert Legal(s, []) && AllTimely(s, []) && Run(s, []) == s;
  }

  lemma {:induction false} LeastFiring(cron: Cron, after: int, firing: int) returns (next: int)
    requires after < firing && cron(firing)
    ensures IsNext(cron, after, Some(next))
    decreases firing - after
  {
    next := firing;
    if v :| after < v < firing && cron(v) {
      next := LeastFiring(cron, after, v);
    }
  }

  lemma NextExists(cron: Cron, after: int) returns (next: Option<int>)
    ensures IsNext(cron, after, next)
  {
    next := None;
    if u :| after < u && cron(u) {
      var least := LeastFiring(cron, after, u);
      next := Some(least);
    }
  }

  lemma {:induction false} Unused(used: set<nat>) returns (bound: nat)
    ensures forall x <- used :: x < bound
    decreases used
  {
    bound := 0;
    if x :| x in used {
      var rest := Unused(used - {x});
      bound := if rest <= x then x + 1 else rest;
      assert used == used - {x} + {x};
    }
  }

  /** A row that is due at `e`, free, and in no scheduler's hands. */
  ghost predicate Waiting(s: System, r: RowId, e: int) {
    && r in s.db.schedule && !s.db.schedule[r].locked && s.db.schedule[r].cron.Some?
    && s.db.schedule[r].due == Some(e) && e <= s.db.now
    && forall p <- s.schedulers :: r !in Rows(s.schedulers[p])
  }

  /** That row, claimed by scheduler `q` and taken from its list or not yet. */
  ghost predicate InHands(s: System, q: Pid, r: RowId, e: int) {
    && q in s.schedulers && s.schedulers[q].Holding? && s.schedulers[q].posting == None
    && r in s.schedulers[q].todo && r in s.db.schedule && s.schedulers[q].todo[r] == s.db.schedule[r]
    && s.db.schedule[r].cron.Some? && s.db.schedule[r].due == Some(e)
  }

  /** What the steps of scheduler `q` leave alone. */
  ghost predicate OnlySteps(s: System, s': System, q: Pid) {
    s'.schedulers - {q} == s.schedulers - {q} && s'.db.now == s.db.now
  }

  lemma ChooseTakes(s: System, q: Pid, r: RowId, e: int)
    requires Waiting(s, r, e) && q !in s.schedulers
    ensures var s' := Take(s, ChooseRows(q));
            && OnlySteps(s, s', q) && s'.db == s.db && q in s'.schedulers
            && s'.schedulers[q].Choosing? && r in s'.schedulers[q].rows
  {
    assert r !in HeldRows(s);
  }

  lemma CommitTakes(s: System, q: Pid, r: RowId, e: int)
    requires q in s.schedulers && s.schedulers[q].Choosing? && r in s.schedulers[q].rows && r in s.db.schedule
    requires s.db.schedule[r].cron.Some? && s.db.schedule[r].due == Some(e)
    ensures var s' := Take(s, CommitChoice(q));
            && OnlySteps(s, s', q) && InHands(s', q, r, e) && s'.db.queue == s.db.queue
            && s'.db.schedule[r].cron == s.db.schedule[r].cron
  {
  }

  /** A scheduler that was between rounds can claim a waiting row; nothing else changes for it. */
  lemma RowIsClaimed(s: System, q: Pid, r: RowId, e: int) returns (s': System)
    requires Waiting(s, r, e) && q !in s.schedulers
    ensures OnlySteps(s, s', q) && InHands(s', q, r, e) && s'.db.queue == s.db.queue
    ensures s'.db.schedule[r].cron == s.db.schedule[r].cron
    ensures !Safe(s') ==> !Safe(s)
  {
    ChooseTakes(s, q, r, e);
    var s1 := Take(s, ChooseRows(q));
    CommitTakes(s1, q, r, e);
    s' := Take(s1, CommitChoice(q));
    if !Safe(s') {
      UnsafeBefore(s1, CommitChoice(q));
      UnsafeBefore(s, ChooseRows(q));
    }
  }

  /** One more task for the instant, and the row free again and waiting for the next. */
  ghost predicate Fires(s: System, s': System, r: RowId, e: int, t: TaskId, next: Option<int>)
    requires r in s.db.schedule
  {
    && s'.db.queue.Keys == s.db.queue.Keys + {t} && s'.db.queue[t].origin == Fired(r, e)
    && (forall u <- s.db.queue :: s'.db.queue[u].origin == if u == t then Fired(r, e) else s.db.queue[u].origin)
    && r in s'.db.schedule && s'.db.schedule[r].cron == s.db.schedule[r].cron
    && !s'.db.schedule[r].locked && s'.db.schedule[r].due == next
  }

  lemma PostFires(s: System, q: Pid, t: TaskId, posted: int)
    requires Can(s, CommitPost(q, t, posted)) && s.schedulers[q].posting.value.row in s.db.schedule
    ensures var s', posting := Take(s, CommitPost(q, t, posted)), s.schedulers[q].posting.value;
            && OnlySteps(s, s', q) && q in s'.schedulers
            && Fires(s, s', posting.row, posting.copy.due.value, t, posting.next)
  {
  }

  lemma RowIsPrepared(s: System, q: Pid, r: RowId, e: int, next: Option<int>)
    requires InHands(s, q, r, e) && IsNext(s.db.schedule[r].cron.value, e, next)
    ensures Can(s, Prepare(q, r, e, next, e))
    ensures var s' := Take(s, Prepare(q, r, e, next, e));
            && OnlySteps(s, s', q) && s'.db == s.db && InPost(s', q)
            && s'.schedulers[q].posting == Some(Posting(r, s.db.schedule[r], e, next, e))
  {
  }

  /** The scheduler posts it at the very instant at which it was due, and ends its round. */
  lemma RowIsPosted(s: System, q: Pid, r: RowId, e: int, t: TaskId, next: Option<int>) returns (s': System)
    requires InHands(s, q, r, e) && IsNext(s.db.schedule[r].cron.value, e, next) && t !in s.db.queue
    ensures OnlySteps(s, s', q) && q !in s'.schedulers && Fires(s, s', r, e, t, next)
    ensures !Safe(s') ==> !Safe(s)
  {
    RowIsPrepared(s, q, r, e, next);
    var s1 := Take(s, Prepare(q, r, e, next, e));
    s' := PostingIsCommitted(s1, q, t);
    if !Safe(s') { UnsafeBefore(s, Prepare(q, r, e, next, e)); }
  }

  lemma PostingIsCommitted(s: System, q: Pid, t: TaskId) returns (s': System)
    requires Can(s, CommitPost(q, t, 0)) && Timely(s, CommitPost(q, t, 0))
    requires s.schedulers[q].posting.value.row in s.db.schedule
    ensures var posting := s.schedulers[q].posting.value;
            OnlySteps(s, s', q) && q !in s'.schedulers
            && Fires(s, s', posting.row, posting.copy.due.value, t, posting.next)
    ensures !Safe(s') ==> !Safe(s)
  {
    PostFires(s, q, t, 0);
    var s1 := Take(s, CommitPost(q, t, 0));
    s' := Take(s1, SchedulerStops(q));
    if !Safe(s') {
      UnsafeBefore(s1, SchedulerStops(q));
      UnsafeBefore(s, CommitPost(q, t, 0));
    }
  }

  /** A row due at or before an instant already posted for has that instant posted again. */
  lemma {:induction false} RowRepeats(s: System, r: RowId, e: int, d: int, t: TaskId)
    requires Waiting(s, r, e) && e <= d <= s.db.now && s.db.schedule[r].cron.value(d)
    requires t in s.db.queue && s.db.queue[t].origin == Fired(r, d)
    ensures !Safe(s)
    decreases d - e
  {
    var q := Unused(s.schedulers.Keys);
    var u := Unused(s.db.queue.Keys);
    var next := NextExists(s.db.schedule[r].cron.value, e);
    var s1 := RowIsClaimed(s, q, r, e);
    var s2 := RowIsPosted(s1, q, r, e, u, next);
    if e == d {
      assert s2.db.queue[u].origin == s2.db.queue[t].origin;
      TwoTasksAreUnsafe(s2);
    } else {
      assert s2.schedulers == s2.schedulers - {q} == s.schedulers - {q} == s.schedulers;
      RowRepeats(s2, r, next.value, d, t);
    }
  }

  /** An untimely post leaves its row free and due again, at or before the instant it was posted for. */
  lemma UntimelyPostWaits(s: System, p: Pid, t: TaskId, posted: int)
    requires Inv(s) && Can(s, CommitPost(p, t, posted)) && !Timely(s, CommitPost(p, t, posted))
    ensures var posting := s.schedulers[p].posting.value;
            var s', d := Take(s, CommitPost(p, t, posted)), posting.copy.due.value;
            && posting.next.Some? && posting.next.value <= d <= s'.db.now
            && Waiting(s', posting.row, posting.next.value) && s'.db.schedule[posting.row].cron.value(d)
            && t in s'.db.queue && s'.db.queue[t].origin == Fired(posting.row, d)
  {
    var posting := s.schedulers[p].posting.value;
    var s' := Take(s, CommitPost(p, t, posted));
    assert SchedulerOk(s.db, s.schedulers[p]) && RowOk(s.db, posting.row);
    forall q <- s'.schedulers
      ensures posting.row !in Rows(s'.schedulers[q])
    {
      assert posting.row in Rows(s.schedulers[p]);
    }
  }

  /**
   The post that repeats a firing: after a post, every continuation with timely posts gives each
   firing at most one queue row if and only if the post itself was timely. After an untimely one a
   scheduler with a right clock is enough to post the same instant again.
   */
  lemma PostIsSafeIffTimely(s: System, p: Pid, t: TaskId, posted: int)
    requires Inv(s) && Forward(s) && Can(s, CommitPost(p, t, posted))
    ensures Safe(Take(s, CommitPost(p, t, posted))) <==> Timely(s, CommitPost(p, t, posted))
  {
    if Timely(s, CommitPost(p, t, posted)) {
      TimelyPostKeepsForward(s, p, t, posted);
      TakeKeepsInv(s, CommitPost(p, t, posted));
      ForwardIsSafe(Take(s, CommitPost(p, t, posted)));
    } else {
      UntimelyPostRepeats(s, p, t, posted);
    }
  }

  /** That half needs nothing of what was posted before. */
  lemma UntimelyPostRepeats(s: System, p: Pid, t: TaskId, posted: int)
    requires Inv(s) && Can(s, CommitPost(p, t, posted)) && !Timely(s, CommitPost(p, t, posted))
    ensures !Safe(Take(s, CommitPost(p, t, posted)))
  {
    UntimelyPostWaits(s, p, t, posted);
    var posting := s.schedulers[p].posting.value;
    RowRepeats(Take(s, CommitPost(p, t, posted)), posting.row, posting.next.value, posting.copy.due.value, t);
  }

  lemma ForwardIsSafe(s: System)
    requires Inv(s) && Forward(s)
    ensures Safe(s)
  {
    forall steps | Legal(s, steps) && AllTimely(s, steps)
      ensures OneTaskPerFiring(Run(s, steps).db)
    {
      RunKeepsForward(s, steps);
    }
  }

  /** Safe now and after each of the steps. */
  ghost predicate StaysSafe(s: System, steps: seq<Step>)
    requires Legal(s, steps)
    decreases steps
  {
    Safe(s) && (steps != [] ==> StaysSafe(Take(s, steps[0]), steps[1..]))
  }

  lemma {:induction false} SafeIffTimely(s: System, steps: seq<Step>)
    requires Inv(s) && Forward(s) && Legal(s, steps)
    ensures StaysSafe(s, steps) <==> AllTimely(s, steps)
    decreases steps
  {
    ForwardIsSafe(s);
    if steps != [] {
      var s' := Take(s, steps[0]);
      TakeKeepsInv(s, steps[0]);
      if Timely(s, steps[0]) {
        TakeKeepsForward(s, steps[0]);
        SafeIffTimely(s', steps[1..]);
      } else {
        UntimelyPostRepeats(s, steps[0].p, steps[0].t, steps[0].posted);
      }
    }
  }

  /**
   End to end, over every interleaving and every crash: whatever the clocks do, no task is claimed
   or run twice; with timely posts each pair of schedule row and due instant gives at most one queue
   row and at most one handler run; and one untimely post in the run is enough for a continuation
   with timely posts alone to break that.
   */
  lemma EndToEnd(s: System, steps: seq<Step>)
    requires Inv(s) && Forward(s) && Legal(s, steps)
    ensures RunsOnce(Run(s, steps))
    ensures AllTimely(s, steps) ==> AtMostOnce(Run(s, steps))
    ensures AllTimely(s, steps) <==> StaysSafe(s, steps)
  {
    RunKeepsInv(s, steps);
    if AllTimely(s, steps) {
      RunKeepsForward(s, steps);
    }
    SafeIffTimely(s, steps);
  }

  /** A cron that fires at 10 and at 20. */
  function TenAndTwenty(): Cron {
    d => d == 10 || d == 20
  }

  function LaggingRow(): Schedule {
    Schedule(Job("f", "{}"), Some(TenAndTwenty()), 0, Some(10), None, None, false)
  }

  /** One round of a scheduler whose clock shows 9 while the database's shows 10. */
  function LaggingRound(t: TaskId): seq<Step> {
    [ChooseRows(0), CommitChoice(0)] + LaggingPostSteps(t)
  }

  /** The table in which the row is due, with the tasks posted so far. */
  ghost predicate DueAgain(s: System, posted: set<TaskId>) {
    && s.db.now == 10 && s.schedulers == map[]
    && 0 in s.db.schedule && !s.db.schedule[0].locked && s.db.schedule[0].due == Some(10)
    && s.db.schedule[0].cron == Some(TenAndTwenty())
    && s.db.schedule.Keys == {0} && s.db.queue.Keys == posted
    && forall t <- posted :: s.db.queue[t].origin == Fired(0, 10)
  }

  lemma TwoSteps(s: System, a: Step, b: Step, rest: seq<Step>)
    requires Can(s, a) && Can(Take(s, a), b) && Legal(Take(Take(s, a), b), rest)
    ensures Legal(s, [a, b] + rest) && Run(s, [a, b] + rest) == Run(Take(Take(s, a), b), rest)
  {
    assert ([a, b] + rest)[1..] == [b] + rest;
    assert ([b] + rest)[1..] == rest;
    assert Legal(Take(s, a), [b] + rest);
  }

  lemma LaggingClaim(s: System, posted: set<TaskId>)
    requires DueAgain(s, posted)
    ensures Can(s, ChooseRows(0)) && Can(Take(s, ChooseRows(0)), CommitChoice(0))
    ensures var s2, row := Take(Take(s, ChooseRows(0)), CommitChoice(0)), s.db.schedule[0].(locked := true);
            && s2.schedulers == map[0 := Holding(map[0 := row], None)]
            && s2.db.schedule == map[0 := row]
            && s2.db.queue == s.db.queue && s2.db.now == s.db.now
  {
    assert HeldRows(s) == {};
    assert DueRows(s.db, {}) == {0};
    var s1 := Take(s, ChooseRows(0));
    assert s1 == s.(schedulers := map[0 := Choosing({0})]);
    var db, row := LockRows(s.db, {0}), s.db.schedule[0].(locked := true);
    assert db.schedule == map[0 := row];
    assert (map r | r in {0} && r in db.schedule :: db.schedule[r]) == map[0 := row];
    var s2 := Take(s1, CommitChoice(0));
    assert s2.schedulers[0] == Holding(map[0 := row], None) && s2.schedulers.Keys == {0};
  }

  lemma LaggingPost(s: System, posted: set<TaskId>, row: Schedule, t: TaskId)
    requires s.schedulers == map[0 := Holding(map[0 := row], None)] && s.db.schedule == map[0 := row]
    requires row.due == Some(10) && row.cron == Some(TenAndTwenty())
    requires s.db.now == 10 && s.db.queue.Keys == posted && t !in posted
    requires forall u <- posted :: s.db.queue[u].origin == Fired(0, 10)
    ensures Can(s, Prepare(0, 0, 9, Some(10), 9)) && Can(Take(s, Prepare(0, 0, 9, Some(10), 9)), CommitPost(0, t, 9))
    ensures var s4 := Take(Take(s, Prepare(0, 0, 9, Some(10), 9)), CommitPost(0, t, 9));
            Can(s4, SchedulerStops(0)) && DueAgain(Take(s4, SchedulerStops(0)), posted + {t})
  {
    assert IsNext(TenAndTwenty(), 9, Some(10));
    var s3 := Take(s, Prepare(0, 0, 9, Some(10), 9));
    var posting := Posting(0, row, 9, Some(10), 9);
    assert s3 == s.(schedulers := map[0 := Holding(map[0 := row], Some(posting))]);
    LaggingCommit(s3, posted, posting, t);
  }

  lemma LaggingCommit(s: System, posted: set<TaskId>, posting: Posting, t: TaskId)
    requires posting == Posting(0, posting.copy, 9, Some(10), 9)
    requires s.schedulers == map[0 := Holding(map[0 := posting.copy], Some(posting))]
    requires s.db.schedule == map[0 := posting.copy]
    requires posting.copy.due == Some(10) && posting.copy.cron == Some(TenAndTwenty())
    requires s.db.now == 10 && s.db.queue.Keys == posted && t !in posted
    requires forall u <- posted :: s.db.queue[u].origin == Fired(0, 10)
    ensures Can(s, CommitPost(0, t, 9)) && Can(Take(s, CommitPost(0, t, 9)), SchedulerStops(0))
    ensures DueAgain(Take(Take(s, CommitPost(0, t, 9)), SchedulerStops(0)), posted + {t})
  {
    OnlySchedulerPosts(s, posting, t);
    OnlySchedulerStops(Take(s, CommitPost(0, t, 9)));
    LaggingTables(s.db, posted, posting.copy, t);
  }

  lemma OnlySchedulerPosts(s: System, posting: Posting, t: TaskId)
    requires s.schedulers == map[0 := Holding(map[0 := posting.copy], Some(posting))]
    requires posting == Posting(0, posting.copy, 9, Some(10), 9) && posting.copy.due.Some? && t !in s.db.queue
    ensures var after := Take(s, CommitPost(0, t, 9));
            after.db == Post(s.db, t, 9, 0, posting.copy, Some(10), 9) && after.schedulers.Keys == {0}
  {
  }

  lemma OnlySchedulerStops(s: System)
    requires s.schedulers.Keys == {0}
    ensures Take(s, SchedulerStops(0)).db == s.db && Take(s, SchedulerStops(0)).schedulers == map[]
  {
  }

  lemma LaggingTables(db: Db, posted: set<TaskId>, row: Schedule, t: TaskId)
    requires db.schedule == map[0 := row] && row.due == Some(10)
    requires db.queue.Keys == posted && forall u <- posted :: db.queue[u].origin == Fired(0, 10)
    ensures var after := Post(db, t, 9, 0, row, Some(10), 9);
            && after.now == db.now && after.schedule.Keys == {0}
            && !after.schedule[0].locked && after.schedule[0].due == Some(10) && after.schedule[0].cron == row.cron
            && after.queue.Keys == posted + {t} && forall u <- posted + {t} :: after.queue[u].origin == Fired(0, 10)
  {
  }

  lemma LaggingRoundPostsAgain(s: System, posted: set<TaskId>, t: TaskId)
    requires DueAgain(s, posted) && t !in posted
    ensures Legal(s, LaggingRound(t)) && DueAgain(Run(s, LaggingRound(t)), posted + {t})
  {
    LaggingClaim(s, posted);
    var s2 := Take(Take(s, ChooseRows(0)), CommitChoice(0));
    LaggingPost(s2, posted, s.db.schedule[0].(locked := true), t);
    var rest := LaggingPostSteps(t);
    LaggingPostRuns(s2, t);
    TwoSteps(s, ChooseRows(0), CommitChoice(0), rest);
  }

  function LaggingPostSteps(t: TaskId): seq<Step> {
    [Prepare(0, 0, 9, Some(10), 9), CommitPost(0, t, 9)] + [SchedulerStops(0)]
  }

  lemma LaggingPostRuns(s: System, t: TaskId)
    requires Can(s, Prepare(0, 0, 9, Some(10), 9)) && Can(Take(s, Prepare(0, 0, 9, Some(10), 9)), CommitPost(0, t, 9))
    requires Can(Take(Take(s, Prepare(0, 0, 9, Some(10), 9)), CommitPost(0, t, 9)), SchedulerStops(0))
    ensures Legal(s, LaggingPostSteps(t))
    ensures Run(s, LaggingPostSteps(t))
            == Take(Take(Take(s, Prepare(0, 0, 9, Some(10), 9)), CommitPost(0, t, 9)), SchedulerStops(0))
  {
    var stop := [SchedulerStops(0)];
    assert stop[1..] == [];
    TwoSteps(s, Prepare(0, 0, 9, Some(10), 9), CommitPost(0, t, 9), stop);
  }

  /** Without timely readings it fails: a scheduler one unit behind posts the same firing twice. */
  lemma LaggingClockPostsTwice(s: System)
    requires DueAgain(s, {})
    ensures var first := LaggingRound(1);
            Legal(s, first) && Legal(Run(s, first), LaggingRound(2))
            && !OneTaskPerFiring(Run(Run(s, first), LaggingRound(2)).db)
  {
    LaggingRoundPostsAgain(s, {}, 1);
    var once := Run(s, LaggingRound(1));
    assert {} + {1} == {1};
    LaggingRoundPostsAgain(once, {1}, 2);
    var twice := Run(once, LaggingRound(2)).db;
    assert twice.queue.Keys == {1} + {2};
    assert 1 in twice.queue.Keys && 2 in twice.queue.Keys;
  }

  /** That state is one a run reaches: the row is registered and its first instant comes. */
  lemma LaggingStart()
    ensures var steps := [Register(LaggingRow()), Tick(10)];
            Legal(Idle(0), steps) && DueAgain(Run(Idle(0), steps), {})
  {
    var steps := [Register(LaggingRow()), Tick(10)];
    assert IsNext(TenAndTwenty(), 0, Some(10));
    var s1 := Take(Idle(0), steps[0]);
    assert steps[1..] == [Tick(10)] && [Tick(10)][1..] == [];
    assert Legal(s1, [Tick(10)]) && Run(s1, [Tick(10)]) == Take(s1, Tick(10));
  }

  // ---- How often a row fires ----

  ghost function PostedFor(db: Db, r: RowId): set<TaskId> {
    set t | t in db.queue && db.queue[t].origin.Fired? && db.queue[t].origin.row == r
  }

  ghost function DueOf(db: Db, r: RowId): Option<int> {
    if r in db.schedule then db.schedule[r].due else None
  }

  /** Whether a step moves an existing row strictly forward from a due instant. */
  ghost predicate Advances(s: System, a: Step, r: RowId)
    requires Can(s, a)
  {
    var due, due' := DueOf(s.db, r), DueOf(Take(s, a).db, r);
    due.Some? && (due' == None || due.value < due'.value)
  }

  ghost predicate Posts(s: System, a: Step, r: RowId)
    requires Can(s, a)
  {
    a.CommitPost? && s.schedulers[a.p].posting.value.row == r
  }

  ghost function AdvanceCount(s: System, steps: seq<Step>, r: RowId): nat
    requires Legal(s, steps)
    decreases steps
  {
    if steps == [] then 0
    else
      (if Advances(s, steps[0], r) then 1 else 0) + AdvanceCount(Take(s, steps[0]), steps[1..], r)
  }

  lemma PostAdvances(s: System, p: Pid, t: TaskId, posted: int, r: RowId)
    requires Inv(s) && Can(s, CommitPost(p, t, posted))
    ensures var db, after := s.db, Take(s, CommitPost(p, t, posted)).db;
            var posting := s.schedulers[p].posting.value;
            if r == posting.row
            then r in db.schedule && db.schedule[r].due.Some?
                 && (Advances(s, CommitPost(p, t, posted), r) <==> db.schedule[r].due.value <= posting.seen)
                 && PostedFor(after, r) == PostedFor(db, r) + {t}
                 && after.queue[t].origin == Fired(r, db.schedule[r].due.value)
            else DueOf(after, r) == DueOf(db, r) && PostedFor(after, r) == PostedFor(db, r)
  {
    assert SchedulerOk(s.db, s.schedulers[p]);
    PostMovesForwardIff(s, p, t, posted, 0);
  }

  lemma NewRowsPostNothing(s: System, a: Step, r: RowId)
    requires Inv(s) && Can(s, a) && (a.Register? || a.Enqueue?)
    ensures PostedFor(Take(s, a).db, r) == PostedFor(s.db, r)
    ensures r in s.db.schedule ==> DueOf(Take(s, a).db, r) == DueOf(s.db, r)
  {
    assert r in s.db.schedule ==> RowOk(s.db, r);
  }

  lemma SameMeaningPostsNothing(db: Db, after: Db, r: RowId)
    requires SameMeaning(db, after)
    ensures PostedFor(after, r) == PostedFor(db, r) && DueOf(after, r) == DueOf(db, r)
  {
    assert r in db.schedule ==> after.schedule[r].(locked := db.schedule[r].locked) == db.schedule[r];
  }

  /**
   Insert and advance are one step: a post adds one task, for the instant at which the row was due,
   and advances the row exactly if its reading was timely; no other step adds tasks or advances.
   */
  lemma AdvancePosts(s: System, a: Step, r: RowId)
    requires Inv(s) && Can(s, a)
    ensures var db, after := s.db, Take(s, a).db;
            if Posts(s, a, r)
            then a.t !in db.queue && PostedFor(after, r) == PostedFor(db, r) + {a.t}
                 && r in db.schedule && db.schedule[r].due.Some?
                 && after.queue[a.t].origin == Fired(r, db.schedule[r].due.value)
                 && (Advances(s, a, r) <==> db.schedule[r].due.value <= s.schedulers[a.p].posting.value.seen)
            else PostedFor(after, r) == PostedFor(db, r) && !Advances(s, a, r)
  {
    if a.CommitPost? {
      PostAdvances(s, a.p, a.t, a.posted, r);
    } else if Adds(a) {
      NewRowsPostNothing(s, a, r);
    } else {
      OthersSayTheSame(s, a);
      SameMeaningPostsNothing(s.db, Take(s, a).db, r);
    }
  }

  /** Every post for one row is timely. */
  ghost predicate TimelyFor(s: System, steps: seq<Step>, r: RowId)
    requires Legal(s, steps)
    decreases steps
  {
    steps != [] ==>
      && (Posts(s, steps[0], r) ==> Timely(s, steps[0]))
      && TimelyFor(Take(s, steps[0]), steps[1..], r)
  }

  /** Queue rows posted for a row are at least its advances, and exactly these if and only if its posts are timely. */
  lemma {:induction false} PostsMatchAdvances(s: System, steps: seq<Step>, r: RowId)
    requires Inv(s) && Legal(s, steps)
    ensures |PostedFor(Run(s, steps).db, r)| >= |PostedFor(s.db, r)| + AdvanceCount(s, steps, r)
    ensures |PostedFor(Run(s, steps).db, r)| == |PostedFor(s.db, r)| + AdvanceCount(s, steps, r)
            <==> TimelyFor(s, steps, r)
    decreases steps
  {
    if steps != [] {
      TakeKeepsInv(s, steps[0]);
      StepCounts(s, steps[0], r);
      PostsMatchAdvances(Take(s, steps[0]), steps[1..], r);
    }
  }

  lemma StepCounts(s: System, a: Step, r: RowId)
    requires Inv(s) && Can(s, a)
    ensures var gained := |PostedFor(Take(s, a).db, r)| - |PostedFor(s.db, r)|;
            && gained >= (if Advances(s, a, r) then 1 else 0)
            && (gained == (if Advances(s, a, r) then 1 else 0) <==> (Posts(s, a, r) ==> Timely(s, a)))
  {
    AdvancePosts(s, a, r);
    if Posts(s, a, r) {
      assert |PostedFor(s.db, r) + {a.t}| == |PostedFor(s.db, r)| + 1;
      assert SchedulerOk(s.db, s.schedulers[a.p]);
    }
  }

  /** A queue row keeps its origin for good. */
  lemma {:induction false} OriginStays(s: System, steps: seq<Step>, t: TaskId)
    requires Inv(s) && Legal(s, steps) && t in s.db.queue
    ensures t in Run(s, steps).db.queue && Run(s, steps).db.queue[t].origin == s.db.queue[t].origin
    decreases steps
  {
    if steps != [] {
      TakeKeepsInv(s, steps[0]);
      if !Adds(steps[0]) { OthersSayTheSame(s, steps[0]); }
      OriginStays(Take(s, steps[0]), steps[1..], t);
    }
  }

  /** With timely readings, the due instants posted for a row strictly increase in the order of their posts. */
  lemma {:induction false} LaterPostsAreLater(s: System, steps: seq<Step>, t: TaskId, u: TaskId)
    requires Inv(s) && Forward(s) && Legal(s, steps) && AllTimely(s, steps)
    requires t in s.db.queue && s.db.queue[t].origin.Fired?
    requires u !in s.db.queue && u in Run(s, steps).db.queue && Run(s, steps).db.queue[u].origin.Fired?
    requires Run(s, steps).db.queue[u].origin.row == s.db.queue[t].origin.row
    ensures s.db.queue[t].origin.due < Run(s, steps).db.queue[u].origin.due
    decreases steps
  {
    if steps != [] {
      var s1 := Take(s, steps[0]);
      TakeKeepsInv(s, steps[0]);
      TakeKeepsForward(s, steps[0]);
      OriginStays(s, [steps[0]], t) by { assert [steps[0]][1..] == []; }
      if u in s1.db.queue {
        OriginStays(s1, steps[1..], u);
        AdvancePosts(s, steps[0], s.db.queue[t].origin.row);
        assert FiredOk(s.db, s.db.queue[t]) && TaskBehind(s.db, s.db.queue[t]);
        assert u in PostedFor(s1.db, s.db.queue[t].origin.row);
      } else {
        LaterPostsAreLater(s1, steps[1..], t, u);
      }
    }
  }

  function Firings(cron: Cron, after: int, upTo: int): set<int> {
    set d | after < d <= upTo && cron(d)
  }

  function PostedUpTo(db: Db, r: RowId, upTo: int): set<TaskId> {
    set t | t in db.queue && db.queue[t].origin.Fired? && db.queue[t].origin.row == r && db.queue[t].origin.due <= upTo
  }

  lemma {:induction false} InjectionCounts(db: Db, tasks: set<TaskId>, instants: set<int>)
    requires forall t <- tasks :: t in db.queue && db.queue[t].origin.Fired? && db.queue[t].origin.due in instants
    requires forall t, u :: t in tasks && u in tasks && t != u ==> db.queue[t].origin.due != db.queue[u].origin.due
    ensures |tasks| <= |instants|
    decreases tasks
  {
    if tasks != {} {
      var t :| t in tasks;
      var d := db.queue[t].origin.due;
      InjectionCounts(db, tasks - {t}, instants - {d});
      assert |instants - {d}| == |instants| - 1;
    }
  }

  /**
   After any run with timely readings, the posts for a row up to an instant never exceed the firings
   of its cron up to it.
   */
  lemma PostsNeverExceedFirings(s: System, steps: seq<Step>, r: RowId, upTo: int)
    requires Inv(s) && Forward(s) && Legal(s, steps) && AllTimely(s, steps) && r in Run(s, steps).db.schedule
    ensures var db := Run(s, steps).db;
            if db.schedule[r].cron.Some?
            then |PostedUpTo(db, r, upTo)| <= |Firings(db.schedule[r].cron.value, db.schedule[r].made, upTo)|
            else PostedUpTo(db, r, upTo) == {}
  {
    RunKeepsInv(s, steps);
    RunKeepsForward(s, steps);
    var db := Run(s, steps).db;
    var row := db.schedule[r];
    assert forall t <- PostedUpTo(db, r, upTo) :: FiredOk(db, db.queue[t]) && TaskBehind(db, db.queue[t]);
    if row.cron.Some? {
      InjectionCounts(db, PostedUpTo(db, r, upTo), Firings(row.cron.value, row.made, upTo));
    }
  }

  // ---- What a status tells ----

  /** A fired task is pending until its handler has ended and its worker has marked how. */
  ghost predicate StatusOk(s: System) {
    forall t <- s.db.queue :: s.db.queue[t].origin.Fired? ==>
      if s.db.queue[t].status == Pending then s.db.queue[t].finished == None
      else t in s.ended && s.db.queue[t].status == StatusAfter(s.ended[t]) && s.db.queue[t].finished.Some?
  }

  lemma TakeKeepsStatus(s: System, a: Step)
    requires Inv(s) && StatusOk(s) && Can(s, a)
    ensures StatusOk(Take(s, a))
  {
    if OfWorker(a) {
      WorkerStepKeepsStatus(s, a);
    } else if Adds(a) {
    } else {
      OthersSayTheSame(s, a);
    }
  }

  lemma WorkerStepKeepsStatus(s: System, a: Step)
    requires Inv(s) && StatusOk(s) && Can(s, a) && OfWorker(a)
    ensures StatusOk(Take(s, a))
  {
    if a.MarkDone? || a.CommitClaim? || a.EndHandler? { assert WorkerOk(s, a.w); }
  }

  lemma {:induction false} RunKeepsStatus(s: System, steps: seq<Step>)
    requires Inv(s) && StatusOk(s) && Legal(s, steps)
    ensures StatusOk(Run(s, steps))
    decreases steps
  {
    if steps != [] {
      TakeKeepsInv(s, steps[0]);
      TakeKeepsStatus(s, steps[0]);
      RunKeepsStatus(Take(s, steps[0]), steps[1..]);
    }
  }

  /**
   Over every run: a fired task that is marked did run and stays locked; it is exited exactly if its
   handler panicked, and completed when the handler answered, an Err included.
   */
  lemma MarkedTasksRan(s: System, steps: seq<Step>, t: TaskId)
    requires Inv(s) && StatusOk(s) && Legal(s, steps)
    requires t in Run(s, steps).db.queue && Run(s, steps).db.queue[t].origin.Fired?
    requires Run(s, steps).db.queue[t].status != Pending
    ensures var end := Run(s, steps);
            && t in end.runs && t in end.ended && end.db.queue[t].locked
            && (end.db.queue[t].status == Exited <==> end.ended[t] == Panicked)
            && (end.db.queue[t].status == Completed <==> end.ended[t] == Succeeded || end.ended[t] == Failed)
  {
    RunKeepsInv(s, steps);
    RunKeepsStatus(s, steps);
  }

  // ---- A worker's round ----

  /** A worker between rounds can claim a task exactly if it is unlocked, unheld, and the oldest such. */
  lemma ClaimsOldestIff(s: System, w: Pid, t: TaskId)
    requires w !in s.workers
    ensures Can(s, SelectTask(w, t))
            <==> && t in s.db.queue && !s.db.queue[t].locked
                 && (forall v <- s.workers :: s.workers[v] != Selected(t))
                 && forall u <- s.db.queue ::
                      !s.db.queue[u].locked && (forall v <- s.workers :: s.workers[v] != Selected(u)) ==>
                        s.db.queue[t].posted <= s.db.queue[u].posted
  {
    forall u: TaskId
      ensures u in HeldTasks(s) <==> exists v <- s.workers :: s.workers[v] == Selected(u)
    {
    }
  }

  /** A scheduler between rounds takes exactly the unlocked rows that are due and in no claim in flight. */
  lemma ChoosesDueRows(s: System, p: Pid, r: RowId)
    requires p !in s.schedulers
    ensures var chosen := Take(s, ChooseRows(p)).schedulers[p];
            && chosen.Choosing?
            && (r in chosen.rows
                <==> && r in s.db.schedule && !s.db.schedule[r].locked
                     && s.db.schedule[r].due.Some? && s.db.schedule[r].due.value <= s.db.now
                     && forall q <- s.schedulers :: s.schedulers[q].Choosing? ==> r !in s.schedulers[q].rows)
  {
  }

  /** An enqueued task that is not locked and no younger than the free ones can be claimed. */
  lemma EnqueuedTaskWaits(s: System, t: TaskId, task: Task, w: Pid)
    requires Can(s, Enqueue(t, task)) && !task.locked && t !in HeldTasks(s) && w !in s.workers
    requires forall u <- s.db.queue ::
               !s.db.queue[u].locked && u !in HeldTasks(s) ==> task.posted <= s.db.queue[u].posted
    ensures var s' := Take(s, Enqueue(t, task));
            s'.db.queue == s.db.queue[t := task] && Can(s', SelectTask(w, t))
  {
    assert HeldTasks(Take(s, Enqueue(t, task))) == HeldTasks(s);
  }

  /** The task after its round: locked, and with the status its handler's end gives it at that instant. */
  function Settled(db: Db, t: TaskId, outcome: HandlerOutcome): Db
    requires t in db.queue
  {
    var status := if outcome == Panicked then Exited else Completed;
    db.(queue := db.queue[t := db.queue[t].(locked := true, status := status, finished := Some(db.now))])
  }

  lemma ClaimRuns(s: System, w: Pid, t: TaskId)
    requires Can(s, SelectTask(w, t))
    ensures var s1 := Take(s, SelectTask(w, t));
            Can(s1, CommitClaim(w))
            && Take(s1, CommitClaim(w))
               == s.(workers := s.workers[w := Claimed(t)], db := LockTask(s.db, t), claims := s.claims + [t])
  {
  }

  lemma HandlerRuns(s: System, w: Pid, t: TaskId, outcome: HandlerOutcome)
    requires w in s.workers && s.workers[w] == Claimed(t)
    ensures Can(s, StartHandler(w)) && Can(Take(s, StartHandler(w)), EndHandler(w, outcome))
    ensures Take(Take(s, StartHandler(w)), EndHandler(w, outcome))
            == s.(workers := s.workers[w := Ran(t, outcome)], runs := s.runs + [t], ended := s.ended[t := outcome])
  {
  }

  lemma MarkRuns(s: System, w: Pid, t: TaskId, outcome: HandlerOutcome)
    requires w in s.workers && s.workers[w] == Ran(t, outcome) && t in s.db.queue && s.db.queue[t].locked
    ensures Legal(s, [MarkDone(w)])
    ensures Run(s, [MarkDone(w)]) == s.(workers := s.workers - {w}, db := Settled(s.db, t, outcome))
  {
    assert [MarkDone(w)][1..] == [];
    assert s.db.queue[t].(locked := true) == s.db.queue[t];
  }

  /** A worker that is left alone claims, runs and marks its task; nothing else changes. */
  lemma WorkerRound(s: System, w: Pid, t: TaskId, outcome: HandlerOutcome)
    requires Can(s, SelectTask(w, t))
    ensures var steps := [SelectTask(w, t), CommitClaim(w)]
                         + ([StartHandler(w), EndHandler(w, outcome)] + [MarkDone(w)]);
            && Legal(s, steps)
            && Run(s, steps) == s.(db := Settled(s.db, t, outcome), claims := s.claims + [t],
                                   runs := s.runs + [t], ended := s.ended[t := outcome])
  {
    var s1 := Take(s, SelectTask(w, t));
    ClaimRuns(s, w, t);
    var s2 := Take(s1, CommitClaim(w));
    HandlerRuns(s2, w, t, outcome);
    var s3 := Take(s2, StartHandler(w));
    var s4 := Take(s3, EndHandler(w, outcome));
    MarkRuns(s4, w, t, outcome);
    TwoSteps(s2, StartHandler(w), EndHandler(w, outcome), [MarkDone(w)]);
    TwoSteps(s, SelectTask(w, t), CommitClaim(w), [StartHandler(w), EndHandler(w, outcome)] + [MarkDone(w)]);
    assert s.workers[w := Claimed(t)][w := Ran(t, outcome)] - {w} == s.workers;
    SettledAfterLock(s.db, t, outcome);
  }

  lemma SettledAfterLock(db: Db, t: TaskId, outcome: HandlerOutcome)
    requires t in db.queue
    ensures Settled(LockTask(db, t), t, outcome) == Settled(db, t, outcome)
  {
  }

  // ---- What a crash costs ----

  /** Locked, and in no scheduler's hands: what a crash or a failed post leaves behind. */
  ghost predicate Orphaned(s: System, r: RowId) {
    && r in s.db.schedule && s.db.schedule[r].locked
    && forall p <- s.schedulers :: r !in Rows(s.schedulers[p])
  }

  /** An orphaned schedule row never changes again, and nothing is ever posted for it. */
  lemma {:induction false} OrphanNeverFires(s: System, steps: seq<Step>, r: RowId)
    requires Inv(s) && Legal(s, steps) && Orphaned(s, r)
    ensures Orphaned(Run(s, steps), r) && Run(s, steps).db.schedule[r] == s.db.schedule[r]
    ensures PostedFor(Run(s, steps).db, r) == PostedFor(s.db, r)
    decreases steps
  {
    if steps != [] {
      var a := steps[0];
      TakeKeepsInv(s, a);
      OrphanStays(s, a, r);
      AdvancePosts(s, a, r);
      OrphanNeverFires(Take(s, a), steps[1..], r);
    }
  }

  /** Every way a scheduler lets go of a committed claim without a post leaves the row orphaned. */
  lemma LettingGoOrphans(s: System, a: Step, r: RowId)
    requires Inv(s) && Can(s, a) && (a.AbortPost? || a.BadCron? || a.SchedulerStops?)
    requires s.schedulers[a.p].Holding? && r in s.schedulers[a.p].todo
    requires a.AbortPost? ==> r == s.schedulers[a.p].posting.value.row
    requires a.BadCron? ==> r == a.r
    ensures Orphaned(Take(s, a), r) && Take(s, a).db == s.db
  {
    assert SchedulerOk(s.db, s.schedulers[a.p]);
    assert r in Rows(s.schedulers[a.p]);
  }

  /** A claim that was never committed leaves its rows as they were, for the next scheduler to choose. */
  lemma UncommittedChoiceIsFree(s: System, p: Pid, q: Pid, r: RowId)
    requires Inv(s) && p in s.schedulers && s.schedulers[p].Choosing? && r in s.schedulers[p].rows
    requires q !in s.schedulers
    ensures var s' := Take(s, SchedulerStops(p));
            s'.db == s.db && Can(s', ChooseRows(q)) && r in Take(s', ChooseRows(q)).schedulers[q].rows
  {
    assert SchedulerOk(s.db, s.schedulers[p]);
    var s' := Take(s, SchedulerStops(p));
    assert r in Rows(s.schedulers[p]);
    assert r !in HeldRows(s');
  }

  lemma OrphanStays(s: System, a: Step, r: RowId)
    requires Inv(s) && Can(s, a) && Orphaned(s, r)
    ensures Orphaned(Take(s, a), r) && Take(s, a).db.schedule[r] == s.db.schedule[r]
  {
    RowUntouched(s, a, r);
    if !a.ChooseRows? { RowsOnlyShrink(s, a); }
  }

  /** A claimed task whose worker is gone is never run, or run again. */
  lemma {:induction false} LostTaskNeverRuns(s: System, steps: seq<Step>, t: TaskId)
    requires Inv(s) && Legal(s, steps)
    requires t in s.claims && forall w <- s.workers :: s.workers[w].task != t
    ensures t in Run(s, steps).runs <==> t in s.runs
    decreases steps
  {
    if steps != [] {
      TakeKeepsInv(s, steps[0]);
      LostTaskStaysLost(s, steps[0], t);
      LostTaskNeverRuns(Take(s, steps[0]), steps[1..], t);
    }
  }

  lemma LostTaskStaysLost(s: System, a: Step, t: TaskId)
    requires Inv(s) && Can(s, a)
    requires t in s.claims && forall w <- s.workers :: s.workers[w].task != t
    ensures var s' := Take(s, a);
            && t in s'.claims && (t in s'.runs <==> t in s.runs)
            && forall w <- s'.workers :: s'.workers[w].task != t
  {
    var s' := Take(s, a);
    forall w <- s'.workers
      ensures s'.workers[w].task != t
    {
      assert w in s.workers ==> s.workers[w].task != t;
    }
  }
}
