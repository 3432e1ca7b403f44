/**
 The tables `saps.queued_tasks` and `saps.scheduled_tasks` and the statements and procedures on
 them. Each of these is one atomic step; the row locks that transactions still in flight hold on
 other rows are an argument.
 */
module JobTables {
  import opened Common

  type TaskId = nat
  type RowId = nat

  /** A cron expression, as the instants at which it fires. */
  type Cron = int -> bool

  datatype Status = Pending | InProgress | Completed | Exited

  /** How a handler ends: with Ok, with Err, or by panicking. */
  datatype HandlerOutcome = Succeeded | Failed | Panicked

  datatype Job = Job(functionName: string, params: string)

  /** Where a queue row comes from: the application, or one due instant of one schedule row. */
  datatype Origin = Direct | Fired(row: RowId, due: int)

  datatype Task = Task(job: Job, posted: int, status: Status, finished: Option<int>, locked: bool, origin: Origin)

  /** `cron` is None when the cron string does not parse; `made` is when the row was constructed. */
  datatype Schedule = Schedule(job: Job, cron: Option<Cron>, made: int, due: Option<int>,
                               completed: Option<int>, taskId: Option<TaskId>, locked: bool)

  datatype Db = Db(now: int, queue: map<TaskId, Task>, schedule: map<RowId, Schedule>, nextRow: RowId)

  /** `schedule.upcoming(..).next()`: the first firing strictly after `t`. */
  ghost predicate IsNext(cron: Cron, t: int, next: Option<int>) {
    match next
    case None => forall u :: t < u ==> !cron(u)
    case Some(n) => t < n && cron(n) && forall u :: t < u < n ==> !cron(u)
  }

  /** The next firing seen at `seen` lies after a firing `due` exactly when `due` is past on that clock. */
  lemma NextMovesForwardIff(cron: Cron, seen: int, due: int, next: Option<int>)
    requires cron(due) && IsNext(cron, seen, next)
    ensures (next.Some? ==> due < next.value) <==> due <= seen
  {
  }

  /** The status a worker marks: whatever a handler answers completes its task, only a panic exits it. */
  function StatusAfter(outcome: HandlerOutcome): Status {
    if outcome == Panicked then Exited else Completed
  }

  // ---- What each statement does ----

  /** The rows a claim can take: unclaimed, and not row-locked by a claim still in flight. */
  function FreeTasks(db: Db, held: set<TaskId>): set<TaskId> {
    set t | t in db.queue && !db.queue[t].locked && t !in held
  }

  predicate IsOldest(db: Db, held: set<TaskId>, t: TaskId) {
    t in FreeTasks(db, held)
    && forall u <- FreeTasks(db, held) :: db.queue[t].posted <= db.queue[u].posted
  }

  function LockTask(db: Db, t: TaskId): Db {
    if t in db.queue then db.(queue := db.queue[t := db.queue[t].(locked := true)]) else db
  }

  function Mark(db: Db, t: TaskId, status: Status): Db {
    if t in db.queue
    then db.(queue := db.queue[t := db.queue[t].(status := status, finished := Some(db.now))])
    else db
  }

  predicate IsDue(db: Db, r: RowId) {
    r in db.schedule && !db.schedule[r].locked && db.schedule[r].due.Some? && db.schedule[r].due.value <= db.now
  }

  function DueRows(db: Db, held: set<RowId>): set<RowId> {
    set r | r in db.schedule && IsDue(db, r) && r !in held
  }

  function LockRows(db: Db, rows: set<RowId>): Db {
    db.(schedule := map r | r in db.schedule ::
          if r in rows then db.schedule[r].(locked := true) else db.schedule[r])
  }

  /** The two writes of `post_scheduled_task`, for the row copy `c` that was claimed. */
  function Post(db: Db, t: TaskId, posted: int, r: RowId, c: Schedule, next: Option<int>, completed: int): Db
    requires c.due.Some?
  {
    db.(queue := db.queue[t := Task(c.job, posted, Pending, None, false, Fired(r, c.due.value))],
        schedule := map q | q in db.schedule ::
          if q == r
          then db.schedule[q].(due := next, completed := Some(completed), taskId := Some(t), locked := false)
          else db.schedule[q])
  }

  /** A mark writes the status and the instant of the mark, and nothing else of the task or of any other. */
  lemma MarkSays(db: Db, t: TaskId, status: Status)
    requires t in db.queue
    ensures var after := Mark(db, t, status);
            && after == db.(queue := after.queue) && after.queue.Keys == db.queue.Keys
            && (forall u <- db.queue :: u != t ==> after.queue[u] == db.queue[u])
            && after.queue[t].status == status && after.queue[t].finished == Some(db.now)
            && after.queue[t].posted == db.queue[t].posted && after.queue[t].job == db.queue[t].job
            && after.queue[t].locked == db.queue[t].locked && after.queue[t].origin == db.queue[t].origin
  {
  }

  lemma {:induction false} OldestExists(db: Db, candidates: set<TaskId>) returns (t: TaskId)
    requires candidates != {} && forall u <- candidates :: u in db.queue
    ensures t in candidates && forall u <- candidates :: db.queue[t].posted <= db.queue[u].posted
    decreases candidates
  {
    t :| t in candidates;
    if candidates != {t} {
      var other := OldestExists(db, candidates - {t});
      if db.queue[other].posted < db.queue[t].posted { t := other; }
    }
  }

  // ---- The tables ----

  class TaskTables {
    var now: int
    var queue: map<TaskId, Task>
    var schedule: map<RowId, Schedule>
    var nextRow: RowId

    ghost function Snapshot(): Db
      reads this
    {
      Db(now, queue, schedule, nextRow)
    }

    constructor (start: int)
      ensures Snapshot() == Db(start, map[], map[], 0)
    {
      now, queue, schedule, nextRow := start, map[], map[], 0;
    }

    /** `saps.get_next_task()`, with the row locks other claims hold at that moment. */
    method GetNextTask(held: set<TaskId>) returns (claimed: Option<TaskId>)
      modifies this
      ensures claimed == None ==> Snapshot() == old(Snapshot())
                                  && forall t <- queue :: !queue[t].locked ==> t in held
      ensures claimed.Some? ==>
                var t := claimed.value;
                && t in old(queue) && !old(queue)[t].locked && t !in held
                && (forall u <- old(queue) :: !old(queue)[u].locked && u !in held ==>
                      old(queue)[t].posted <= old(queue)[u].posted)
                && Snapshot() == old(Snapshot()).(queue := old(queue)[t := old(queue)[t].(locked := true)])
    {
      var free := set t | t in queue && !queue[t].locked && t !in held;
      if free == {} {
        assert forall t <- queue :: !queue[t].locked && t !in held ==> t in free;
        return None;
      }
      ghost var oldest := OldestExists(Snapshot(), free);
      var t :| t in free && forall u <- free :: queue[t].posted <= queue[u].posted;
      assert free == FreeTasks(Snapshot(), held);
      queue := queue[t := queue[t].(locked := true)];
      return Some(t);
    }

    method InsertBackgroundTask(t: TaskId, task: Task) returns (inserted: bool)
      requires task.origin == Direct
      modifies this
      ensures inserted <==> t !in old(queue)
      ensures Snapshot() == if inserted then old(Snapshot()).(queue := old(queue)[t := task]) else old(Snapshot())
    {
      if t in queue {
        return false;
      }
      queue := queue[t := task];
      return true;
    }

    /** `mark_background_task_as_completed` and `mark_background_task_as_exited`; neither unlocks. */
    method MarkTask(t: TaskId, status: Status) returns (found: bool)
      requires status == Completed || status == Exited
      modifies this
      ensures found <==> t in old(queue)
      ensures Snapshot() == Mark(old(Snapshot()), t, status)
      ensures found ==> queue[t] == old(queue)[t].(status := status, finished := Some(now))
      ensures Snapshot().(queue := queue - {t}) == old(Snapshot()).(queue := old(queue) - {t})
    {
      found := t in queue;
      if found {
        queue := queue[t := queue[t].(status := status, finished := Some(now))];
      }
    }

    /** `saps.claim_due_scheduled_tasks()`. */
    method ClaimDueScheduledTasks(held: set<RowId>) returns (claimed: map<RowId, Schedule>)
      modifies this
      ensures claimed.Keys == DueRows(old(Snapshot()), held)
      ensures Snapshot() == LockRows(old(Snapshot()), claimed.Keys)
      ensures forall r :: r in claimed
                <==> && r in old(schedule) && r !in held && !old(schedule)[r].locked
                     && old(schedule)[r].due.Some? && old(schedule)[r].due.value <= now
      ensures schedule.Keys == old(schedule).Keys
      ensures forall r <- schedule ::
                schedule[r] == if r in claimed then old(schedule)[r].(locked := true) else old(schedule)[r]
      ensures forall r <- claimed :: claimed[r] == schedule[r]
    {
      var rows := set r | r in schedule && !schedule[r].locked && schedule[r].due.Some?
                           && schedule[r].due.value <= now && r !in held;
      assert rows == DueRows(Snapshot(), held);
      schedule := map r | r in schedule :: if r in rows then schedule[r].(locked := true) else schedule[r];
      claimed := map r | r in rows :: schedule[r];
    }

    /**
     `post_scheduled_task`, with the application's clock reading `posted`: both writes or, when the id
     is taken or the transaction fails (`works` is false), neither. Ok tells whether there was a row to
     advance.
     */
    method PostScheduledTask(t: TaskId, posted: int, r: RowId, copy: Schedule, next: Option<int>, completed: int,
                             works: bool)
      returns (result: Result<bool, ()>)
      requires copy.due.Some?
      modifies this
      ensures result.Ok? <==> t !in old(queue) && works
      ensures result.Ok? ==> (result.value <==> r in old(schedule))
                             && Snapshot() == Post(old(Snapshot()), t, posted, r, copy, next, completed)
      ensures result.Err? ==> Snapshot() == old(Snapshot())
    {
      var queueBefore := queue;
      if t in queue {
        return Err(());
      }
      queue := queue[t := Task(copy.job, posted, Pending, None, false, Fired(r, copy.due.value))];
      if !works {
        queue := queueBefore;
        return Err(());
      }
      schedule := map q | q in schedule ::
        if q == r
        then schedule[q].(due := next, completed := Some(completed), taskId := Some(t), locked := false)
        else schedule[q];
      return Ok(r in schedule);
    }

    /**
     One round of `worker_cycle`. A handler that answers Err completes its task like one that answers
     Ok; only a panic marks it exited; and without a handler it just stays locked.
     */
    method WorkerTurn(held: set<TaskId>, registry: map<string, Job -> HandlerOutcome>)
      returns (claimed: Option<TaskId>, outcome: Option<HandlerOutcome>)
      modifies this
      ensures claimed == None ==> outcome == None && Snapshot() == old(Snapshot())
                                  && forall t <- queue :: !queue[t].locked ==> t in held
      ensures claimed.Some? ==>
                var t, before := claimed.value, old(Snapshot());
                && t in before.queue && !before.queue[t].locked && t !in held
                && (forall u <- before.queue :: !before.queue[u].locked && u !in held ==>
                      before.queue[t].posted <= before.queue[u].posted)
                && (outcome.Some? <==> before.queue[t].job.functionName in registry)
                && (outcome.Some? ==> outcome.value == registry[before.queue[t].job.functionName](before.queue[t].job))
                && Snapshot().(queue := queue - {t}) == before.(queue := before.queue - {t})
                && t in queue
                && queue[t] == match outcome
                   case None => before.queue[t].(locked := true)
                   case Some(Panicked) => before.queue[t].(locked := true, status := Exited, finished := Some(now))
                   case Some(_) => before.queue[t].(locked := true, status := Completed, finished := Some(now))
    {
      claimed := GetNextTask(held);
      outcome := None;
      if claimed.Some? {
        var task := queue[claimed.value];
        if task.job.functionName in registry {
          outcome := Some(registry[task.job.functionName](task.job));
          var _ := MarkTask(claimed.value, StatusAfter(outcome.value));
        }
      }
    }

    /**
     One round of `scheduler_cycle`, with the readings the application's clock gives for each row, the
     id drawn for its task, and what becomes of its transaction. A row whose cron does not parse or
     whose post fails stays locked at its old due instant.
     */
    method SchedulerTurn(held: set<RowId>, readings: map<RowId, Reading>, ids: map<RowId, TaskId>, works: RowId -> bool)
      returns (claimed: set<RowId>, posted: map<RowId, TaskId>)
      requires forall r <- schedule :: r in ids && r in readings && FitsCron(schedule[r], readings[r])
      modifies this
      ensures forall r :: r in claimed
                <==> && r in old(schedule) && r !in held && !old(schedule)[r].locked
                     && old(schedule)[r].due.Some? && old(schedule)[r].due.value <= now
      ensures posted.Keys <= claimed && forall r <- posted :: r in ids && posted[r] == ids[r] && works(r)
      ensures forall r <- claimed :: r in posted || Unposted(old(Snapshot()), ids, works, posted, r)
      ensures now == old(now) && nextRow == old(nextRow)
      ensures RowsAfter(old(Snapshot()), Snapshot(), claimed, readings, posted)
      ensures QueueAfter(old(Snapshot()), Snapshot(), readings, posted)
    {
      ghost var before := Snapshot();
      var due := ClaimDueScheduledTasks(held);
      claimed := due.Keys;
      posted := map[];
      var todo := due.Keys;
      while todo != {}
        invariant todo <= claimed
        invariant TurnSoFar(before, Snapshot(), claimed, claimed - todo, readings, ids, works, posted)
        decreases todo
      {
        var r :| r in todo;
        ghost var done := claimed - todo;
        posted := PostDue(r, due[r], readings, ids, works, posted, before, claimed, done);
        todo := todo - {r};
        assert claimed - todo == done + {r};
      }
      assert claimed - todo == claimed;
    }

    /** The turn of one claimed row. */
    method PostDue(r: RowId, copy: Schedule, readings: map<RowId, Reading>, ids: map<RowId, TaskId>,
                   works: RowId -> bool, posted: map<RowId, TaskId>,
                   ghost before: Db, ghost claimed: set<RowId>, ghost done: set<RowId>)
      returns (after: map<RowId, TaskId>)
      requires TurnSoFar(before, Snapshot(), claimed, done, readings, ids, works, posted)
      requires r in claimed && r !in done && r in ids && r in before.schedule
      requires before.schedule[r].due.Some? && copy == before.schedule[r].(locked := true)
      modifies this
      ensures TurnSoFar(before, Snapshot(), claimed, done + {r}, readings, ids, works, after)
    {
      after := posted;
      ghost var db := Snapshot();
      if copy.cron.Some? {
        var t, reading := ids[r], readings[r];
        IdIsTaken(before, db, readings, posted, t);
        var result := PostScheduledTask(t, reading.posted, r, copy, reading.next, reading.completed, works(r));
        if result.Ok? {
          PostExtendsTurn(before, db, claimed, done, readings, ids, works, posted, r, copy);
          return posted[r := t];
        }
      }
    }
  }

  /** The application's clock at one row's turn: when `next` is computed, and twice more. */
  datatype Reading = Reading(seen: int, next: Option<int>, completed: int, posted: int)

  ghost predicate FitsCron(row: Schedule, reading: Reading) {
    row.cron.Some? ==> IsNext(row.cron.value, reading.seen, reading.next)
  }

  /** A schedule row after a round in which it was, or was not, claimed and posted. */
  function AfterTurn(row: Schedule, claimed: bool, posted: Option<TaskId>, reading: Reading): Schedule {
    if posted.Some? then
      row.(due := reading.next, completed := Some(reading.completed), taskId := posted, locked := false)
    else if claimed then row.(locked := true)
    else row
  }

  function Find<K, V>(m: map<K, V>, k: K): Option<V> {
    if k in m then Some(m[k]) else None
  }

  /** Exactly the claimed rows changed: the posted ones advanced, the others are left locked. */
  ghost predicate RowsAfter(before: Db, db: Db, claimed: set<RowId>, readings: map<RowId, Reading>,
                            posted: map<RowId, TaskId>) {
    && db.schedule.Keys == before.schedule.Keys
    && forall r <- before.schedule ::
         r in readings && db.schedule[r] == AfterTurn(before.schedule[r], r in claimed, Find(posted, r), readings[r])
  }

  /** The queue grew by one row for each posted schedule row, for its due instant and with its job. */
  ghost predicate QueueAfter(before: Db, db: Db, readings: map<RowId, Reading>, posted: map<RowId, TaskId>) {
    && db.queue - (set r | r in posted :: posted[r]) == before.queue
    && (forall q, r :: q in posted && r in posted && q != r ==> posted[q] != posted[r])
    && (forall r <- posted ::
          && r in readings
          && r in before.schedule && before.schedule[r].cron.Some? && before.schedule[r].due.Some?
          && posted[r] in db.queue && posted[r] !in before.queue
          && db.queue[posted[r]] == Task(before.schedule[r].job, readings[r].posted, Pending, None, false,
                                         Fired(r, before.schedule[r].due.value)))
  }

  /** Why a claimed row was not posted: a bad cron, a failed transaction, or an id that is in use. */
  ghost predicate Unposted(before: Db, ids: map<RowId, TaskId>, works: RowId -> bool, posted: map<RowId, TaskId>,
                           r: RowId) {
    && r in before.schedule && r in ids
    && (before.schedule[r].cron == None || !works(r) || ids[r] in before.queue || ids[r] in posted.Values)
  }

  /** The ids in use are those from before the round and those posted in it. */
  lemma IdIsTaken(before: Db, db: Db, readings: map<RowId, Reading>, posted: map<RowId, TaskId>, t: TaskId)
    requires QueueAfter(before, db, readings, posted)
    ensures t in db.queue <==> t in before.queue || t in posted.Values
  {
    var ids := set r | r in posted :: posted[r];
    assert ids == posted.Values;
    assert t in db.queue - ids <==> t in before.queue;
  }

  /** A round whose rows in `done` had their turn. */
  ghost predicate TurnSoFar(before: Db, db: Db, claimed: set<RowId>, done: set<RowId>, readings: map<RowId, Reading>,
                            ids: map<RowId, TaskId>, works: RowId -> bool, posted: map<RowId, TaskId>) {
    && posted.Keys <= done <= claimed && db.now == before.now && db.nextRow == before.nextRow
    && RowsAfter(before, db, claimed, readings, posted)
    && QueueAfter(before, db, readings, posted)
    && (forall r <- posted :: r in ids && posted[r] == ids[r] && works(r))
    && (forall r <- done :: r in posted || Unposted(before, ids, works, posted, r))
  }

  lemma PostExtendsTurn(before: Db, db: Db, claimed: set<RowId>, done: set<RowId>, readings: map<RowId, Reading>,
                        ids: map<RowId, TaskId>, works: RowId -> bool, posted: map<RowId, TaskId>,
                        r: RowId, c: Schedule)
    requires TurnSoFar(before, db, claimed, done, readings, ids, works, posted)
    requires r in claimed && r !in done && r in before.schedule && c == before.schedule[r].(locked := true)
    requires c.due.Some? && c.cron.Some? && r in ids && ids[r] !in db.queue && works(r)
    ensures var reading := readings[r];
            TurnSoFar(before, Post(db, ids[r], reading.posted, r, c, reading.next, reading.completed),
                      claimed, done + {r}, readings, ids, works, posted[r := ids[r]])
  {
    PostExtendsRows(before, db, claimed, readings, posted, r, ids[r], c);
    PostExtendsQueue(before, db, readings, posted, r, ids[r], c);
    StaysUnposted(before, ids, works, posted, done, r);
  }

  lemma StaysUnposted(before: Db, ids: map<RowId, TaskId>, works: RowId -> bool, posted: map<RowId, TaskId>,
                      done: set<RowId>, r: RowId)
    requires r in ids && r !in posted
    requires forall q <- done :: q in posted || Unposted(before, ids, works, posted, q)
    ensures var longer := posted[r := ids[r]];
            forall q <- done + {r} :: q in longer || Unposted(before, ids, works, longer, q)
  {
    var longer := posted[r := ids[r]];
    forall t <- posted.Values
      ensures t in longer.Values
    {
      var q :| q in posted && posted[q] == t;
      assert longer[q] == t;
    }
  }

  lemma PostExtendsRows(before: Db, db: Db, claimed: set<RowId>, readings: map<RowId, Reading>,
                        posted: map<RowId, TaskId>, r: RowId, t: TaskId, c: Schedule)
    requires RowsAfter(before, db, claimed, readings, posted)
    requires r in claimed && r !in posted && r in before.schedule && c == before.schedule[r].(locked := true)
    requires c.due.Some? && t !in db.queue
    ensures var reading := readings[r];
            RowsAfter(before, Post(db, t, reading.posted, r, c, reading.next, reading.completed),
                      claimed, readings, posted[r := t])
  {
  }

  lemma PostExtendsQueue(before: Db, db: Db, readings: map<RowId, Reading>, posted: map<RowId, TaskId>,
                         r: RowId, t: TaskId, c: Schedule)
    requires QueueAfter(before, db, readings, posted) && r in db.schedule && r in readings
    requires r !in posted && r in before.schedule && c == before.schedule[r].(locked := true)
    requires c.due.Some? && c.cron.Some? && t !in db.queue
    ensures var reading := readings[r];
            QueueAfter(before, Post(db, t, reading.posted, r, c, reading.next, reading.completed),
                       readings, posted[r := t])
  {
    var after := Post(db, t, readings[r].posted, r, c, readings[r].next, readings[r].completed);
    var longer := posted[r := t];
    var ids, more := set q | q in posted :: posted[q], set q | q in longer :: longer[q];
    assert more == ids + {t} by {
      assert forall q <- posted :: longer[q] == posted[q];
      assert longer[r] == t;
    }
    assert after.queue - more == db.queue - ids;
    assert t !in before.queue by { assert t !in (db.queue - ids); }
  }
}
