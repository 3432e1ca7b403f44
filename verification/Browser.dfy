/**
 The browser session's buffers (`browser_state.rs`). A task takes its buffer out of the session's
 map before its first awaited save and puts it back after the last, so at every await other tasks
 may run. The steps below are the stretches of code between awaits, in any interleaving; a save
 can fail.
 */
module Browser {
  import opened Common
  import opened Edits
  import opened Stores
  import opened MemFiles

  type TaskId = nat

  datatype Change = Edited(op: Operation) | Merged(text: string -> string)

  /** What one task did to one buffer, in order. */
  datatype Entry = Entry(task: TaskId, changes: seq<Change>)

  /** An update is None on a text it cannot be decoded against. */
  datatype Job =
    | Write(p: Key, transaction: Transaction)
    | Update(p: Key, update: string -> Option<string>)
    | FlushAll

  datatype Failure = NotOpen | SaveFailed | BadUpdate

  datatype Task =
    | Writing(p: Key, buffer: Buffer, todo: Transaction, failed: bool)
    | Updating(p: Key, buffer: Buffer, saved: Option<bool>)
    | Flushing(files: map<Key, Buffer>, pending: set<Key>, failed: bool)

  /** `jobs`, `results` and `log` are history. */
  datatype Session = Session(open: map<Key, Buffer>, tasks: map<TaskId, Task>, store: Files,
                             jobs: map<TaskId, Job>, results: map<TaskId, Result<(), Failure>>,
                             log: map<Key, seq<Entry>>)

  datatype Step =
    | Begin(task: TaskId, job: Job)
    | EditOne(task: TaskId, saves: bool)
    | SaveMerged(task: TaskId, saves: bool)
    | FlushOne(task: TaskId, p: Key, saves: bool)
    | Finish(task: TaskId)

  /** The buffers a task has out of the map. */
  function Held(t: Task): map<Key, Buffer> {
    match t
    case Writing(p, buffer, _, _) => map[p := buffer]
    case Updating(p, buffer, _) => map[p := buffer]
    case Flushing(files, _, _) => files
  }

  function MergedText(update: string -> Option<string>): string -> string {
    text => if update(text).Some? then update(text).value else text
  }

  // ---- The steps ----

  predicate Can(s: Session, a: Step) {
    match a
    case Begin(t, _) => t !in s.jobs
    case EditOne(t, _) => t in s.tasks && s.tasks[t].Writing? && !s.tasks[t].failed && s.tasks[t].todo != []
                          && !s.tasks[t].todo[0].Swap? && s.tasks[t].p in s.log && s.log[s.tasks[t].p] != []
    case SaveMerged(t, _) => t in s.tasks && s.tasks[t].Updating? && s.tasks[t].saved == None
    case FlushOne(t, p, _) => t in s.tasks && s.tasks[t].Flushing? && p in s.tasks[t].pending && p in s.tasks[t].files
    case Finish(t) => t in s.tasks && match s.tasks[t]
      case Writing(_, _, todo, failed) => failed || todo == []
      case Updating(_, _, saved) => saved.Some?
      case Flushing(_, pending, _) => pending == {}
  }

  function Take(s: Session, a: Step): Session
    requires Can(s, a)
  {
    match a
    case Begin(t, job) => Start(Record(s, t, job), t, job)
    case EditOne(t, saves) => EditBuffer(s, t, saves)
    case SaveMerged(t, saves) => SaveBuffer(s, t, saves)
    case FlushOne(t, p, saves) => FlushBuffer(s, t, p, saves)
    case Finish(t) => PutBack(s, t)
  }

  function SaveBuffer(s: Session, t: TaskId, saves: bool): Session
    requires Can(s, SaveMerged(t, saves))
  {
    var Updating(p, b, _) := s.tasks[t];
    if saves then s.(tasks := s.tasks[t := Updating(p, Buffer(b.text, 0), Some(true))], store := s.store[p := b.text])
    else s.(tasks := s.tasks[t := Updating(p, b, Some(false))])
  }

  function FlushBuffer(s: Session, t: TaskId, p: Key, saves: bool): Session
    requires Can(s, FlushOne(t, p, saves))
  {
    var Flushing(files, pending, failed) := s.tasks[t];
    if saves then
      s.(tasks := s.tasks[t := Flushing(files[p := Buffer(files[p].text, 0)], pending - {p}, failed)],
         store := s.store[p := files[p].text])
    else
      s.(tasks := s.tasks[t := Flushing(files, pending - {p}, true)])
  }

  function PutBack(s: Session, t: TaskId): Session
    requires Can(s, Finish(t))
  {
    s.(open := s.open + Held(s.tasks[t]), tasks := s.tasks - {t}, results := s.results[t := Verdict(s.tasks[t])])
  }

  function Verdict(t: Task): Result<(), Failure> {
    match t
    case Writing(_, _, _, failed) => if failed then Err(SaveFailed) else Ok(())
    case Updating(_, _, saved) => if saved == Some(true) then Ok(()) else Err(SaveFailed)
    case Flushing(_, _, failed) => if failed then Err(SaveFailed) else Ok(())
  }

  function LogOf(s: Session, p: Key): seq<Entry> {
    if p in s.log then s.log[p] else []
  }

  function Record(s: Session, t: TaskId, job: Job): Session {
    s.(jobs := s.jobs[t := job])
  }

  function Refuse(s: Session, t: TaskId, why: Failure): Session {
    s.(results := s.results[t := Err(why)])
  }

  /** The buffer at `p` leaves the map with task `t`, which begins an entry in the log. */
  function TakeOut(s: Session, t: TaskId, p: Key, task: Task, changes: seq<Change>): Session {
    s.(open := s.open - {p}, tasks := s.tasks[t := task], log := s.log[p := LogOf(s, p) + [Entry(t, changes)]])
  }

  function TakeAll(s: Session, t: TaskId): Session {
    s.(open := map[], tasks := s.tasks[t := Flushing(s.open, s.open.Keys, false)])
  }

  /** Whether an edit job finds its buffer in the map and its update can be decoded. */
  predicate Opens(s: Session, job: Job)
    requires !job.FlushAll?
  {
    job.p in s.open && (job.Update? ==> job.update(s.open[job.p].text).Some?)
  }

  function WhyNot(s: Session, job: Job): Failure
    requires !job.FlushAll?
  {
    if job.p in s.open then BadUpdate else NotOpen
  }

  /** An update is merged before the first await; a transaction's first edit is a step of its own. */
  function FirstTask(s: Session, job: Job): Task
    requires !job.FlushAll? && Opens(s, job)
  {
    var b := s.open[job.p];
    if job.Write? then Writing(job.p, b, AllPrimitives(job.transaction), false)
    else Updating(job.p, Buffer(job.update(b.text).value, b.unsaved), None)
  }

  function FirstChanges(job: Job): seq<Change>
    requires !job.FlushAll?
  {
    if job.Write? then [] else [Merged(MergedText(job.update))]
  }

  /** The first stretch of a task, up to its first await. */
  function Start(s: Session, t: TaskId, job: Job): Session {
    if job.FlushAll? then TakeAll(s, t)
    else if Opens(s, job) then TakeOut(s, t, job.p, FirstTask(s, job), FirstChanges(job))
    else Refuse(s, t, WhyNot(s, job))
  }

  /** Whether a primitive edit is saved at once: a run always, a single character every fifth time. */
  predicate SavesNow(b: Buffer, op: Operation) {
    !IsSingle(op) || b.unsaved + 1 >= SAVE_THRESHOLD
  }

  /** One primitive of a transaction; a failed save keeps the edit but ends the transaction. */
  function EditBuffer(s: Session, t: TaskId, saves: bool): Session
    requires Can(s, EditOne(t, saves))
  {
    var Writing(p, b, todo, _) := s.tasks[t];
    var text := Edit(b.text, todo[0]);
    var count := if IsSingle(todo[0]) then b.unsaved + 1 else b.unsaved;
    var entry := s.log[p][|s.log[p]| - 1];
    var log := s.log[p := s.log[p][..|s.log[p]| - 1] + [Entry(entry.task, entry.changes + [Edited(todo[0])])]];
    if SavesNow(b, todo[0]) && saves then
      s.(tasks := s.tasks[t := Writing(p, Buffer(text, 0), todo[1..], false)], store := s.store[p := text], log := log)
    else
      s.(tasks := s.tasks[t := Writing(p, Buffer(text, count), todo[1..], SavesNow(b, todo[0]))], log := log)
  }

  // ---- What the texts mean ----

  function ApplyChange(text: string, c: Change): string {
    match c
    case Edited(op) => Edit(text, op)
    case Merged(merge) => merge(text)
  }

  function ReplayChanges(text: string, changes: seq<Change>): string {
    if changes == [] then text
    else ApplyChange(ReplayChanges(text, changes[..|changes| - 1]), changes[|changes| - 1])
  }

  /** One task after the other, each with all it did. */
  function Replay(text: string, log: seq<Entry>): string {
    if log == [] then text else ReplayChanges(Replay(text, log[..|log| - 1]), log[|log| - 1].changes)
  }

  function AsChanges(ops: Transaction): seq<Change> {
    seq(|ops|, i requires 0 <= i < |ops| => Edited(ops[i]))
  }

  lemma ReplayNewEntry(text: string, log: seq<Entry>, e: Entry)
    ensures Replay(text, log + [e]) == ReplayChanges(Replay(text, log), e.changes)
  {
    assert (log + [e])[..|log|] == log;
  }

  lemma ReplayNewChange(text: string, log: seq<Entry>, e: Entry, c: Change)
    ensures Replay(text, log + [Entry(e.task, e.changes + [c])]) == ApplyChange(Replay(text, log + [e]), c)
  {
    ReplayNewEntry(text, log, e);
    ReplayNewEntry(text, log, Entry(e.task, e.changes + [c]));
    assert (e.changes + [c])[..|e.changes|] == e.changes;
  }

  lemma AsChangesLast(init: Transaction, last: Operation)
    ensures AsChanges(init + [last]) == AsChanges(init) + [Edited(last)]
  {
  }

  lemma ReplayLast(text: string, changes: seq<Change>, c: Change)
    ensures ReplayChanges(text, changes + [c]) == ApplyChange(ReplayChanges(text, changes), c)
  {
    assert (changes + [c])[..|changes|] == changes;
  }

  lemma {:induction false} ReplayIsEdits(text: string, ops: Transaction)
    ensures ReplayChanges(text, AsChanges(ops)) == EditAll(text, ops)
  {
    if ops != [] {
      var init, last := ops[..|ops| - 1], ops[|ops| - 1];
      ReplayIsEdits(text, init);
      assert init + [last] == ops;
      AsChangesLast(init, last);
      ReplayLast(text, AsChanges(init), Edited(last));
      OneMoreEdit(text, init, last);
    }
  }

  /** A task that went through did to the text what its transaction is documented to do. */
  lemma WholeTransaction(text: string, transaction: Transaction)
    ensures ReplayChanges(text, AsChanges(AllPrimitives(transaction))) == EditAll(text, transaction)
  {
    ReplayIsEdits(text, AllPrimitives(transaction));
    StoreLagsByFewEdits(text, map[["x"] := text], ["x"], transaction);
  }

  // ---- The invariant ----

  predicate Has(s: Session, t: TaskId, p: Key) {
    t in s.tasks && p in Held(s.tasks[t])
  }

  /** Each buffer that was open at the start is in the map or with exactly one task. */
  ghost predicate Owned(s: Session, start: Files) {
    && (forall p <- s.open :: p in start)
    && (forall t, p :: Has(s, t, p) ==> p in start && p !in s.open)
    && (forall t, u, p :: Has(s, t, p) && Has(s, u, p) ==> t == u)
    && (forall p <- start :: p in s.open || exists t :: Has(s, t, p))
  }

  /** Wherever a buffer is, its text is what the log says. */
  ghost predicate TextsFollowLog(s: Session, start: Files) {
    && (forall p <- s.open :: p in start && s.open[p].text == Replay(start[p], LogOf(s, p)))
    && (forall t, p :: Has(s, t, p) ==> p in start && Held(s.tasks[t])[p].text == Replay(start[p], LogOf(s, p)))
  }

  /** An entry belongs to a task that works on that path, and no task has two. */
  ghost predicate LogOk(s: Session) {
    && (forall p, e :: e in LogOf(s, p) ==> e.task in s.jobs && !s.jobs[e.task].FlushAll? && s.jobs[e.task].p == p)
    && (forall p, i, j :: 0 <= i < j < |LogOf(s, p)| ==> LogOf(s, p)[i].task != LogOf(s, p)[j].task)
  }

  ghost predicate TaskOk(s: Session, t: TaskId)
    requires t in s.tasks
  {
    && t in s.jobs && t !in s.results
    && match s.tasks[t]
       case Writing(p, _, todo, _) =>
         && s.jobs[t].Write? && s.jobs[t].p == p
         && var prims := AllPrimitives(s.jobs[t].transaction);
            && |todo| <= |prims| && todo == prims[|prims| - |todo|..]
            && LogOf(s, p) != []
            && LogOf(s, p)[|LogOf(s, p)| - 1] == Entry(t, AsChanges(prims[..|prims| - |todo|]))
       case Updating(p, _, _) =>
         && s.jobs[t].Update? && s.jobs[t].p == p
         && LogOf(s, p) != []
         && LogOf(s, p)[|LogOf(s, p)| - 1] == Entry(t, [Merged(MergedText(s.jobs[t].update))])
       case Flushing(files, pending, failed) =>
         && s.jobs[t].FlushAll? && pending <= files.Keys
         && (!failed ==> forall p <- files.Keys - pending ::
               files[p].unsaved == 0 && p in s.store && s.store[p] == files[p].text)
  }

  /** What a finished task left in the log: everything, nothing, or the edits before a failed save. */
  ghost predicate ResultOk(s: Session, t: TaskId)
    requires t in s.results
  {
    && t in s.jobs
    && match s.jobs[t]
       case Write(p, transaction) =>
         var prims := AllPrimitives(transaction);
         (match s.results[t]
          case Ok(_) => Entry(t, AsChanges(prims)) in LogOf(s, p)
          case Err(SaveFailed) => exists n :: 0 <= n <= |prims| && Entry(t, AsChanges(prims[..n])) in LogOf(s, p)
          case Err(_) => forall e <- LogOf(s, p) :: e.task != t)
       case Update(p, update) =>
         (match s.results[t]
          case Err(NotOpen) => forall e <- LogOf(s, p) :: e.task != t
          case Err(BadUpdate) => forall e <- LogOf(s, p) :: e.task != t
          case _ => Entry(t, [Merged(MergedText(update))]) in LogOf(s, p))
       case FlushAll => s.results[t] == Ok(()) || s.results[t] == Err(SaveFailed)
  }

  /** Every job is still running or has answered. */
  ghost predicate Accounted(s: Session) {
    s.jobs.Keys == s.tasks.Keys + s.results.Keys
  }

  ghost predicate Inv(s: Session, start: Files) {
    && Owned(s, start) && TextsFollowLog(s, start) && LogOk(s) && Accounted(s)
    && (forall t <- s.tasks :: TaskOk(s, t))
    && (forall t <- s.results :: ResultOk(s, t))
  }

  // ---- Every step keeps it: who owns what ----

  lemma TakeOutOwned(s: Session, start: Files, t: TaskId, p: Key, task: Task, changes: seq<Change>)
    requires Owned(s, start) && t !in s.tasks && p in s.open && Held(task).Keys == {p}
    ensures Owned(TakeOut(s, t, p, task, changes), start)
  {
    var s' := TakeOut(s, t, p, task, changes);
    assert forall u, q :: Has(s', u, q) <==> (if u == t then q == p else Has(s, u, q)) by {
      assert forall q :: q in Held(task) <==> q in Held(task).Keys;
    }
    forall q <- start | q !in s'.open
      ensures exists u :: Has(s', u, q)
    {
      if q == p {
        assert Has(s', t, q);
      } else {
        var u :| Has(s, u, q);
        assert Has(s', u, q);
      }
    }
  }

  lemma TakeAllOwned(s: Session, start: Files, t: TaskId)
    requires Owned(s, start) && t !in s.tasks
    ensures Owned(TakeAll(s, t), start)
  {
    var s' := TakeAll(s, t);
    assert forall u, q :: Has(s', u, q) <==> (if u == t then q in s.open else Has(s, u, q));
    forall q <- start
      ensures exists u :: Has(s', u, q)
    {
      if q in s.open {
        assert Has(s', t, q);
      } else {
        var u :| Has(s, u, q);
        assert Has(s', u, q);
      }
    }
  }

  lemma FinishOwned(s: Session, start: Files, t: TaskId)
    requires Owned(s, start) && Can(s, Finish(t))
    ensures Owned(Take(s, Finish(t)), start)
  {
    var s' := Take(s, Finish(t));
    assert forall u, q :: Has(s', u, q) <==> u != t && Has(s, u, q);
    assert forall q :: q in s'.open <==> q in s.open || Has(s, t, q);
    forall q <- start | q !in s'.open
      ensures exists u :: Has(s', u, q)
    {
      var u :| Has(s, u, q);
      assert Has(s', u, q);
    }
  }

  lemma SameHoldersOwn(s: Session, s': Session, start: Files)
    requires Owned(s, start) && s'.open.Keys == s.open.Keys
    requires forall t, p :: Has(s', t, p) <==> Has(s, t, p)
    ensures Owned(s', start)
  {
    assert forall p :: p in s'.open <==> p in s.open.Keys;
  }

  lemma StartOwned(s: Session, start: Files, t: TaskId, job: Job)
    requires Owned(s, start) && t !in s.tasks
    ensures Owned(Start(s, t, job), start)
  {
    if job.FlushAll? {
      TakeAllOwned(s, start, t);
    } else if Opens(s, job) {
      TakeOutOwned(s, start, t, job.p, FirstTask(s, job), FirstChanges(job));
    } else {
      SameHoldersOwn(s, Start(s, t, job), start);
    }
  }

  lemma TasksHaveJobs(s: Session, start: Files)
    requires Inv(s, start)
    ensures s.tasks.Keys <= s.jobs.Keys && s.results.Keys <= s.jobs.Keys
  {
    assert forall t <- s.tasks :: TaskOk(s, t);
    assert forall t <- s.results :: ResultOk(s, t);
  }

  /** A task whose buffers stay the same ones. */
  predicate KeepsHolding(s: Session, s': Session, t: TaskId) {
    && t in s.tasks && t in s'.tasks && s'.open == s.open && s'.tasks - {t} == s.tasks - {t}
    && Held(s'.tasks[t]).Keys == Held(s.tasks[t]).Keys
  }

  lemma KeepsHoldingOwns(s: Session, s': Session, start: Files, t: TaskId)
    requires Owned(s, start) && KeepsHolding(s, s', t)
    ensures Owned(s', start)
  {
    forall u, p
      ensures Has(s', u, p) <==> Has(s, u, p)
    {
      if u == t {
        assert p in Held(s'.tasks[t]) <==> p in Held(s'.tasks[t]).Keys;
      } else {
        assert u in s.tasks <==> u in s.tasks - {t};
        assert u in s'.tasks <==> u in s'.tasks - {t};
        assert u in s.tasks ==> s.tasks[u] == (s.tasks - {t})[u] == (s'.tasks - {t})[u] == s'.tasks[u];
      }
    }
    SameHoldersOwn(s, s', start);
  }

  lemma EditHolds(s: Session, t: TaskId, saves: bool)
    requires Can(s, EditOne(t, saves))
    ensures KeepsHolding(s, EditBuffer(s, t, saves), t)
  {
  }

  lemma SaveHolds(s: Session, t: TaskId, saves: bool)
    requires Can(s, SaveMerged(t, saves))
    ensures KeepsHolding(s, SaveBuffer(s, t, saves), t)
  {
  }

  lemma FlushHolds(s: Session, t: TaskId, p: Key, saves: bool)
    requires Can(s, FlushOne(t, p, saves))
    ensures KeepsHolding(s, FlushBuffer(s, t, p, saves), t)
  {
    assert s.tasks[t].files.Keys + {p} == s.tasks[t].files.Keys;
  }

  lemma TakeOwned(s: Session, start: Files, a: Step)
    requires Inv(s, start) && Can(s, a)
    ensures Owned(Take(s, a), start)
  {
    match a
    case Begin(t, job) =>
      TasksHaveJobs(s, start);
      SameHoldersOwn(s, Record(s, t, job), start);
      StartOwned(Record(s, t, job), start, t, job);
    case EditOne(t, saves) =>
      EditHolds(s, t, saves);
      KeepsHoldingOwns(s, EditBuffer(s, t, saves), start, t);
    case SaveMerged(t, saves) =>
      SaveHolds(s, t, saves);
      KeepsHoldingOwns(s, SaveBuffer(s, t, saves), start, t);
    case FlushOne(t, p, saves) =>
      FlushHolds(s, t, p, saves);
      KeepsHoldingOwns(s, FlushBuffer(s, t, p, saves), start, t);
    case Finish(t) => FinishOwned(s, start, t);
  }

  // ---- Every step keeps it: the log ----

  lemma TakeOutLog(s: Session, t: TaskId, p: Key, task: Task, changes: seq<Change>)
    requires LogOk(s) && Unlogged(s, t) && t in s.jobs && !s.jobs[t].FlushAll? && s.jobs[t].p == p
    ensures LogOk(TakeOut(s, t, p, task, changes))
  {
    var s' := TakeOut(s, t, p, task, changes);
    var old_, new_ := LogOf(s, p), LogOf(s', p);
    assert new_ == old_ + [Entry(t, changes)];
    assert forall q :: q != p ==> LogOf(s', q) == LogOf(s, q);
    assert forall e <- old_ :: e.task != t;
    forall i, j | 0 <= i < j < |new_|
      ensures new_[i].task != new_[j].task
    {
      assert new_[i] == old_[i] && old_[i] in old_;
      if j < |old_| { assert new_[j] == old_[j]; }
    }
  }

  /** A task that has not begun an entry. */
  ghost predicate Unlogged(s: Session, t: TaskId) {
    forall p, e :: e in LogOf(s, p) ==> e.task != t
  }

  lemma FreshIsUnlogged(s: Session, t: TaskId)
    requires LogOk(s) && t !in s.jobs
    ensures Unlogged(s, t)
  {
  }

  lemma StartLog(s: Session, t: TaskId, job: Job)
    requires LogOk(s) && Unlogged(s, t) && t in s.jobs && s.jobs[t] == job
    ensures LogOk(Start(s, t, job))
  {
    if !job.FlushAll? && Opens(s, job) {
      TakeOutLog(s, t, job.p, FirstTask(s, job), FirstChanges(job));
    } else {
      assert forall p :: LogOf(Start(s, t, job), p) == LogOf(s, p);
    }
  }

  lemma EditLog(s: Session, t: TaskId, saves: bool)
    requires LogOk(s) && Can(s, EditOne(t, saves))
    ensures LogOk(Take(s, EditOne(t, saves)))
  {
    var s' := Take(s, EditOne(t, saves));
    forall p, i | 0 <= i < |LogOf(s', p)|
      ensures i < |LogOf(s, p)| && LogOf(s', p)[i].task == LogOf(s, p)[i].task
    {
      if p != s.tasks[t].p { assert LogOf(s', p) == LogOf(s, p); }
    }
    forall p, e | e in LogOf(s', p)
      ensures e.task in s'.jobs && !s'.jobs[e.task].FlushAll? && s'.jobs[e.task].p == p
    {
      var i :| 0 <= i < |LogOf(s', p)| && LogOf(s', p)[i] == e;
      assert LogOf(s, p)[i] in LogOf(s, p);
    }
  }

  lemma TakeLog(s: Session, a: Step)
    requires LogOk(s) && Can(s, a)
    ensures LogOk(Take(s, a))
  {
    if a.Begin? {
      var recorded := Record(s, a.task, a.job);
      FreshIsUnlogged(s, a.task);
      assert forall p :: LogOf(recorded, p) == LogOf(s, p);
      StartLog(recorded, a.task, a.job);
    } else if a.EditOne? {
      EditLog(s, a.task, a.saves);
    } else {
      assert forall p :: LogOf(Take(s, a), p) == LogOf(s, p);
    }
  }

  // ---- Every step keeps it: the texts ----

  lemma TakeOutTexts(s: Session, start: Files, t: TaskId, p: Key, task: Task, b: Buffer, changes: seq<Change>)
    requires Owned(s, start) && TextsFollowLog(s, start) && t !in s.tasks && p in s.open
    requires Held(task) == map[p := b] && b.text == ReplayChanges(s.open[p].text, changes)
    ensures TextsFollowLog(TakeOut(s, t, p, task, changes), start)
  {
    var s' := TakeOut(s, t, p, task, changes);
    ReplayNewEntry(start[p], LogOf(s, p), Entry(t, changes));
    assert forall q :: q != p ==> LogOf(s', q) == LogOf(s, q);
    forall u, q | Has(s', u, q)
      ensures q in start && Held(s'.tasks[u])[q].text == Replay(start[q], LogOf(s', q))
    {
      if u != t { assert Has(s, u, q); }
    }
  }

  lemma TakeAllTexts(s: Session, start: Files, t: TaskId)
    requires Owned(s, start) && TextsFollowLog(s, start) && t !in s.tasks
    ensures TextsFollowLog(TakeAll(s, t), start)
  {
    var s' := TakeAll(s, t);
    assert forall q :: LogOf(s', q) == LogOf(s, q);
    forall u, q | Has(s', u, q)
      ensures q in start && Held(s'.tasks[u])[q].text == Replay(start[q], LogOf(s', q))
    {
      if u != t { assert Has(s, u, q); }
    }
  }

  lemma RefuseTexts(s: Session, start: Files, t: TaskId, why: Failure)
    requires TextsFollowLog(s, start)
    ensures TextsFollowLog(Refuse(s, t, why), start)
  {
    var s' := Refuse(s, t, why);
    assert forall p :: LogOf(s', p) == LogOf(s, p);
    assert forall u, q :: Has(s', u, q) <==> Has(s, u, q);
  }

  lemma StartTexts(s: Session, start: Files, t: TaskId, job: Job)
    requires Owned(s, start) && TextsFollowLog(s, start) && t !in s.tasks
    ensures TextsFollowLog(Start(s, t, job), start)
  {
    if job.FlushAll? {
      TakeAllTexts(s, start, t);
    } else if Opens(s, job) {
      assert FirstChanges(job)[..|FirstChanges(job)| - (if job.Write? then 0 else 1)] == [];
      TakeOutTexts(s, start, t, job.p, FirstTask(s, job), FirstTask(s, job).buffer, FirstChanges(job));
    } else {
      RefuseTexts(s, start, t, WhyNot(s, job));
    }
  }

  /** What one edit step changes. */
  lemma EditEffect(s: Session, t: TaskId, saves: bool)
    requires Can(s, EditOne(t, saves))
    ensures var s', p, op := EditBuffer(s, t, saves), s.tasks[t].p, s.tasks[t].todo[0];
            && s'.open == s.open && s'.jobs == s.jobs && s'.results == s.results
            && s'.tasks - {t} == s.tasks - {t} && t in s'.tasks && s'.tasks[t].Writing? && s'.tasks[t].p == p
            && s'.tasks[t].buffer.text == Edit(s.tasks[t].buffer.text, op)
            && s'.tasks[t].todo == s.tasks[t].todo[1..]
  {
  }

  lemma EditLogged(s: Session, t: TaskId, saves: bool)
    requires Can(s, EditOne(t, saves))
    ensures var s', p, op := EditBuffer(s, t, saves), s.tasks[t].p, s.tasks[t].todo[0];
            var log := LogOf(s, p);
            var e := log[|log| - 1];
            && LogOf(s', p) == log[..|log| - 1] + [Entry(e.task, e.changes + [Edited(op)])]
            && (forall q :: q != p ==> LogOf(s', q) == LogOf(s, q))
  {
  }

  lemma EditStored(s: Session, t: TaskId, saves: bool)
    requires Can(s, EditOne(t, saves))
    ensures EditBuffer(s, t, saves).store - {s.tasks[t].p} == s.store - {s.tasks[t].p}
  {
  }

  lemma EditStepTexts(s: Session, start: Files, t: TaskId, saves: bool)
    requires Owned(s, start) && TextsFollowLog(s, start) && Can(s, EditOne(t, saves))
    ensures TextsFollowLog(EditBuffer(s, t, saves), start)
  {
    var p := s.tasks[t].p;
    var log := LogOf(s, p);
    EditEffect(s, t, saves);
    EditLogged(s, t, saves);
    assert log == log[..|log| - 1] + [log[|log| - 1]];
    EditTexts(s, EditBuffer(s, t, saves), start, t, p, log[..|log| - 1], log[|log| - 1], s.tasks[t].todo[0]);
  }

  lemma EditTexts(s: Session, s': Session, start: Files, t: TaskId, p: Key, init: seq<Entry>, e: Entry, op: Operation)
    requires Owned(s, start) && TextsFollowLog(s, start)
    requires t in s.tasks && Held(s.tasks[t]).Keys == {p} && s'.open == s.open
    requires s'.tasks - {t} == s.tasks - {t} && t in s'.tasks && Held(s'.tasks[t]).Keys == {p}
    requires Held(s'.tasks[t])[p].text == Edit(Held(s.tasks[t])[p].text, op)
    requires LogOf(s, p) == init + [e] && LogOf(s', p) == init + [Entry(e.task, e.changes + [Edited(op)])]
    requires forall q :: q != p ==> LogOf(s', q) == LogOf(s, q)
    ensures TextsFollowLog(s', start)
  {
    assert p in Held(s.tasks[t]).Keys && Has(s, t, p);
    ReplayNewChange(start[p], init, e, Edited(op));
    forall u, q | Has(s', u, q)
      ensures q in start && Held(s'.tasks[u])[q].text == Replay(start[q], LogOf(s', q))
    {
      if u == t {
        assert q in Held(s'.tasks[t]).Keys;
      } else {
        assert u in s'.tasks - {t} && s.tasks[u] == (s.tasks - {t})[u] == s'.tasks[u];
        assert Has(s, u, q);
      }
    }
  }

  lemma SaveTexts(s: Session, start: Files, t: TaskId, saves: bool)
    requires TextsFollowLog(s, start) && Can(s, SaveMerged(t, saves))
    ensures TextsFollowLog(SaveBuffer(s, t, saves), start)
  {
    var s' := SaveBuffer(s, t, saves);
    assert forall p :: LogOf(s', p) == LogOf(s, p);
    assert forall u, q :: Has(s', u, q) ==> Has(s, u, q);
  }

  lemma FlushTexts(s: Session, start: Files, t: TaskId, p: Key, saves: bool)
    requires TextsFollowLog(s, start) && Can(s, FlushOne(t, p, saves))
    ensures TextsFollowLog(FlushBuffer(s, t, p, saves), start)
  {
    var s' := FlushBuffer(s, t, p, saves);
    assert forall q :: LogOf(s', q) == LogOf(s, q);
    assert forall u, q :: Has(s', u, q) ==> Has(s, u, q);
    assert Has(s, t, p);
  }

  lemma FinishTexts(s: Session, s': Session, start: Files, t: TaskId)
    requires Owned(s, start) && TextsFollowLog(s, start) && t in s.tasks
    requires s'.open == s.open + Held(s.tasks[t]) && s'.tasks == s.tasks - {t} && s'.log == s.log
    ensures TextsFollowLog(s', start)
  {
    assert forall p :: LogOf(s', p) == LogOf(s, p);
    forall p <- s'.open
      ensures p in start && s'.open[p].text == Replay(start[p], LogOf(s', p))
    {
      if p in Held(s.tasks[t]) { assert Has(s, t, p); }
    }
    forall u, q | Has(s', u, q)
      ensures q in start && Held(s'.tasks[u])[q].text == Replay(start[q], LogOf(s', q))
    {
      assert Has(s, u, q);
    }
  }

  lemma TakeTexts(s: Session, start: Files, a: Step)
    requires Inv(s, start) && Can(s, a)
    ensures TextsFollowLog(Take(s, a), start)
  {
    if a.Begin? {
      TasksHaveJobs(s, start);
      var recorded := Record(s, a.task, a.job);
      SameHoldersOwn(s, recorded, start);
      assert forall p :: LogOf(recorded, p) == LogOf(s, p);
      StartTexts(recorded, start, a.task, a.job);
    } else if a.EditOne? {
      EditStepTexts(s, start, a.task, a.saves);
    } else if a.Finish? {
      FinishTexts(s, Take(s, a), start, a.task);
    } else if a.SaveMerged? {
      SaveTexts(s, start, a.task, a.saves);
    } else {
      FlushTexts(s, start, a.task, a.p, a.saves);
    }
  }

  // ---- Every step keeps it: tasks and results ----

  /** What the other tasks rely on: their own paths' logs and stored texts. */
  ghost predicate Undisturbed(s: Session, s': Session, u: TaskId) {
    && u in s.jobs && u in s'.jobs && s'.jobs[u] == s.jobs[u]
    && u in s.tasks && u in s'.tasks && s'.tasks[u] == s.tasks[u]
    && (u in s'.results ==> u in s.results)
    && forall p :: Has(s, u, p) ==>
         && LogOf(s', p) == LogOf(s, p)
         && (p in s'.store <==> p in s.store) && (p in s.store ==> s'.store[p] == s.store[p])
  }

  lemma UndisturbedIsOk(s: Session, s': Session, u: TaskId)
    requires Undisturbed(s, s', u) && TaskOk(s, u)
    ensures TaskOk(s', u)
  {
    match s.tasks[u]
    case Writing(p, _, _, _) => assert Has(s, u, p);
    case Updating(p, _, _) => assert Has(s, u, p);
    case Flushing(files, _, _) => assert forall p <- files :: Has(s, u, p);
  }

  /** A step of `t` that touches the log and the store at most at the paths it holds. */
  ghost predicate Local(s: Session, s': Session, t: TaskId) {
    && s'.jobs == s.jobs && s'.tasks - {t} == s.tasks - {t}
    && (forall u <- s'.results :: u == t || u in s.results)
    && (forall p :: !Has(s, t, p) ==>
          && LogOf(s', p) == LogOf(s, p)
          && (p in s'.store <==> p in s.store) && (p in s.store ==> s'.store[p] == s.store[p]))
  }

  lemma EditIsLocal(s: Session, t: TaskId, saves: bool)
    requires Can(s, EditOne(t, saves))
    ensures Local(s, EditBuffer(s, t, saves), t)
  {
    EditEffect(s, t, saves);
    EditLogged(s, t, saves);
    EditStored(s, t, saves);
    assert Has(s, t, s.tasks[t].p);
    SameOutside(s.store, EditBuffer(s, t, saves).store, s.tasks[t].p);
  }

  lemma SaveIsLocal(s: Session, t: TaskId, saves: bool)
    requires Can(s, SaveMerged(t, saves))
    ensures Local(s, SaveBuffer(s, t, saves), t)
  {
    assert Has(s, t, s.tasks[t].p);
    assert forall p :: LogOf(SaveBuffer(s, t, saves), p) == LogOf(s, p);
  }

  lemma FlushIsLocal(s: Session, t: TaskId, p: Key, saves: bool)
    requires Can(s, FlushOne(t, p, saves))
    ensures Local(s, FlushBuffer(s, t, p, saves), t)
  {
    assert Has(s, t, p);
    assert forall q :: LogOf(FlushBuffer(s, t, p, saves), q) == LogOf(s, q);
  }

  lemma PuttingBackIsLocal(s: Session, t: TaskId)
    requires Can(s, Finish(t))
    ensures Local(s, PutBack(s, t), t)
  {
    assert forall p :: LogOf(PutBack(s, t), p) == LogOf(s, p);
  }

  lemma StepsAreLocal(s: Session, a: Step)
    requires Can(s, a) && !a.Begin?
    ensures Local(s, Take(s, a), a.task)
  {
    match a
    case EditOne(t, saves) => EditIsLocal(s, t, saves);
    case SaveMerged(t, saves) => SaveIsLocal(s, t, saves);
    case FlushOne(t, p, saves) => FlushIsLocal(s, t, p, saves);
    case Finish(t) => PuttingBackIsLocal(s, t);
  }

  lemma SameOutside(m: Files, n: Files, p: Key)
    requires n - {p} == m - {p}
    ensures forall q :: q != p ==> (q in n <==> q in m) && (q in m ==> n[q] == m[q])
  {
    forall q | q != p
      ensures (q in n <==> q in m) && (q in m ==> n[q] == m[q])
    {
      assert q in n <==> q in n - {p};
      assert q in m <==> q in m - {p};
      assert q in m ==> m[q] == (m - {p})[q] && n[q] == (n - {p})[q];
    }
  }

  lemma LocalStepsDisturbNoOther(s: Session, s': Session, start: Files, t: TaskId, u: TaskId)
    requires Owned(s, start) && Local(s, s', t) && u != t && u in s.tasks && u in s.jobs && TaskOk(s, u)
    ensures u in s'.tasks && TaskOk(s', u)
  {
    assert u in s.tasks - {t} && u in s'.tasks - {t};
    assert s.tasks[u] == (s.tasks - {t})[u] == s'.tasks[u];
    UndisturbedIsOk(s, s', u);
  }

  // ---- Every step keeps it: the task that steps ----

  lemma ChangesGrow(prims: Transaction, k: nat)
    requires k < |prims|
    ensures AsChanges(prims[..k]) + [Edited(prims[k])] == AsChanges(prims[..k + 1])
    ensures prims[k..][0] == prims[k] && prims[k..][1..] == prims[k + 1..]
  {
  }

  lemma EditedTaskOk(s: Session, t: TaskId, saves: bool)
    requires Can(s, EditOne(t, saves)) && TaskOk(s, t)
    ensures t in EditBuffer(s, t, saves).tasks && TaskOk(EditBuffer(s, t, saves), t)
  {
    EditedFields(s, t, saves);
    EditedEntry(s, t, saves);
    OneEditFurther(s, EditBuffer(s, t, saves), t);
  }

  /** A writing task with one edit fewer to do, and that edit in its entry. */
  lemma OneEditFurther(s: Session, s': Session, t: TaskId)
    requires t in s.tasks && s.tasks[t].Writing? && TaskOk(s, t) && s.tasks[t].todo != []
    requires s'.jobs == s.jobs && s'.results == s.results && t in s'.tasks && s'.tasks[t].Writing?
    requires s'.tasks[t].p == s.tasks[t].p && s'.tasks[t].todo == s.tasks[t].todo[1..]
    requires var prims := AllPrimitives(s.jobs[t].transaction);
             var n := |prims| - |s.tasks[t].todo|;
             var log := LogOf(s', s.tasks[t].p);
             log != [] && log[|log| - 1] == Entry(t, AsChanges(prims[..n + 1]))
    ensures TaskOk(s', t)
  {
    var prims := AllPrimitives(s.jobs[t].transaction);
    var n := |prims| - |s.tasks[t].todo|;
    DropOne(prims, n);
    WritingTaskOk(s', t, prims, n + 1);
  }

  lemma DropOne(ops: Transaction, n: nat)
    requires n < |ops|
    ensures ops[n..][1..] == ops[n + 1..]
  {
  }

  lemma EditedFields(s: Session, t: TaskId, saves: bool)
    requires Can(s, EditOne(t, saves))
    ensures var s' := EditBuffer(s, t, saves);
            && s'.jobs == s.jobs && s'.results == s.results && t in s'.tasks && s'.tasks[t].Writing?
            && s'.tasks[t].p == s.tasks[t].p && s'.tasks[t].todo == s.tasks[t].todo[1..]
  {
  }

  /** A writing task is in order if the first `n` edits are in its entry and the others are still to do. */
  lemma WritingTaskOk(s: Session, t: TaskId, prims: Transaction, n: nat)
    requires t in s.tasks && s.tasks[t].Writing? && t in s.jobs && t !in s.results
    requires s.jobs[t].Write? && s.jobs[t].p == s.tasks[t].p && prims == AllPrimitives(s.jobs[t].transaction)
    requires n <= |prims| && s.tasks[t].todo == prims[n..]
    requires var log := LogOf(s, s.tasks[t].p); log != [] && log[|log| - 1] == Entry(t, AsChanges(prims[..n]))
    ensures TaskOk(s, t)
  {
  }

  /** The entry of the task has grown by the edit it was about to make. */
  lemma EditedEntry(s: Session, t: TaskId, saves: bool)
    requires Can(s, EditOne(t, saves)) && TaskOk(s, t)
    ensures var log := LogOf(EditBuffer(s, t, saves), s.tasks[t].p);
            var prims := AllPrimitives(s.jobs[t].transaction);
            var n := |prims| - |s.tasks[t].todo|;
            && 0 <= n < |prims| && log != []
            && log[|log| - 1] == Entry(t, AsChanges(prims[..n + 1]))
  {
    EditLogged(s, t, saves);
    var prims := AllPrimitives(s.jobs[t].transaction);
    var n := |prims| - |s.tasks[t].todo|;
    ChangesGrow(prims, n);
  }

  lemma MergedTaskOk(s: Session, t: TaskId, saves: bool)
    requires Can(s, SaveMerged(t, saves)) && TaskOk(s, t)
    ensures t in SaveBuffer(s, t, saves).tasks && TaskOk(SaveBuffer(s, t, saves), t)
  {
    assert LogOf(SaveBuffer(s, t, saves), s.tasks[t].p) == LogOf(s, s.tasks[t].p);
  }

  lemma FlushedTaskOk(s: Session, t: TaskId, p: Key, saves: bool)
    requires Can(s, FlushOne(t, p, saves)) && TaskOk(s, t)
    ensures t in FlushBuffer(s, t, p, saves).tasks && TaskOk(FlushBuffer(s, t, p, saves), t)
  {
  }

  lemma StartedTaskOk(s: Session, start: Files, t: TaskId, job: Job)
    requires t in s.jobs && s.jobs[t] == job && t !in s.results && t !in s.tasks
    requires t in Start(s, t, job).tasks
    ensures TaskOk(Start(s, t, job), t)
  {
    if job.Write? {
      var prims := AllPrimitives(job.transaction);
      assert prims[|prims| - |prims|..] == prims && AsChanges(prims[..0]) == [];
    }
  }

  lemma StartDisturbsNoOther(s: Session, start: Files, t: TaskId, job: Job, u: TaskId)
    requires Owned(s, start) && u in s.tasks && t !in s.tasks && u in s.jobs
    ensures Undisturbed(s, Start(s, t, job), u)
  {
    var s' := Start(s, t, job);
    forall p | Has(s, u, p)
      ensures LogOf(s', p) == LogOf(s, p)
    {
      assert p !in s.open;
      if !job.FlushAll? && Opens(s, job) { assert p != job.p; }
    }
  }

  lemma BeginTasks(s: Session, start: Files, t: TaskId, job: Job)
    requires Inv(s, start) && t !in s.jobs
    ensures var s' := Take(s, Begin(t, job)); forall u <- s'.tasks :: TaskOk(s', u)
  {
    TasksHaveJobs(s, start);
    var recorded := Record(s, t, job);
    SameHoldersOwn(s, recorded, start);
    var s' := Start(recorded, t, job);
    forall u <- s'.tasks
      ensures TaskOk(s', u)
    {
      if u == t {
        StartedTaskOk(recorded, start, t, job);
      } else {
        assert TaskOk(s, u);
        RecordKeepsTask(s, t, job, u);
        StartDisturbsNoOther(recorded, start, t, job, u);
        UndisturbedIsOk(recorded, s', u);
      }
    }
  }

  lemma RecordKeepsTask(s: Session, t: TaskId, job: Job, u: TaskId)
    requires u in s.tasks && TaskOk(s, u) && t !in s.jobs
    ensures TaskOk(Record(s, t, job), u)
  {
    assert forall p :: LogOf(Record(s, t, job), p) == LogOf(s, p);
  }

  lemma TakeTasks(s: Session, start: Files, a: Step)
    requires Inv(s, start) && Can(s, a)
    ensures var s' := Take(s, a); forall u <- s'.tasks :: TaskOk(s', u)
  {
    if a.Begin? {
      BeginTasks(s, start, a.task, a.job);
    } else {
      var s' := Take(s, a);
      StepsAreLocal(s, a);
      forall u <- s'.tasks
        ensures TaskOk(s', u)
      {
        if u == a.task {
          assert TaskOk(s, u) by { assert u in s.tasks; }
          match a
          case EditOne(_, saves) => EditedTaskOk(s, u, saves);
          case SaveMerged(_, saves) => MergedTaskOk(s, u, saves);
          case FlushOne(_, p, saves) => FlushedTaskOk(s, u, p, saves);
          case Finish(_) =>
        } else {
          assert u in s'.tasks - {a.task};
          assert TaskOk(s, u);
          LocalStepsDisturbNoOther(s, s', start, a.task, u);
        }
      }
    }
  }

  // ---- Every step keeps it: results ----

  /** Entries of tasks other than `t` neither come nor go. */
  ghost predicate OthersLogged(s: Session, s': Session, t: TaskId) {
    forall p: Key, e: Entry :: e.task != t ==> (e in LogOf(s', p) <==> e in LogOf(s, p))
  }

  lemma ResultStays(s: Session, s': Session, t: TaskId, u: TaskId)
    requires u in s.results && ResultOk(s, u) && OthersLogged(s, s', t) && u != t
    requires u in s'.results && s'.results[u] == s.results[u] && u in s'.jobs && s'.jobs[u] == s.jobs[u]
    ensures ResultOk(s', u)
  {
    match s.jobs[u]
    case Write(p, transaction) =>
      var prims := AllPrimitives(transaction);
      if s.results[u] == Err(SaveFailed) {
        var n :| 0 <= n <= |prims| && Entry(u, AsChanges(prims[..n])) in LogOf(s, p);
        assert Entry(u, AsChanges(prims[..n])) in LogOf(s', p);
      }
    case _ =>
  }

  lemma StartLogs(s: Session, t: TaskId, job: Job)
    ensures OthersLogged(s, Start(s, t, job), t)
  {
    var s' := Start(s, t, job);
    if !job.FlushAll? && Opens(s, job) {
      assert LogOf(s', job.p) == LogOf(s, job.p) + [Entry(t, FirstChanges(job))];
      assert forall q :: q != job.p ==> LogOf(s', q) == LogOf(s, q);
    } else {
      assert forall q :: LogOf(s', q) == LogOf(s, q);
    }
  }

  lemma StepsLogOnlyTheirOwn(s: Session, start: Files, a: Step)
    requires Inv(s, start) && Can(s, a)
    ensures OthersLogged(s, Take(s, a), a.task)
  {
    if a.EditOne? {
      assert TaskOk(s, a.task);
      EditStepLogs(s, a.task, a.saves);
    } else if a.Begin? {
      var recorded := Record(s, a.task, a.job);
      assert forall p :: LogOf(recorded, p) == LogOf(s, p);
      StartLogs(recorded, a.task, a.job);
    } else {
      assert forall p :: LogOf(Take(s, a), p) == LogOf(s, p);
    }
  }

  lemma EditStepLogs(s: Session, t: TaskId, saves: bool)
    requires Can(s, EditOne(t, saves)) && TaskOk(s, t)
    ensures OthersLogged(s, EditBuffer(s, t, saves), t)
  {
    EditLogged(s, t, saves);
    var s', p := EditBuffer(s, t, saves), s.tasks[t].p;
    var log := LogOf(s, p);
    var init, last := log[..|log| - 1], log[|log| - 1];
    assert log == init + [last] && last.task == t;
    forall q, e: Entry | e.task != t
      ensures e in LogOf(s', q) <==> e in LogOf(s, q)
    {
      if q == p { LastReplaced(init, last, Entry(t, last.changes + [Edited(s.tasks[t].todo[0])]), e); }
    }
  }

  lemma LastReplaced(init: seq<Entry>, last: Entry, longer: Entry, e: Entry)
    requires last.task == longer.task && e.task != last.task
    ensures e in init + [last] <==> e in init + [longer]
  {
  }

  lemma FinishedResult(s: Session, t: TaskId)
    requires Can(s, Finish(t)) && TaskOk(s, t)
    ensures ResultOk(PutBack(s, t), t)
  {
    var s' := PutBack(s, t);
    assert forall p :: LogOf(s', p) == LogOf(s, p);
    match s.tasks[t]
    case Writing(p, _, todo, failed) =>
      var prims := AllPrimitives(s.jobs[t].transaction);
      var n := |prims| - |todo|;
      assert Entry(t, AsChanges(prims[..n])) in LogOf(s', p);
      if !failed { assert prims[..n] == prims; }
    case _ =>
  }

  lemma RefusedResult(s: Session, start: Files, t: TaskId, job: Job)
    requires Inv(s, start) && t !in s.jobs && t in Take(s, Begin(t, job)).results
    ensures ResultOk(Take(s, Begin(t, job)), t)
  {
    TasksHaveJobs(s, start);
    FreshIsUnlogged(s, t);
    assert forall p :: LogOf(Record(s, t, job), p) == LogOf(s, p);
    assert forall p :: LogOf(Take(s, Begin(t, job)), p) == LogOf(s, p);
  }

  lemma TakeResults(s: Session, start: Files, a: Step)
    requires Inv(s, start) && Can(s, a)
    ensures var s' := Take(s, a); forall u <- s'.results :: ResultOk(s', u)
  {
    var s' := Take(s, a);
    TasksHaveJobs(s, start);
    StepsLogOnlyTheirOwn(s, start, a);
    OtherResultsStay(s, start, a);
    forall u <- s'.results
      ensures ResultOk(s', u)
    {
      if u != a.task {
        assert ResultOk(s, u);
        ResultStays(s, s', a.task, u);
      } else if a.Begin? {
        RefusedResult(s, start, u, a.job);
      } else {
        assert TaskOk(s, u);
        FinishedResult(s, u);
      }
    }
  }

  /** Only a finish, or a refusal at the start, gives a result, and only the stepping task's. */
  lemma OtherResultsStay(s: Session, start: Files, a: Step)
    requires Inv(s, start) && Can(s, a)
    ensures var s' := Take(s, a);
            && (forall u <- s'.results :: u != a.task ==> u in s.results && s'.results[u] == s.results[u])
            && (forall u <- s.jobs :: u != a.task ==> u in s'.jobs && s'.jobs[u] == s.jobs[u])
            && (a.task in s'.results ==> a.Begin? || a.Finish?)
  {
    if a.Begin? {
      StartResults(Record(s, a.task, a.job), a.task, a.job);
    } else {
      assert TaskOk(s, a.task);
      WorkResults(s, a);
    }
  }

  lemma StartResults(s: Session, t: TaskId, job: Job)
    ensures Start(s, t, job).jobs == s.jobs
    ensures Start(s, t, job).results - {t} == s.results - {t}
    ensures forall u <- Start(s, t, job).results :: u != t ==>
              u in s.results && Start(s, t, job).results[u] == s.results[u]
  {
  }

  lemma WorkResults(s: Session, a: Step)
    requires Can(s, a) && !a.Begin? && a.task !in s.results
    ensures Take(s, a).jobs == s.jobs
    ensures if a.Finish? then Take(s, a).results.Keys == s.results.Keys + {a.task}
            else Take(s, a).results == s.results && a.task !in s.results
    ensures forall u <- Take(s, a).results :: u != a.task ==> u in s.results && Take(s, a).results[u] == s.results[u]
  {
    match a
    case EditOne(t, saves) => EditEffect(s, t, saves);
    case _ =>
  }

  lemma StartAccounts(s: Session, t: TaskId, job: Job)
    ensures Start(s, t, job).tasks.Keys + Start(s, t, job).results.Keys == s.tasks.Keys + s.results.Keys + {t}
    ensures Start(s, t, job).jobs == s.jobs
  {
  }

  lemma WorkKeepsTasks(s: Session, a: Step)
    requires Can(s, a) && !a.Begin? && !a.Finish?
    ensures Take(s, a).tasks.Keys == s.tasks.Keys
  {
    match a
    case EditOne(t, saves) => EditHolds(s, t, saves);
    case SaveMerged(_, _) =>
    case FlushOne(_, _, _) =>
  }

  lemma TakeAccounts(s: Session, start: Files, a: Step)
    requires Inv(s, start) && Can(s, a)
    ensures Accounted(Take(s, a))
  {
    if a.Begin? {
      StartAccounts(Record(s, a.task, a.job), a.task, a.job);
    } else {
      assert TaskOk(s, a.task);
      WorkResults(s, a);
      if !a.Finish? { WorkKeepsTasks(s, a); }
    }
  }

  lemma TakeKeepsInv(s: Session, start: Files, a: Step)
    requires Inv(s, start) && Can(s, a)
    ensures Inv(Take(s, a), start)
  {
    TakeOwned(s, start, a);
    TakeTexts(s, start, a);
    TakeLog(s, a);
    TakeTasks(s, start, a);
    TakeResults(s, start, a);
    TakeAccounts(s, start, a);
  }

  // ---- Whole runs ----

  predicate Legal(s: Session, steps: seq<Step>)
    decreases steps
  {
    steps != [] ==> Can(s, steps[0]) && Legal(Take(s, steps[0]), steps[1..])
  }

  function Run(s: Session, steps: seq<Step>): Session
    requires Legal(s, steps)
    decreases steps
  {
    if steps == [] then s else Run(Take(s, steps[0]), steps[1..])
  }

  lemma {:induction false} RunKeepsInv(s: Session, start: Files, steps: seq<Step>)
    requires Inv(s, start) && Legal(s, steps)
    ensures Inv(Run(s, steps), start)
    decreases steps
  {
    if steps != [] {
      TakeKeepsInv(s, start, steps[0]);
      RunKeepsInv(Take(s, steps[0]), start, steps[1..]);
    }
  }

  /** A session in which nothing has run yet. */
  lemma QuietStart(open: map<Key, Buffer>, store: Files)
    ensures Inv(Session(open, map[], store, map[], map[], map[]), map p | p in open :: open[p].text)
  {
  }

  /** At every moment of every interleaving, each buffer is in the map or with exactly one task. */
  lemma BuffersAreNeverLost(s: Session, start: Files, steps: seq<Step>, p: Key)
    requires Inv(s, start) && Legal(s, steps) && p in start
    ensures var end := Run(s, steps);
            && (p in end.open <==> !exists t :: Has(end, t, p))
            && (forall t, u :: Has(end, t, p) && Has(end, u, p) ==> t == u)
  {
    RunKeepsInv(s, start, steps);
  }

  ghost predicate Once(log: seq<Entry>, e: Entry) {
    e in log && forall f <- log :: f.task == e.task ==> f == e
  }

  ghost predicate Absent(log: seq<Entry>, t: TaskId) {
    forall e <- log :: e.task != t
  }

  /**
   What a finished task left in the log of its path. A write: all of its transaction once, the edits
   up to a failed save, or nothing. An update: its merge once, saved or not, or nothing.
   */
  ghost predicate JobResult(s: Session, t: TaskId)
    requires t in s.results && t in s.jobs
  {
    match s.jobs[t]
    case Write(p, transaction) =>
      var log, prims := LogOf(s, p), AllPrimitives(transaction);
      (match s.results[t]
       case Ok(_) => Once(log, Entry(t, AsChanges(prims)))
       case Err(SaveFailed) => exists n :: 0 <= n <= |prims| && Once(log, Entry(t, AsChanges(prims[..n])))
       case Err(_) => Absent(log, t))
    case Update(p, update) =>
      (match s.results[t]
       case Ok(_) => Once(LogOf(s, p), Entry(t, [Merged(MergedText(update))]))
       case Err(SaveFailed) => Once(LogOf(s, p), Entry(t, [Merged(MergedText(update))]))
       case Err(_) => Absent(LogOf(s, p), t))
    case FlushAll => s.results[t] == Ok(()) || s.results[t] == Err(SaveFailed)
  }

  /**
   When all tasks are done, the same files are open, and each text is the outcome of running the
   tasks one at a time, in the order in which they took the buffer: every task answered, what each left
   in the log is what its answer says, and nothing else is in the log.
   */
  lemma SessionSerializes(s: Session, start: Files, steps: seq<Step>)
    requires Inv(s, start) && Legal(s, steps) && Run(s, steps).tasks == map[]
    ensures var end := Run(s, steps);
            && end.open.Keys == start.Keys
            && (forall p <- start :: end.open[p].text == Replay(start[p], LogOf(end, p)))
            && end.results.Keys == end.jobs.Keys
            && (forall t <- end.results :: JobResult(end, t))
            && (forall p, e :: e in LogOf(end, p) ==>
                  e.task in end.results && !end.jobs[e.task].FlushAll? && end.jobs[e.task].p == p)
  {
    RunKeepsInv(s, start, steps);
    AllBack(Run(s, steps), start);
    AllResults(Run(s, steps), start);
  }

  lemma AllBack(s: Session, start: Files)
    requires Owned(s, start) && s.tasks == map[]
    ensures s.open.Keys == start.Keys
  {
    assert forall t, p :: !Has(s, t, p);
  }

  lemma AllResults(s: Session, start: Files)
    requires Inv(s, start)
    ensures forall t <- s.results :: t in s.jobs && JobResult(s, t)
  {
    forall t <- s.results
      ensures t in s.jobs && JobResult(s, t)
    {
      assert ResultOk(s, t);
      ResultsAreUnique(s, t);
    }
  }

  lemma OnceByTask(s: Session, p: Key, e: Entry)
    requires LogOk(s) && e in LogOf(s, p)
    ensures Once(LogOf(s, p), e)
  {
    var log := LogOf(s, p);
    var i :| 0 <= i < |log| && log[i] == e;
    forall f <- log | f.task == e.task
      ensures f == e
    {
      var j :| 0 <= j < |log| && log[j] == f;
      assert i < j || j < i || i == j;
    }
  }

  lemma ResultsAreUnique(s: Session, t: TaskId)
    requires LogOk(s) && t in s.results && ResultOk(s, t)
    ensures JobResult(s, t)
  {
    match s.jobs[t]
    case Write(p, transaction) =>
      var prims := AllPrimitives(transaction);
      if s.results[t].Ok? {
        OnceByTask(s, p, Entry(t, AsChanges(prims)));
      } else if s.results[t] == Err(SaveFailed) {
        var n :| 0 <= n <= |prims| && Entry(t, AsChanges(prims[..n])) in LogOf(s, p);
        OnceByTask(s, p, Entry(t, AsChanges(prims[..n])));
      }
    case Update(p, update) =>
      if s.results[t].Ok? || s.results[t] == Err(SaveFailed) {
        OnceByTask(s, p, Entry(t, [Merged(MergedText(update))]));
      }
    case FlushAll =>
  }

  /** Every unfinished task has a step to take, whatever the others do. */
  lemma TasksNeverStick(s: Session, start: Files, t: TaskId)
    requires Inv(s, start) && t in s.tasks
    ensures exists a :: Can(s, a) && a.task == t
  {
    assert TaskOk(s, t);
    match s.tasks[t]
    case Writing(_, _, todo, failed) =>
      if failed || todo == [] {
        assert Can(s, Finish(t));
      } else {
        var prims := AllPrimitives(s.jobs[t].transaction);
        PrimitivesArePlain(s.jobs[t].transaction);
        assert todo[0] == prims[|prims| - |todo|] && todo[0] in prims;
        assert Can(s, EditOne(t, true));
      }
    case Updating(_, _, saved) =>
      assert if saved.Some? then Can(s, Finish(t)) else Can(s, SaveMerged(t, true));
    case Flushing(files, pending, _) =>
      if pending == {} {
        assert Can(s, Finish(t));
      } else {
        var p :| p in pending;
        assert Can(s, FlushOne(t, p, true));
      }
  }

  /**
   A job is refused as not open exactly when its path is not a file of the session or is with a task,
   and as undecodable exactly when it is an update its open text has no meaning for.
   */
  lemma RefusedIffAway(s: Session, start: Files, t: TaskId, job: Job)
    requires Inv(s, start) && t !in s.jobs && !job.FlushAll?
    ensures var s' := Take(s, Begin(t, job));
            && (t in s'.results && s'.results[t] == Err(NotOpen)
                <==> job.p !in start || exists u :: Has(s, u, job.p))
            && (t in s'.results && s'.results[t] == Err(BadUpdate)
                <==> job.p in s.open && job.Update? && job.update(s.open[job.p].text) == None)
            && (t in s'.results ==> s'.results[t] == Err(NotOpen) || s'.results[t] == Err(BadUpdate))
  {
    TasksHaveJobs(s, start);
  }

  /** A job that is not refused leaves with its buffer, an update with the text already merged; a flush with all. */
  lemma AcceptedJobTakes(s: Session, start: Files, t: TaskId, job: Job)
    requires Inv(s, start) && t !in s.jobs
    ensures var s' := Take(s, Begin(t, job));
            && s'.store == s.store && (t in s'.tasks <==> t !in s'.results)
            && (t in s'.results ==> s'.open == s.open && s'.tasks == s.tasks)
            && (t in s'.tasks ==> Takes(s, s', t, job))
  {
    TasksHaveJobs(s, start);
    StartTakes(Record(s, t, job), t, job);
  }

  ghost predicate Takes(s: Session, s': Session, t: TaskId, job: Job)
    requires t in s'.tasks
  {
    match job
    case Write(p, _) => p in s.open && Held(s'.tasks[t]) == map[p := s.open[p]] && s'.open == s.open - {p}
    case Update(p, update) =>
      && p in s.open && update(s.open[p].text).Some? && s'.open == s.open - {p}
      && Held(s'.tasks[t]) == map[p := Buffer(update(s.open[p].text).value, s.open[p].unsaved)]
    case FlushAll => Held(s'.tasks[t]) == s.open && s'.open == map[]
  }

  lemma StartTakes(s: Session, t: TaskId, job: Job)
    requires t !in s.tasks && t !in s.results
    ensures var s' := Start(s, t, job);
            && s'.store == s.store && (t in s'.tasks <==> t !in s'.results)
            && (t in s'.results ==> s'.open == s.open && s'.tasks == s.tasks)
            && (t in s'.tasks ==> Takes(s, s', t, job))
  {
    if !job.FlushAll? && Opens(s, job) {
      var task := FirstTask(s, job);
      assert Start(s, t, job).tasks[t] == task;
      assert Held(task) == map[job.p := task.buffer];
    }
  }

  /** As long as saves succeed, a transaction is persisted through the same batched path as a guard's. */
  lemma EditIsBatchedAsInGuard(s: Session, t: TaskId)
    requires Can(s, EditOne(t, true)) && Primitives(s.tasks[t].todo[0]) == [s.tasks[t].todo[0]]
    ensures var s', task := EditBuffer(s, t, true), s.tasks[t];
            && t in s'.tasks && s'.tasks[t].Writing? && !s'.tasks[t].failed
            && s'.tasks[t].buffer == ApplyOp(task.buffer, s.store, task.p, task.todo[0]).0
            && s'.store == ApplyOp(task.buffer, s.store, task.p, task.todo[0]).1
  {
    BatchedEdit(s.tasks[t].buffer, s.store, s.tasks[t].p, s.tasks[t].todo[0]);
  }

  lemma BatchedEdit(b: Buffer, m: Files, p: Key, op: Operation)
    requires !op.Swap? && Primitives(op) == [op]
    ensures var text := Edit(b.text, op);
            ApplyOp(b, m, p, op)
            == if SavesNow(b, op) then (Buffer(text, 0), m[p := text]) else (Buffer(text, b.unsaved + 1), m)
  {
  }

  // ---- Saves and answers ----

  /** The steps that save: all but the first four single-character edits since the last save. */
  predicate DueSave(s: Session, a: Step)
    requires Can(s, a)
  {
    match a
    case EditOne(t, _) =>
      var op := s.tasks[t].todo[0];
      (if op.Insert? then |op.content| != 1 else op.length != 1) || s.tasks[t].buffer.unsaved >= 4
    case SaveMerged(_, _) => true
    case FlushOne(_, _, _) => true
    case _ => false
  }

  predicate SaveFails(s: Session, a: Step)
    requires Can(s, a)
  {
    DueSave(s, a) && !a.saves
  }

  /** A save that goes through stores the buffer's text and counts from zero; nothing else writes the store. */
  lemma SaveReachesStore(s: Session, a: Step)
    requires Can(s, a)
    ensures var s' := Take(s, a);
            if DueSave(s, a) && a.saves then
              var p := if a.FlushOne? then a.p else s.tasks[a.task].p;
              && a.task in s'.tasks && p in Held(s'.tasks[a.task])
              && s'.store == s.store[p := Held(s'.tasks[a.task])[p].text] && Held(s'.tasks[a.task])[p].unsaved == 0
            else s'.store == s.store
  {
  }

  /** A save that failed somewhere in the task. */
  predicate Failed(t: Task) {
    match t
    case Writing(_, _, _, failed) => failed
    case Updating(_, _, saved) => saved == Some(false)
    case Flushing(_, _, failed) => failed
  }

  lemma SaveMarksTask(s: Session, a: Step)
    requires Can(s, a) && !a.Begin? && !a.Finish?
    ensures a.task in s.tasks && a.task in Take(s, a).tasks
    ensures Failed(Take(s, a).tasks[a.task]) <==> Failed(s.tasks[a.task]) || SaveFails(s, a)
  {
  }

  lemma OtherTaskStays(s: Session, start: Files, a: Step, t: TaskId)
    requires Inv(s, start) && Can(s, a) && t in s.tasks && a.task != t
    ensures t in Take(s, a).tasks && Take(s, a).tasks[t] == s.tasks[t]
  {
    if a.Begin? {
      StartKeepsTasks(Record(s, a.task, a.job), a.task, a.job, t);
    } else {
      StepsAreLocal(s, a);
      SameTask(s.tasks, Take(s, a).tasks, a.task, t);
    }
  }

  lemma StartKeepsTasks(s: Session, t: TaskId, job: Job, u: TaskId)
    requires u in s.tasks && u != t
    ensures u in Start(s, t, job).tasks && Start(s, t, job).tasks[u] == s.tasks[u]
  {
  }

  lemma SameTask(tasks: map<TaskId, Task>, after: map<TaskId, Task>, t: TaskId, u: TaskId)
    requires after - {t} == tasks - {t} && u in tasks && u != t
    ensures u in after && after[u] == tasks[u]
  {
    assert u in tasks - {t} && u in after - {t};
    assert tasks[u] == (tasks - {t})[u] == (after - {t})[u] == after[u];
  }

  /** Every save the task asked for during the run went through. */
  ghost predicate NoSaveFails(s: Session, steps: seq<Step>, t: TaskId)
    requires Legal(s, steps)
    decreases steps
  {
    steps != [] ==>
      (steps[0].task == t ==> !SaveFails(s, steps[0])) && NoSaveFails(Take(s, steps[0]), steps[1..], t)
  }

  lemma {:induction false} FailedOverRuns(s: Session, start: Files, steps: seq<Step>, t: TaskId)
    requires Inv(s, start) && Legal(s, steps) && Finish(t) !in steps && t in s.tasks
    ensures var end := Run(s, steps);
            t in end.tasks && (Failed(end.tasks[t]) <==> Failed(s.tasks[t]) || !NoSaveFails(s, steps, t))
    decreases steps
  {
    if steps != [] {
      TasksHaveJobs(s, start);
      if steps[0].task == t { SaveMarksTask(s, steps[0]); } else { OtherTaskStays(s, start, steps[0], t); }
      TakeKeepsInv(s, start, steps[0]);
      FailedOverRuns(Take(s, steps[0]), start, steps[1..], t);
    }
  }

  /** A job that was not refused answers Ok exactly if every save it asked for went through, whatever else runs. */
  lemma AnswersOkIff(s: Session, start: Files, steps: seq<Step>, t: TaskId, job: Job)
    requires Inv(s, start) && t !in s.jobs && t in Take(s, Begin(t, job)).tasks && Finish(t) !in steps
    requires Legal(Take(s, Begin(t, job)), steps)
    requires Can(Run(Take(s, Begin(t, job)), steps), Finish(t))
    ensures var begun := Take(s, Begin(t, job));
            var end := Take(Run(begun, steps), Finish(t));
            && t in end.results
            && end.results[t] == if NoSaveFails(begun, steps, t) then Ok(()) else Err(SaveFailed)
  {
    var begun := Take(s, Begin(t, job));
    TakeKeepsInv(s, start, Begin(t, job));
    TasksHaveJobs(s, start);
    FailedOverRuns(begun, start, steps, t);
    FinishSays(Run(begun, steps), t);
  }

  lemma FinishSays(s: Session, t: TaskId)
    requires Can(s, Finish(t))
    ensures var s' := Take(s, Finish(t));
            t in s'.results && s'.results[t] == if Failed(s.tasks[t]) then Err(SaveFailed) else Ok(())
  {
    if s.tasks[t].Updating? { assert s.tasks[t].saved.value ==> s.tasks[t].saved == Some(true); }
  }

  lemma {:induction false} FlushFailsIff(s: Session, start: Files, steps: seq<Step>, t: TaskId)
    requires Inv(s, start) && Legal(s, steps) && Finish(t) !in steps && t in s.tasks && s.tasks[t].Flushing?
    ensures NoSaveFails(s, steps, t) <==> forall a <- steps :: a.FlushOne? && a.task == t ==> a.saves
    decreases steps
  {
    if steps != [] {
      var a := steps[0];
      assert steps == [a] + steps[1..] && a in steps;
      FlushStep(s, start, a, t);
      TakeKeepsInv(s, start, a);
      FlushFailsIff(Take(s, a), start, steps[1..], t);
    }
  }

  /** A flush that is under way steps by its saves alone. */
  lemma FlushStep(s: Session, start: Files, a: Step, t: TaskId)
    requires Inv(s, start) && Can(s, a) && a != Finish(t) && t in s.tasks && s.tasks[t].Flushing?
    ensures t in Take(s, a).tasks && Take(s, a).tasks[t].Flushing?
    ensures a.task == t ==> a.FlushOne? && (SaveFails(s, a) <==> !a.saves)
  {
    TasksHaveJobs(s, start);
    if a.task != t { OtherTaskStays(s, start, a, t); }
  }

  /** A flush answers Ok exactly if the save of every buffer it took went through, and SaveFailed otherwise. */
  lemma FlushAnswersOkIff(s: Session, start: Files, steps: seq<Step>, t: TaskId)
    requires Inv(s, start) && t !in s.jobs && Finish(t) !in steps
    requires Legal(Take(s, Begin(t, FlushAll)), steps)
    requires Can(Run(Take(s, Begin(t, FlushAll)), steps), Finish(t))
    ensures var end := Take(Run(Take(s, Begin(t, FlushAll)), steps), Finish(t));
            && t in end.results
            && end.results[t] == if forall a <- steps :: a.FlushOne? && a.task == t ==> a.saves then Ok(())
                                 else Err(SaveFailed)
  {
    var begun := Take(s, Begin(t, FlushAll));
    TakeKeepsInv(s, start, Begin(t, FlushAll));
    AnswersOkIff(s, start, steps, t, FlushAll);
    FlushFailsIff(begun, start, steps, t);
  }

  // ---- What a flush guarantees ----

  lemma FlushKeepsFiles(s: Session, a: Step, t: TaskId)
    requires Can(s, a) && a != Finish(t)
    requires t in s.tasks && s.tasks[t].Flushing? && TaskOk(s, t)
    ensures var s' := Take(s, a);
            && t in s'.tasks && s'.tasks[t].Flushing? && s'.tasks[t].files.Keys == s.tasks[t].files.Keys
            && forall p <- s.tasks[t].files :: s'.tasks[t].files[p].text == s.tasks[t].files[p].text
  {
    if a.Begin? {
      assert a.task != t;
    } else if a.task == t {
      FlushSaves(s, t, a.p, a.saves);
    } else {
      StepsAreLocal(s, a);
      assert t in s.tasks - {a.task} && t in Take(s, a).tasks - {a.task};
      assert s.tasks[t] == (s.tasks - {a.task})[t] == Take(s, a).tasks[t];
    }
  }

  lemma FlushSaves(s: Session, t: TaskId, p: Key, saves: bool)
    requires Can(s, FlushOne(t, p, saves))
    ensures var s' := FlushBuffer(s, t, p, saves);
            && t in s'.tasks && s'.tasks[t].Flushing? && s'.tasks[t].files.Keys == s.tasks[t].files.Keys
            && forall q <- s.tasks[t].files :: s'.tasks[t].files[q].text == s.tasks[t].files[q].text
  {
    assert s.tasks[t].files.Keys + {p} == s.tasks[t].files.Keys;
  }

  lemma {:induction false} FlushRunKeepsFiles(s: Session, start: Files, steps: seq<Step>, t: TaskId)
    requires Inv(s, start) && Legal(s, steps) && Finish(t) !in steps
    requires t in s.tasks && s.tasks[t].Flushing?
    ensures var end := Run(s, steps);
            && Inv(end, start) && t in end.tasks && end.tasks[t].Flushing?
            && end.tasks[t].files.Keys == s.tasks[t].files.Keys
            && forall p <- s.tasks[t].files :: end.tasks[t].files[p].text == s.tasks[t].files[p].text
    decreases steps
  {
    if steps != [] {
      assert TaskOk(s, t);
      FlushKeepsFiles(s, steps[0], t);
      TakeKeepsInv(s, start, steps[0]);
      FlushRunKeepsFiles(Take(s, steps[0]), start, steps[1..], t);
    }
  }

  /**
   A flush that answers Ok, whatever ran meanwhile: every buffer that was in the map when it began
   is back in the map with the text it had then, and the store holds that text. A buffer that was
   away with another task is not covered.
   */
  lemma FlushStoresWhatItTook(s: Session, start: Files, steps: seq<Step>, t: TaskId)
    requires Inv(s, start) && t !in s.jobs && Finish(t) !in steps
    requires Legal(Take(s, Begin(t, FlushAll)), steps)
    requires Can(Run(Take(s, Begin(t, FlushAll)), steps), Finish(t))
    ensures var end := Take(Run(Take(s, Begin(t, FlushAll)), steps), Finish(t));
            end.results[t] == Ok(()) ==>
              forall p <- s.open :: p in end.open && p in end.store
                                    && end.open[p].text == end.store[p] == s.open[p].text && end.open[p].unsaved == 0
  {
    var begun := Take(s, Begin(t, FlushAll));
    TakeKeepsInv(s, start, Begin(t, FlushAll));
    FlushRunKeepsFiles(begun, start, steps, t);
    var last := Run(begun, steps);
    assert TaskOk(last, t);
    assert begun.tasks[t].files == s.open;
    forall p <- s.open
      ensures p in last.tasks[t].files && last.tasks[t].files[p].text == s.open[p].text
    {
      assert p in last.tasks[t].files.Keys;
    }
  }

  // ---- The functions themselves, when nothing runs in between ----

  /** Whether edit `i` of a transaction asks for a save, as long as the saves before it go through. */
  predicate SavesAt(b: Buffer, m: Files, p: Key, prims: Transaction, i: nat)
    requires i < |prims|
  {
    SavesNow(ApplyOps(b, m, p, prims[..i]).0, prims[i])
  }

  /** Every save among the first `n` edits goes through, by what `works` says of each. */
  ghost predicate SavesWork(n: nat, b: Buffer, m: Files, p: Key, prims: Transaction, works: nat -> bool)
    requires n <= |prims|
  {
    forall i: nat :: i < n && SavesAt(b, m, p, prims, i) ==> works(i)
  }

  /** The save of edit `n` failed after those before it went through. */
  ghost predicate Broken(n: int, b: Buffer, m: Files, p: Key, prims: Transaction, works: nat -> bool, m': Files) {
    && 0 < n <= |prims| && SavesWork(n - 1, b, m, p, prims, works)
    && SavesAt(b, m, p, prims, n - 1) && !works(n - 1) && m' == ApplyOps(b, m, p, prims[..n - 1]).1
  }

  /**
   The first `n` edits of a transaction are in the buffer. If every save goes through these are all, and
   buffer and store are as the batched path leaves them; else the edit whose save failed is the last
   one, and in the buffer alone.
   */
  ghost predicate StoppedAfter(n: int, b: Buffer, m: Files, p: Key, transaction: Transaction, works: nat -> bool,
                               b': Buffer, m': Files, r: Result<(), Failure>) {
    var prims := AllPrimitives(transaction);
    && 0 <= n <= |prims| && b'.text == EditAll(b.text, prims[..n])
    && if SavesWork(|prims|, b, m, p, prims, works)
       then r == Ok(()) && n == |prims| && (b', m') == ApplyOps(b, m, p, transaction)
       else r == Err(SaveFailed) && Broken(n, b, m, p, prims, works, m')
  }

  lemma OneMorePrimitive(b: Buffer, m: Files, p: Key, prims: Transaction, i: nat)
    requires i < |prims|
    ensures EditAll(b.text, prims[..i + 1]) == Edit(EditAll(b.text, prims[..i]), prims[i])
    ensures var (b', m') := ApplyOps(b, m, p, prims[..i]);
            ApplyOps(b, m, p, prims[..i + 1]) == ApplyOp(b', m', p, prims[i])
  {
    assert prims[..i + 1] == prims[..i] + [prims[i]];
    OneMoreEdit(b.text, prims[..i], prims[i]);
    OneMoreOp(b, m, p, prims[..i], prims[i]);
  }

  lemma OneMoreOp(b: Buffer, m: Files, p: Key, done: Transaction, op: Operation)
    ensures var (b', m') := ApplyOps(b, m, p, done); ApplyOps(b, m, p, done + [op]) == ApplyOp(b', m', p, op)
  {
    ApplyOpsAppends(b, m, p, done, [op]);
    assert [op][1..] == [];
  }

  /** The loop over the edits has made `i` of them: all their saves worked, or the last one's did not. */
  ghost predicate Reached(i: nat, b: Buffer, m: Files, p: Key, prims: Transaction, works: nat -> bool,
                          b': Buffer, m': Files, r: Result<(), Failure>)
    requires i <= |prims|
  {
    && b'.text == EditAll(b.text, prims[..i])
    && if r == Ok(()) then SavesWork(i, b, m, p, prims, works) && (b', m') == ApplyOps(b, m, p, prims[..i])
       else r == Err(SaveFailed) && Broken(i, b, m, p, prims, works, m')
  }

  lemma ReachesNext(i: nat, b: Buffer, m: Files, p: Key, prims: Transaction, works: nat -> bool,
                    b1: Buffer, m1: Files, b2: Buffer, m2: Files, r: Result<(), Failure>)
    requires i < |prims| && Reached(i, b, m, p, prims, works, b1, m1, Ok(()))
    requires b2.text == Edit(b1.text, prims[i])
    requires r == if SavesNow(b1, prims[i]) && !works(i) then Err(SaveFailed) else Ok(())
    requires if r == Ok(()) then (b2, m2) == ApplyOp(b1, m1, p, prims[i]) else m2 == m1
    ensures Reached(i + 1, b, m, p, prims, works, b2, m2, r)
  {
    OneMorePrimitive(b, m, p, prims, i);
    if r == Ok(()) {
      forall k: nat | k < i + 1 && SavesAt(b, m, p, prims, k)
        ensures works(k)
      {
        if k == i { assert SavesNow(b1, prims[i]); }
      }
    }
  }

  lemma ReachedEnd(n: nat, b: Buffer, m: Files, p: Key, transaction: Transaction, works: nat -> bool,
                   b': Buffer, m': Files, r: Result<(), Failure>)
    requires n <= |AllPrimitives(transaction)|
    requires Reached(n, b, m, p, AllPrimitives(transaction), works, b', m', r)
    requires r == Ok(()) ==> n == |AllPrimitives(transaction)|
    ensures StoppedAfter(n, b, m, p, transaction, works, b', m', r)
  {
    var prims := AllPrimitives(transaction);
    assert prims[..|prims|] == prims;
    TransactionIsItsPrimitives(b, m, p, transaction);
  }

  /** The buffers in `done` were attempted: those whose save works are stored, all else is as before. */
  ghost predicate FlushedSoFar(before: map<Key, Buffer>, m: Files, files: map<Key, Buffer>, store: Files,
                               done: set<Key>, works: Key -> bool) {
    && files.Keys == before.Keys && done <= before.Keys
    && (forall p <- before ::
          if p in done && works(p) then
            files[p] == Buffer(before[p].text, 0) && p in store && store[p] == before[p].text
          else files[p] == before[p])
    && (forall p :: !(p in done && works(p)) ==> (p in store <==> p in m) && (p in store ==> store[p] == m[p]))
  }

  lemma OneMoreFlushed(before: map<Key, Buffer>, m: Files, files: map<Key, Buffer>, store: Files,
                       done: set<Key>, works: Key -> bool, p: Key)
    requires FlushedSoFar(before, m, files, store, done, works) && p in before && p !in done
    ensures if works(p) then
              FlushedSoFar(before, m, files[p := Buffer(files[p].text, 0)], store[p := files[p].text], done + {p},
                           works)
            else FlushedSoFar(before, m, files[p := files[p]], store, done + {p}, works)
  {
    assert files.Keys + {p} == before.Keys;
  }

  class BrowserState {
    var fileState: map<Key, Buffer>
    var store: Files

    constructor ()
      ensures fileState == map[] && store == map[]
    {
      fileState, store := map[], map[];
    }

    /** One save; `works` is what the outside world makes of it. */
    method Save(path: Key, file: Buffer, works: bool) returns (after: Buffer)
      modifies this`store
      ensures after == if works then Buffer(file.text, 0) else file
      ensures store == if works then old(store)[path := file.text] else old(store)
    {
      after := file;
      if works {
        store := store[path := file.text];
        after := Buffer(file.text, 0);
      }
    }

    method ApplyPrimitive(path: Key, file: Buffer, op: Operation, works: bool)
      returns (r: Result<(), Failure>, after: Buffer)
      requires !op.Swap? && Primitives(op) == [op]
      modifies this`store
      ensures after.text == Edit(file.text, op)
      ensures r == if SavesNow(file, op) && !works then Err(SaveFailed) else Ok(())
      ensures if r == Ok(()) then (after, store) == ApplyOp(file, old(store), path, op) else store == old(store)
    {
      r, after := Ok(()), Buffer(Edit(file.text, op), if IsSingle(op) then file.unsaved + 1 else file.unsaved);
      if SavesNow(file, op) {
        after := Save(path, after, works);
        if !works { r := Err(SaveFailed); }
      }
    }

    /** The loop of `apply_transaction`, which stops at the first failed save. */
    method ApplyTransaction(path: Key, file: Buffer, transaction: Transaction, works: nat -> bool)
      returns (r: Result<(), Failure>, after: Buffer, ghost n: int)
      modifies this`store
      ensures StoppedAfter(n, file, old(store), path, transaction, works, after, store, r)
    {
      var prims := AllPrimitives(transaction);
      PrimitivesArePlain(transaction);
      var i := 0;
      r, after := Ok(()), file;
      assert prims[..0] == [];
      while i < |prims| && r.Ok?
        invariant 0 <= i <= |prims|
        invariant Reached(i, file, old(store), path, prims, works, after, store, r)
        decreases |prims| - i
      {
        ghost var before, m := after, store;
        assert prims[i] in prims;
        r, after := ApplyPrimitive(path, after, prims[i], works(i));
        ReachesNext(i, file, old(store), path, prims, works, before, m, after, store, r);
        i := i + 1;
      }
      n := i;
      ReachedEnd(n, file, old(store), path, transaction, works, after, store, r);
    }

    /** `write_transaction_to_file`; any save may fail. The buffer always returns to the map. */
    method WriteTransactionToFile(path: Key, transaction: Transaction, works: nat -> bool)
      returns (r: Result<(), Failure>, ghost n: int)
      modifies this
      ensures fileState.Keys == old(fileState).Keys && fileState - {path} == old(fileState) - {path}
      ensures path !in old(fileState) ==> r == Err(NotOpen) && store == old(store)
      ensures path in old(fileState) ==>
                StoppedAfter(n, old(fileState)[path], old(store), path, transaction, works, fileState[path], store, r)
    {
      if path !in fileState {
        return Err(NotOpen), 0;
      }
      var file := fileState[path];
      fileState := fileState - {path};
      var after;
      r, after, n := ApplyTransaction(path, file, transaction, works);
      fileState := fileState[path := after];
    }

    /** `apply_update_to_file`: the merge stays in the buffer even when its save fails. */
    method ApplyUpdateToFile(path: Key, update: string -> Option<string>, works: bool)
      returns (r: Result<(), Failure>)
      modifies this
      ensures fileState.Keys == old(fileState).Keys && fileState - {path} == old(fileState) - {path}
      ensures store - {path} == old(store) - {path}
      ensures if path !in old(fileState) then r == Err(NotOpen) && store == old(store)
              else match update(old(fileState)[path].text)
                case None => r == Err(BadUpdate) && fileState == old(fileState) && store == old(store)
                case Some(text) =>
                  && r == (if works then Ok(()) else Err(SaveFailed)) && fileState[path].text == text
                  && (if works then path in store && store[path] == text && fileState[path].unsaved == 0
                      else store == old(store) && fileState[path].unsaved == old(fileState)[path].unsaved)
    {
      if path !in fileState {
        return Err(NotOpen);
      }
      var file := fileState[path];
      fileState := fileState - {path};
      var merged := update(file.text);
      if merged == None {
        r := Err(BadUpdate);
      } else {
        file := Save(path, Buffer(merged.value, file.unsaved), works);
        r := if works then Ok(()) else Err(SaveFailed);
      }
      fileState := fileState[path := file];
    }

    /** `flush_all`: every buffer is attempted and put back, whatever fails. */
    method FlushEverything(works: Key -> bool) returns (r: Result<(), Failure>)
      modifies this
      ensures r == if forall p <- old(fileState).Keys :: works(p) then Ok(()) else Err(SaveFailed)
      ensures fileState.Keys == old(fileState).Keys
      ensures forall p <- fileState ::
                if works(p) then
                  fileState[p] == Buffer(old(fileState)[p].text, 0) && p in store && store[p] == fileState[p].text
                else
                  && fileState[p] == old(fileState)[p]
                  && (p in store <==> p in old(store)) && (p in store ==> store[p] == old(store)[p])
      ensures forall p :: p !in fileState ==>
                (p in store <==> p in old(store)) && (p in store ==> store[p] == old(store)[p])
    {
      var files := fileState;
      fileState := map[];
      r := Ok(());
      var pending := files.Keys;
      while pending != {}
        invariant pending <= files.Keys == old(fileState).Keys && fileState == map[]
        invariant r == if forall p <- files.Keys - pending :: works(p) then Ok(()) else Err(SaveFailed)
        invariant FlushedSoFar(old(fileState), old(store), files, store, files.Keys - pending, works)
        decreases pending
      {
        var p :| p in pending;
        ghost var done := files.Keys - pending;
        OneMoreFlushed(old(fileState), old(store), files, store, done, works, p);
        var file := Save(p, files[p], works(p));
        files := files[p := file];
        if !works(p) { r := Err(SaveFailed); }
        pending := pending - {p};
        assert files.Keys - pending == done + {p};
      }
      assert files.Keys - pending == old(fileState).Keys;
      fileState := fileState + files;
    }

    method ReadFile(path: Key) returns (contents: Option<string>)
      ensures contents == if path in fileState then Some(fileState[path].text) else None
    {
      contents := if path in fileState then Some(fileState[path].text) else None;
    }
  }
}
