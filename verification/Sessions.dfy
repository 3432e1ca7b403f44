/**
 The `saps.auth_sessions` table and the `saps.ping` procedure.

 A row lives in a slot that stays its own for as long as the row lives, so that a session can be
 followed through rotations of its id. Slots and ids are never handed out twice. The clock counts
 microseconds, the resolution of a Postgres TIMESTAMP, and each statement or procedure call is
 one atomic step that sees one value of NOW().
 */
module Sessions {
  import opened Common

  const SECOND := 1_000_000
  const MINUTE := 60 * SECOND
  const GRACE := 10 * SECOND
  const ROTATE_AFTER := 5 * MINUTE

  type Slot = nat
  type Uuid = nat
  type Meta = map<string, string>

  datatype Row = Row(id: Uuid, oldId: Uuid, role: string, dateCreated: int, lastInteracted: int,
                     timeMinted: int, meta: Option<Meta>)

  datatype Db = Db(rows: map<Slot, Row>, nextSlot: Slot, nextId: Uuid, now: int)

  predicate Matches(r: Row, p: Uuid) {
    r.id == p || r.oldId == p
  }

  /** Distinct rows share none of their ids, current or old, and nothing from the supply is in use. */
  ghost predicate Inv(db: Db) {
    && (forall k <- db.rows :: k < db.nextSlot && db.rows[k].id < db.nextId && db.rows[k].oldId < db.nextId)
    && (forall k <- db.rows, p :: Matches(db.rows[k], p) ==> Sole(db, k, p))
  }

  /** No row but the one in slot `k` answers to `p`. */
  ghost predicate Sole(db: Db, k: Slot, p: Uuid) {
    forall j <- db.rows :: Matches(db.rows[j], p) ==> j == k
  }

  ghost predicate Resolves(db: Db, p: Uuid) {
    exists k <- db.rows :: Matches(db.rows[k], p)
  }

  /** The slot of the row that answers to `p`; only one can, by `Inv`. */
  ghost function Holder(db: Db, p: Uuid): (k: Slot)
    requires Resolves(db, p)
  {
    var k :| k in db.rows && Matches(db.rows[k], p); k
  }

  /** The row whose current id is `p`. */
  ghost function Lookup(db: Db, p: Uuid): (found: Option<Row>)
    ensures found.Some? <==> exists k <- db.rows :: db.rows[k].id == p
    ensures found.Some? ==> found.value.id == p && exists k <- db.rows :: db.rows[k] == found.value
  {
    if exists k <- db.rows :: db.rows[k].id == p then
      var k :| k in db.rows && db.rows[k].id == p; Some(db.rows[k])
    else None
  }

  // ---- What one ping does to the one row it addresses ----

  datatype Verdict = Expired | Stale | Touched | Rotated

  predicate Idle(r: Row, minutes: int, now: int) {
    r.lastInteracted < now - minutes * MINUTE
  }

  function Judge(r: Row, minutes: int, p: Uuid, now: int): Verdict {
    if Idle(r, minutes, now) then Expired
    else if r.id != p then (if r.timeMinted < now - GRACE then Stale else Touched)
    else if r.dateCreated < now - ROTATE_AFTER then Rotated
    else Touched
  }

  function Rotate(r: Row, newId: Uuid, now: int): Row {
    r.(oldId := r.id, id := newId, dateCreated := now, lastInteracted := now, timeMinted := now)
  }

  ghost function AfterPing(db: Db, minutes: int, p: Uuid): Db {
    if !Resolves(db, p) then db
    else
      var k := Holder(db, p);
      var r := db.rows[k];
      match Judge(r, minutes, p, db.now)
      case Expired => db.(rows := db.rows - {k})
      case Stale => db
      case Touched => db.(rows := db.rows[k := r.(lastInteracted := db.now)])
      case Rotated => db.(rows := db.rows[k := Rotate(r, db.nextId, db.now)], nextId := db.nextId + 1)
  }

  /** The row a ping hands back, or None for NULL. */
  ghost function PingAnswer(db: Db, minutes: int, p: Uuid): Option<Row> {
    if !Resolves(db, p) then None
    else
      var k := Holder(db, p);
      match Judge(db.rows[k], minutes, p, db.now)
      case Expired => None
      case Stale => None
      case Touched => Some(AfterPing(db, minutes, p).rows[k])
      case Rotated => Some(AfterPing(db, minutes, p).rows[k])
  }

  // ---- Whole runs ----

  /** Every statement of the source that can touch the table, and the passing of time. */
  datatype Event =
    | Tick(elapsed: nat)
    | Create(role: string, dateCreated: int, lastInteracted: int, meta: Option<Meta>)
    | Ping(minutes: int, p: Uuid)
    | Delete(doomed: set<Slot>)
    | SetMeta(slot: Slot, meta: Option<Meta>)

  ghost function Apply(db: Db, e: Event): Db {
    match e
    case Tick(elapsed) => db.(now := db.now + elapsed)
    case Create(role, created, interacted, meta) =>
      var row := Row(db.nextId, db.nextId, role, created, interacted, created, meta);
      db.(rows := db.rows[db.nextSlot := row], nextSlot := db.nextSlot + 1, nextId := db.nextId + 1)
    case Ping(minutes, p) => AfterPing(db, minutes, p)
    case Delete(doomed) => db.(rows := db.rows - doomed)
    case SetMeta(slot, meta) =>
      if slot in db.rows then db.(rows := db.rows[slot := db.rows[slot].(meta := meta)]) else db
  }

  ghost function Run(db: Db, events: seq<Event>): Db
    decreases events
  {
    if events == [] then db else Run(Apply(db, events[0]), events[1..])
  }

  lemma HolderIsSole(db: Db, k: Slot, p: Uuid)
    requires Inv(db) && k in db.rows && Matches(db.rows[k], p)
    ensures Resolves(db, p) && Holder(db, p) == k
  {
    assert Sole(db, k, p);
  }

  /** Each statement keeps the ids of distinct rows apart, and never hands a slot or id out again. */
  lemma ApplyKeepsInv(db: Db, e: Event)
    requires Inv(db)
    ensures Inv(Apply(db, e))
    ensures db.nextId <= Apply(db, e).nextId && db.nextSlot <= Apply(db, e).nextSlot
    ensures db.now <= Apply(db, e).now
  {
    var db' := Apply(db, e);
    forall k <- db'.rows, p | Matches(db'.rows[k], p)
      ensures Sole(db', k, p)
    {
      forall j <- db'.rows | Matches(db'.rows[j], p)
        ensures j == k
      {
        if k in db.rows && j in db.rows {
          assert Matches(db.rows[k], db.rows[k].id) && Matches(db.rows[k], db.rows[k].oldId);
          assert Matches(db.rows[j], db.rows[j].id) && Matches(db.rows[j], db.rows[j].oldId);
          assert Sole(db, k, db.rows[k].id) && Sole(db, k, db.rows[k].oldId);
        }
      }
    }
  }

  /** Identity over every run: at any time a lookup `id = p OR old_id = p` finds at most one row. */
  lemma {:induction false} IdentityOverRuns(db: Db, events: seq<Event>)
    requires Inv(db)
    ensures Inv(Run(db, events))
    ensures db.nextId <= Run(db, events).nextId && db.now <= Run(db, events).now
    decreases events
  {
    if events != [] {
      ApplyKeepsInv(db, events[0]);
      IdentityOverRuns(Apply(db, events[0]), events[1..]);
    }
  }

  // ---- What a ping does and answers, row by row ----

  /** A ping deletes a row exactly if the row answers to the id and was idle for longer than the limit. */
  lemma PingDeletesIff(db: Db, minutes: int, p: Uuid, k: Slot)
    requires Inv(db) && k in db.rows
    ensures k !in AfterPing(db, minutes, p).rows
            <==> (db.rows[k].id == p || db.rows[k].oldId == p)
                 && db.rows[k].lastInteracted + minutes * 60_000_000 < db.now
  {
    if Matches(db.rows[k], p) { HolderIsSole(db, k, p); }
  }

  /** An old id, more than ten seconds after its rotation, gets NULL and leaves the table as it is. */
  lemma StalePingLeavesAll(db: Db, minutes: int, p: Uuid, k: Slot)
    requires Inv(db) && k in db.rows && db.rows[k].id != p && db.rows[k].oldId == p
    requires db.rows[k].lastInteracted + minutes * 60_000_000 >= db.now && db.rows[k].timeMinted + 10_000_000 < db.now
    ensures AfterPing(db, minutes, p) == db && PingAnswer(db, minutes, p) == None
  {
    HolderIsSole(db, k, p);
  }

  /** A ping is answered exactly if a row that is not idle has the id, or had it until at most ten seconds ago. */
  lemma PingAnswersIff(db: Db, minutes: int, p: Uuid)
    requires Inv(db)
    ensures PingAnswer(db, minutes, p).Some?
            <==> exists k <- db.rows ::
                   && db.rows[k].lastInteracted + minutes * 60_000_000 >= db.now
                   && (db.rows[k].id == p || (db.rows[k].oldId == p && db.rows[k].timeMinted + 10_000_000 >= db.now))
  {
    if k :| k in db.rows && Matches(db.rows[k], p) {
      HolderIsSole(db, k, p);
      assert forall j <- db.rows :: Matches(db.rows[j], p) ==> j == k by { assert Sole(db, k, p); }
    }
  }

  /**
   The row a ping answers with is the row it leaves, refreshed now. Its id is new, with the old one
   kept beside it and the clocks of the rotation set, exactly if the ping came with the current id
   more than five minutes after the id was made; role and meta stay, and no other row changes.
   */
  lemma AnsweredRow(db: Db, minutes: int, p: Uuid, k: Slot)
    requires Inv(db) && k in db.rows && Matches(db.rows[k], p) && PingAnswer(db, minutes, p).Some?
    ensures var before, db' := db.rows[k], AfterPing(db, minutes, p);
            && k in db'.rows && PingAnswer(db, minutes, p) == Some(db'.rows[k])
            && db'.now == db.now && db'.nextSlot == db.nextSlot && db'.rows - {k} == db.rows - {k}
            && var after := db'.rows[k];
               && after.lastInteracted == db.now && after.role == before.role && after.meta == before.meta
               && (after.id != before.id <==> before.id == p && before.dateCreated + 300_000_000 < db.now)
               && (after.id != before.id ==>
                     && !Resolves(db, after.id) && db.nextId <= after.id < db'.nextId && after.oldId == before.id
                     && after.dateCreated == after.timeMinted == db.now)
               && (after.id == before.id ==>
                     after == before.(lastInteracted := db.now) && db'.nextId == db.nextId)
  {
    HolderIsSole(db, k, p);
  }

  /** A ping that is not answered does nothing but delete the idle row, if there is one. */
  lemma UnansweredPing(db: Db, minutes: int, p: Uuid, k: Slot)
    requires Inv(db) && PingAnswer(db, minutes, p) == None
    ensures var db' := AfterPing(db, minutes, p);
            && db'.now == db.now && db'.nextSlot == db.nextSlot && db'.nextId == db.nextId
            && (k in db'.rows ==> k in db.rows && db'.rows[k] == db.rows[k])
            && (k in db.rows && k !in db'.rows ==> Matches(db.rows[k], p))
  {
    if k in db.rows && Matches(db.rows[k], p) { HolderIsSole(db, k, p); }
  }

  // ---- Retired ids ----

  lemma ApplyKeepsRetired(db: Db, e: Event, p: Uuid)
    requires Inv(db) && p < db.nextId && !Resolves(db, p)
    ensures !Resolves(Apply(db, e), p)
  {
  }

  /** An id that was issued and answers no more never answers again. */
  lemma {:induction false} RetiredForever(db: Db, events: seq<Event>, p: Uuid)
    requires Inv(db) && p < db.nextId && !Resolves(db, p)
    ensures !Resolves(Run(db, events), p)
    ensures forall minutes :: PingAnswer(Run(db, events), minutes, p) == None
    decreases events
  {
    if events != [] {
      ApplyKeepsInv(db, events[0]);
      ApplyKeepsRetired(db, events[0], p);
      RetiredForever(Apply(db, events[0]), events[1..], p);
    }
  }

  ghost predicate Rotates(db: Db, minutes: int, p: Uuid) {
    Resolves(db, p) && Judge(db.rows[Holder(db, p)], minutes, p, db.now) == Rotated
  }

  /** An id retired two rotations ago never resolves again, whatever happens in between or after. */
  lemma TwoRotationsRetire(db: Db, m1: int, x: Uuid, between: seq<Event>, m2: int, after: seq<Event>)
    requires Inv(db) && Rotates(db, m1, x)
    requires var y := PingAnswer(db, m1, x).value.id;
             Rotates(Run(AfterPing(db, m1, x), between), m2, y)
    ensures var y := PingAnswer(db, m1, x).value.id;
            !Resolves(Run(AfterPing(Run(AfterPing(db, m1, x), between), m2, y), after), x)
  {
    var y := PingAnswer(db, m1, x).value.id;
    var db1 := AfterPing(db, m1, x);
    var db2 := Run(db1, between);
    var k := Holder(db, x);
    ApplyKeepsInv(db, Ping(m1, x));
    assert Apply(db, Ping(m1, x)) == db1;
    HolderIsSole(db1, k, x);
    assert Echo(db1, k, x, y, db.now) by { assert Sole(db1, k, x); }
    EchoOverRuns(db1, between, k, x, y, db.now);
    ApplyKeepsInv(db2, Ping(m2, y));
    var db3 := AfterPing(db2, m2, y);
    assert Apply(db2, Ping(m2, y)) == db3;
    assert Sole(db2, Holder(db2, y), y);
    assert !Resolves(db3, x);
    RetiredForever(db3, after, x);
  }

  // ---- Convergence of requests in flight during a rotation ----

  /** If anything still answers to `x`, it is slot `k`, as the rotation at `t` from `x` to `y` left it. */
  ghost predicate Echo(db: Db, k: Slot, x: Uuid, y: Uuid, t: int) {
    && x < y < db.nextId
    && t <= db.now
    && (forall j <- db.rows :: Matches(db.rows[j], x) ==>
          && j == k && db.rows[j].id == y && db.rows[j].oldId == x
          && db.rows[j].timeMinted == t && db.rows[j].dateCreated == t)
  }

  /** Inside the grace window the rotated row is there, and too fresh to rotate or expire. */
  ghost predicate Fresh(db: Db, k: Slot, x: Uuid, t: int) {
    k in db.rows && Matches(db.rows[k], x) && t <= db.rows[k].lastInteracted
  }

  lemma ApplyKeepsEcho(db: Db, e: Event, k: Slot, x: Uuid, y: Uuid, t: int)
    requires Inv(db) && Echo(db, k, x, y, t)
    ensures Echo(Apply(db, e), k, x, y, t)
  {
  }

  lemma {:induction false} EchoOverRuns(db: Db, events: seq<Event>, k: Slot, x: Uuid, y: Uuid, t: int)
    requires Inv(db) && Echo(db, k, x, y, t)
    ensures Inv(Run(db, events)) && Echo(Run(db, events), k, x, y, t)
    decreases events
  {
    if events != [] {
      ApplyKeepsInv(db, events[0]);
      ApplyKeepsEcho(db, events[0], k, x, y, t);
      EchoOverRuns(Apply(db, events[0]), events[1..], k, x, y, t);
    }
  }

  /** Not a deletion of row `k`, and no ping with an idle limit below one minute. */
  predicate Spares(e: Event, k: Slot) {
    match e
    case Delete(doomed) => k !in doomed
    case Ping(minutes, _) => minutes >= 1
    case _ => true
  }

  lemma ApplyKeepsFresh(db: Db, e: Event, k: Slot, x: Uuid, y: Uuid, t: int)
    requires Inv(db) && Echo(db, k, x, y, t) && Fresh(db, k, x, t) && Apply(db, e).now <= t + GRACE
    ensures k in Apply(db, e).rows ==> Fresh(Apply(db, e), k, x, t)
    ensures Spares(e, k) ==> k in Apply(db, e).rows
  {
    if e.Ping? && Resolves(db, e.p) {
      var j := Holder(db, e.p);
      if j == k && e.minutes >= 1 {
        assert !Idle(db.rows[k], e.minutes, db.now);
      }
    }
  }

  /** A slot whose row is deleted is never filled again. */
  lemma {:induction false} GoneForGood(db: Db, events: seq<Event>, k: Slot)
    requires Inv(db) && k < db.nextSlot && k !in db.rows
    ensures k !in Run(db, events).rows
    decreases events
  {
    if events != [] {
      ApplyKeepsInv(db, events[0]);
      GoneForGood(Apply(db, events[0]), events[1..], k);
    }
  }

  lemma {:induction false} FreshOverRuns(db: Db, events: seq<Event>, k: Slot, x: Uuid, y: Uuid, t: int)
    requires Inv(db) && Echo(db, k, x, y, t) && Fresh(db, k, x, t)
    requires Run(db, events).now <= t + GRACE
    ensures k in Run(db, events).rows ==> Fresh(Run(db, events), k, x, t)
    ensures (forall e <- events :: Spares(e, k)) ==> k in Run(db, events).rows
    decreases events
  {
    if events != [] {
      var db' := Apply(db, events[0]);
      ApplyKeepsInv(db, events[0]);
      IdentityOverRuns(db', events[1..]);
      ApplyKeepsEcho(db, events[0], k, x, y, t);
      ApplyKeepsFresh(db, events[0], k, x, y, t);
      if k in db'.rows {
        FreshOverRuns(db', events[1..], k, x, y, t);
      } else {
        GoneForGood(db', events[1..], k);
      }
    }
  }

  /**
   After a ping rotates `x` to `y` at time T, whatever else runs: up to T + 10 s a ping with `x`
   succeeds exactly if the row is still there and not idle for that ping, and then gets it with id
   `y` and rotates nothing; the row is there as long as nothing deletes it and no ping comes with an
   idle limit below a minute; and after T + 10 s no ping with `x` succeeds.
   */
  lemma InFlightPingsConverge(db: Db, m0: int, x: Uuid, events: seq<Event>, minutes: int)
    requires Inv(db) && Rotates(db, m0, x)
    ensures var y := PingAnswer(db, m0, x).value.id;
            var later := Run(AfterPing(db, m0, x), events);
            var k := Holder(db, x);
            if later.now <= db.now + GRACE then
              && (PingAnswer(later, minutes, x).Some?
                  <==> k in later.rows && !Idle(later.rows[k], minutes, later.now))
              && (PingAnswer(later, minutes, x).Some? ==>
                    && PingAnswer(later, minutes, x).value.id == y
                    && AfterPing(later, minutes, x)
                       == later.(rows := later.rows[k := later.rows[k].(lastInteracted := later.now)]))
              && ((forall e <- events :: Spares(e, k)) ==> k in later.rows)
              && (k in later.rows && minutes >= 1 ==> !Idle(later.rows[k], minutes, later.now))
            else PingAnswer(later, minutes, x) == None
  {
    var y := PingAnswer(db, m0, x).value.id;
    var db1 := AfterPing(db, m0, x);
    var k := Holder(db, x);
    ApplyKeepsInv(db, Ping(m0, x));
    assert Apply(db, Ping(m0, x)) == db1;
    assert Matches(db1.rows[k], x);
    assert Sole(db1, k, x);
    EchoOverRuns(db1, events, k, x, y, db.now);
    var later := Run(db1, events);
    if later.now <= db.now + GRACE {
      FreshOverRuns(db1, events, k, x, y, db.now);
      EchoPinged(later, k, x, y, db.now, minutes);
    }
  }

  lemma EchoPinged(db: Db, k: Slot, x: Uuid, y: Uuid, t: int, minutes: int)
    requires Inv(db) && Echo(db, k, x, y, t) && db.now <= t + GRACE
    requires k in db.rows ==> Fresh(db, k, x, t)
    ensures PingAnswer(db, minutes, x).Some? <==> k in db.rows && !Idle(db.rows[k], minutes, db.now)
    ensures PingAnswer(db, minutes, x).Some? ==>
              && PingAnswer(db, minutes, x).value.id == y
              && AfterPing(db, minutes, x) == db.(rows := db.rows[k := db.rows[k].(lastInteracted := db.now)])
    ensures k in db.rows && minutes >= 1 ==> !Idle(db.rows[k], minutes, db.now)
  {
    if k in db.rows { HolderIsSole(db, k, x); }
  }

  /** An idle limit below one minute can end the grace early: here a microsecond after the rotation. */
  lemma ShortLimitsEndTheGrace(db: Db, m0: int, x: Uuid)
    requires Inv(db) && Rotates(db, m0, x)
    ensures Holder(db, x) !in Run(AfterPing(db, m0, x), [Tick(1), Ping(0, x)]).rows
  {
    var db1, k := AfterPing(db, m0, x), Holder(db, x);
    ApplyKeepsInv(db, Ping(m0, x));
    assert Apply(db, Ping(m0, x)) == db1;
    ApplyKeepsInv(db1, Tick(1));
    var db2 := Apply(db1, Tick(1));
    HolderIsSole(db2, k, x);
    assert [Tick(1), Ping(0, x)][1..] == [Ping(0, x)] && [Ping(0, x)][1..] == [];
    assert Run(db2, [Ping(0, x)]) == AfterPing(db2, 0, x);
  }

  // ---- How often a session rotates ----

  ghost predicate RotatesSlot(db: Db, e: Event, k: Slot) {
    e.Ping? && Rotates(db, e.minutes, e.p) && Holder(db, e.p) == k
  }

  /** The instants at which the row in slot `k` rotates during a run. */
  ghost function RotationTimes(db: Db, events: seq<Event>, k: Slot): seq<int>
    decreases events
  {
    if events == [] then []
    else
      (if RotatesSlot(db, events[0], k) then [db.now] else [])
      + RotationTimes(Apply(db, events[0]), events[1..], k)
  }

  /** Instants strictly more than five minutes apart, the first so long after `since`. */
  ghost predicate Spaced(times: seq<int>, since: int) {
    times != [] ==> since + ROTATE_AFTER < times[0] && Spaced(times[1..], times[0])
  }

  lemma {:induction false} SpacedCount(times: seq<int>, since: int)
    requires Spaced(times, since) && times != []
    ensures |times| * ROTATE_AFTER < times[|times| - 1] - since
  {
    if |times| > 1 {
      SpacedCount(times[1..], times[0]);
    }
  }

  lemma {:induction false} RotationsAreSpaced(db: Db, events: seq<Event>, k: Slot)
    requires Inv(db) && k in db.rows
    ensures Spaced(RotationTimes(db, events, k), db.rows[k].dateCreated)
    ensures forall t <- RotationTimes(db, events, k) :: db.now <= t <= Run(db, events).now
    decreases events
  {
    if events != [] {
      var db' := Apply(db, events[0]);
      ApplyKeepsInv(db, events[0]);
      IdentityOverRuns(db', events[1..]);
      var rest := RotationTimes(db', events[1..], k);
      if k in db'.rows {
        RotationsAreSpaced(db', events[1..], k);
      } else {
        GoneRowsDoNotRotate(db', events[1..], k);
      }
      assert ([db.now] + rest)[1..] == rest && [] + rest == rest;
    }
  }

  lemma {:induction false} GoneRowsDoNotRotate(db: Db, events: seq<Event>, k: Slot)
    requires Inv(db) && k !in db.rows && k < db.nextSlot
    ensures RotationTimes(db, events, k) == []
    decreases events
  {
    if events != [] {
      ApplyKeepsInv(db, events[0]);
      GoneRowsDoNotRotate(Apply(db, events[0]), events[1..], k);
    }
  }

  /** n rotations of a session created at c and observed at t satisfy 5 min * n < t - c. */
  lemma RotationRate(db: Db, events: seq<Event>, k: Slot)
    requires Inv(db) && k in db.rows
    ensures var n := |RotationTimes(db, events, k)|;
            n > 0 ==> n * ROTATE_AFTER < Run(db, events).now - db.rows[k].dateCreated
  {
    var times := RotationTimes(db, events, k);
    RotationsAreSpaced(db, events, k);
    if times != [] {
      SpacedCount(times, db.rows[k].dateCreated);
      assert times[|times| - 1] in times;
    }
  }

  // ---- The table itself ----

  class AuthTable {
    var rows: map<Slot, Row>
    var nextSlot: Slot
    var nextId: Uuid
    var now: int

    ghost function Snapshot(): Db
      reads this
    {
      Db(rows, nextSlot, nextId, now)
    }

    constructor (start: int)
      ensures Inv(Snapshot()) && Snapshot() == Db(map[], 0, 0, start)
    {
      rows, nextSlot, nextId, now := map[], 0, 0, start;
    }

    /** `create_auth_session`: the row starts with old_id = id and time_minted = date_created. */
    method CreateAuthSession(role: string, dateCreated: int, lastInteracted: int, meta: Option<Meta>)
      returns (created: Row)
      requires Inv(Snapshot())
      modifies this
      ensures Snapshot() == Apply(old(Snapshot()), Create(role, dateCreated, lastInteracted, meta))
      ensures Inv(Snapshot())
      ensures old(nextSlot) !in old(rows) && rows == old(rows)[old(nextSlot) := created]
      ensures !Resolves(old(Snapshot()), created.id)
      ensures created == Row(created.id, created.id, role, dateCreated, lastInteracted, dateCreated, meta)
    {
      ApplyKeepsInv(Snapshot(), Create(role, dateCreated, lastInteracted, meta));
      var id := nextId;
      nextId := nextId + 1;
      created := Row(id, id, role, dateCreated, lastInteracted, dateCreated, meta);
      rows := rows[nextSlot := created];
      nextSlot := nextSlot + 1;
    }

    /** `saps.ping`, statement by statement; LIMIT 1 picks any row that matches. */
    method Ping(minutes: int, p: Uuid) returns (session: Option<Row>)
      requires Inv(Snapshot())
      modifies this
      ensures Snapshot() == AfterPing(old(Snapshot()), minutes, p)
      ensures session == PingAnswer(old(Snapshot()), minutes, p)
      ensures Inv(Snapshot())
    {
      ghost var before := Snapshot();
      ApplyKeepsInv(before, Event.Ping(minutes, p));
      assert Apply(before, Event.Ping(minutes, p)) == AfterPing(before, minutes, p);

      var doomed := set k | k in rows && Matches(rows[k], p) && rows[k].lastInteracted < now - minutes * MINUTE;
      rows := rows - doomed;
      if doomed != {} {
        var k :| k in doomed;
        HolderIsSole(before, k, p);
        assert doomed == {k};
        return None;
      }
      assert rows == before.rows;
      var found := set k | k in rows && Matches(rows[k], p);
      if found == {} {
        assert forall k <- before.rows :: Matches(before.rows[k], p) ==> k in found;
        assert !Resolves(before, p);
        return None;
      }
      var k :| k in found;
      HolderIsSole(before, k, p);
      var record := rows[k];
      if record.id != p && record.oldId == p {
        if record.timeMinted < now - GRACE {
          return None;
        }
        Touch(k, record.id);
        return Some(rows[k]);
      }
      if record.dateCreated < now - ROTATE_AFTER {
        Reissue(k, p);
        return Some(rows[k]);
      }
      Touch(k, p);
      return Some(rows[k]);
    }

    /** The UPDATE that keeps a row alive. */
    method Touch(ghost k: Slot, id: Uuid)
      requires Inv(Snapshot()) && k in rows && rows[k].id == id
      modifies this
      ensures Snapshot() == old(Snapshot()).(rows := old(rows)[k := old(rows)[k].(lastInteracted := now)])
    {
      OnlyRowChanges(Snapshot(), k, rows[k].(lastInteracted := now));
      rows := map j | j in rows :: if rows[j].id == id then rows[j].(lastInteracted := now) else rows[j];
    }

    /** The UPDATE that rotates a row's id. */
    method Reissue(ghost k: Slot, id: Uuid)
      requires Inv(Snapshot()) && k in rows && rows[k].id == id
      modifies this
      ensures Snapshot() == old(Snapshot()).(rows := old(rows)[k := Rotate(old(rows)[k], old(nextId), now)],
                                             nextId := old(nextId) + 1)
    {
      OnlyRowChanges(Snapshot(), k, Rotate(rows[k], nextId, now));
      var newId := nextId;
      nextId := nextId + 1;
      rows := map j | j in rows ::
        if rows[j].id == id
        then rows[j].(oldId := rows[j].id, id := newId, dateCreated := now, lastInteracted := now, timeMinted := now)
        else rows[j];
    }

    /** `get_auth_session`: the read-only lookup, by current id alone. */
    method GetAuthSession(p: Uuid) returns (session: Option<Row>)
      requires Inv(Snapshot())
      ensures session == Lookup(Snapshot(), p)
    {
      var found := set k | k in rows && rows[k].id == p;
      if found == {} {
        assert forall k <- rows :: k !in found;
        return None;
      }
      var k :| k in found;
      OnlyRowWithItsId(Snapshot(), k);
      return Some(rows[k]);
    }

    /** `delete_auth_session`. */
    method DeleteAuthSession(p: Uuid) returns (deleted: bool)
      requires Inv(Snapshot())
      modifies this
      ensures Inv(Snapshot())
      ensures deleted <==> exists k <- old(rows) :: old(rows)[k].id == p
      ensures forall k :: k in rows <==> k in old(rows) && old(rows)[k].id != p
      ensures forall k <- rows :: rows[k] == old(rows)[k]
      ensures |rows| + (if deleted then 1 else 0) == |old(rows)|
      ensures now == old(now) && nextSlot == old(nextSlot) && nextId == old(nextId)
    {
      var doomed := set k | k in rows && rows[k].id == p;
      ApplyKeepsInv(Snapshot(), Delete(doomed));
      OneRowFewer(Snapshot(), p, doomed);
      rows := rows - doomed;
      deleted := doomed != {};
      assert Snapshot() == Apply(old(Snapshot()), Delete(doomed));
    }
  }

  /** An update `WHERE id = ...` changes the one row with that id. */
  lemma OnlyRowChanges(db: Db, k: Slot, r: Row)
    requires Inv(db) && k in db.rows
    ensures (map j | j in db.rows :: if db.rows[j].id == db.rows[k].id then r else db.rows[j]) == db.rows[k := r]
    ensures forall j <- db.rows :: db.rows[j].id == db.rows[k].id ==> j == k
  {
    OnlyRowWithItsId(db, k);
  }

  lemma OneRowFewer(db: Db, p: Uuid, doomed: set<Slot>)
    requires Inv(db) && doomed == set k | k in db.rows && db.rows[k].id == p
    ensures |db.rows - doomed| + (if doomed != {} then 1 else 0) == |db.rows|
  {
    if k :| k in doomed {
      OnlyRowWithItsId(db, k);
      assert doomed == {k};
    }
    assert (db.rows - doomed).Keys + doomed == db.rows.Keys;
    assert |(db.rows - doomed).Keys + doomed| == |(db.rows - doomed).Keys| + |doomed|;
  }

  lemma OnlyRowWithItsId(db: Db, k: Slot)
    requires Inv(db) && k in db.rows
    ensures forall j <- db.rows :: db.rows[j].id == db.rows[k].id ==> j == k
  {
    assert Matches(db.rows[k], db.rows[k].id);
    assert Sole(db, k, db.rows[k].id);
    forall j <- db.rows | db.rows[j].id == db.rows[k].id
      ensures j == k
    {
      assert Matches(db.rows[j], db.rows[k].id);
    }
  }
}
