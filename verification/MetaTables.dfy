/**
 The `meta` column of `saps.auth_sessions`: compare-and-swap, the updates and deletes that match by
 meta, and the partial unique index on a pair of meta keys. Each statement is one atomic step.
 */
module MetaTables {
  import opened Common

  type Id = nat

  /** The scalar JSON values; on these, containment of a pair is equality of its value. */
  datatype Json = JNull | JBool(b: bool) | JInt(n: int) | JStr(s: string)

  type Object = map<string, Json>

  /** The rows by primary key, each with its meta column. */
  type Table = map<Id, Option<Object>>

  datatype Index = Index(key1: string, key2: string)

  function Digits(n: nat): string {
    if n < 10 then ["0123456789"[n]] else Digits(n / 10) + ["0123456789"[n % 10]]
  }

  /** `->>`: the value as text, and SQL NULL for a JSON null. */
  function Text(v: Json): Option<string> {
    match v
    case JNull => None
    case JBool(b) => Some(if b then "true" else "false")
    case JInt(n) => Some(if n < 0 then "-" + Digits(-n) else Digits(n))
    case JStr(s) => Some(s)
  }

  // ---- The unique index ----

  /** The index entry of a row; a row without both keys has none, and a NULL never equals another. */
  function IndexEntry(m: Option<Object>, index: Index): Option<(string, string)> {
    if m.Some? && index.key1 in m.value && index.key2 in m.value
       && Text(m.value[index.key1]).Some? && Text(m.value[index.key2]).Some?
    then Some((Text(m.value[index.key1]).value, Text(m.value[index.key2]).value))
    else None
  }

  predicate Collides(a: Option<Object>, b: Option<Object>, index: Index) {
    IndexEntry(a, index).Some? && IndexEntry(a, index) == IndexEntry(b, index)
  }

  ghost predicate PairDistinct(t: Table, index: Index) {
    forall a, b :: a in t && b in t && a != b ==> !Collides(t[a], t[b], index)
  }

  /** The two rows agree on the pair: both hold both keys, not null, with the same texts. */
  predicate SamePair(m: Option<Object>, n: Option<Object>, index: Index) {
    m.Some? && n.Some? && forall key <- [index.key1, index.key2] ::
      key in m.value && key in n.value && m.value[key] != JNull && Text(m.value[key]) == Text(n.value[key])
  }

  lemma CollidesIff(m: Option<Object>, n: Option<Object>, index: Index)
    ensures Collides(m, n, index) <==> SamePair(m, n, index)
  {
    assert index.key1 in [index.key1, index.key2] && index.key2 in [index.key1, index.key2];
    if m.Some? && n.Some? && SamePair(m, n, index) {
      assert Text(m.value[index.key1]).Some? && Text(m.value[index.key2]).Some?;
    }
  }

  lemma DistinctIff(t: Table, index: Index)
    ensures PairDistinct(t, index) <==> forall a, b :: a in t && b in t && a != b ==> !SamePair(t[a], t[b], index)
  {
    forall a, b | a in t && b in t
      ensures Collides(t[a], t[b], index) <==> SamePair(t[a], t[b], index)
    {
      CollidesIff(t[a], t[b], index);
    }
  }

  // ---- The statements ----

  /** `meta @> want`. */
  predicate Contains(m: Option<Object>, want: Object) {
    m.Some? && forall k <- want :: k in m.value && m.value[k] == want[k]
  }

  function Matching(t: Table, want: Object): set<Id> {
    set id | id in t && Contains(t[id], want)
  }

  /** `jsonb_build_object(key1, value1, key2, value2)`; of equal keys the last one counts. */
  function Pair(key1: string, value1: Json, key2: string, value2: Json): Object {
    map[key1 := value1][key2 := value2]
  }

  /** `jsonb_set(COALESCE(meta, '{}'), {k}, v, true)`. */
  function SetKey(m: Option<Object>, k: string, v: Json): Option<Object> {
    Some((if m.Some? then m.value else map[])[k := v])
  }

  predicate Holds(m: Option<Object>, k: string, v: Json) {
    m.Some? && k in m.value && m.value[k] == v
  }

  datatype Statement =
    | Insert(id: Id, meta: Option<Object>)
    | SetMeta(id: Id, meta: Option<Object>)
    | UpsertKey(id: Id, k: string, v: Json)
    | Swap(id: Id, k: string, expected: Json, v: Json)
    | DropKey(id: Id, k: string)
    | UpsertByMeta(want: Object, k: string, v: Json)
    | DeleteByMeta(want: Object)
    | DeleteIds(ids: set<Id>)

  datatype Outcome = Rows(count: nat) | Rejected

  /** Every row version a statement writes; the rows it inserts or updates are the keys. */
  function Versions(t: Table, stmt: Statement): Table {
    match stmt
    case Insert(id, meta) => map[id := meta]
    case SetMeta(id, meta) => if id in t then map[id := meta] else map[]
    case UpsertKey(id, k, v) => if id in t then map[id := SetKey(t[id], k, v)] else map[]
    case Swap(id, k, expected, v) =>
      if id in t && Holds(t[id], k, expected) then map[id := SetKey(t[id], k, v)] else map[]
    case DropKey(id, k) =>
      if id in t then map[id := if t[id].Some? then Some(t[id].value - {k}) else None] else map[]
    case UpsertByMeta(want, k, v) => map id | id in Matching(t, want) :: SetKey(t[id], k, v)
    case DeleteByMeta(_) => map[]
    case DeleteIds(_) => map[]
  }

  function Removed(t: Table, stmt: Statement): set<Id> {
    match stmt
    case DeleteByMeta(want) => Matching(t, want)
    case DeleteIds(ids) => ids * t.Keys
    case _ => {}
  }

  // ---- How the database runs a statement: row by row ----

  /** The index lookup for a new version of row `id`: some other row has the same entry. */
  ghost predicate Blocked(t: Table, index: Index, id: Id, version: Option<Object>) {
    exists other :: other in t && other != id && Collides(version, t[other], index)
  }

  /** The versions written one row at a time, each against the rows as they then are; None on a collision. */
  ghost function WriteInOrder(t: Table, index: Index, versions: Table, order: seq<Id>): Option<Table>
    requires forall id <- order :: id in versions
    decreases order
  {
    if order == [] then Some(t)
    else if Blocked(t, index, order[0], versions[order[0]]) then None
    else WriteInOrder(t[order[0] := versions[order[0]]], index, versions, order[1..])
  }

  ghost predicate IsOrder(order: seq<Id>, ids: set<Id>) {
    && (forall i, j :: 0 <= i < j < |order| ==> order[i] != order[j])
    && (forall id <- order :: id in ids) && (forall id <- ids :: id in order)
  }

  ghost predicate LegalOrder(t: Table, stmt: Statement, order: seq<Id>) {
    IsOrder(order, Versions(t, stmt).Keys)
  }

  /** A taken primary key or a collision rejects the statement, and what it wrote is undone. */
  ghost function Execute(t: Table, index: Index, stmt: Statement, order: seq<Id>): (Table, Outcome)
    requires LegalOrder(t, stmt, order)
  {
    if stmt.Insert? && stmt.id in t then (t, Rejected)
    else match WriteInOrder(t, index, Versions(t, stmt), order)
      case None => (t, Rejected)
      case Some(t') => (t' - Removed(t, stmt), Rows(|order| + |Removed(t, stmt)|))
  }

  // ---- The verdict on the statement as a whole ----

  function Asked(t: Table, stmt: Statement): Table {
    (t + Versions(t, stmt)) - Removed(t, stmt)
  }

  function Touched(t: Table, stmt: Statement): nat {
    |Versions(t, stmt).Keys| + |Removed(t, stmt)|
  }

  predicate Fresh(t: Table, stmt: Statement) {
    stmt.Insert? ==> stmt.id !in t
  }

  /** What a statement amounts to: all of it, if the rows it asks for are distinct, or nothing. */
  ghost function Exec(t: Table, index: Index, stmt: Statement): (Table, Outcome) {
    if Fresh(t, stmt) && PairDistinct(Asked(t, stmt), index)
    then (Asked(t, stmt), Rows(Touched(t, stmt)))
    else (t, Rejected)
  }

  ghost function Run(t: Table, index: Index, stmts: seq<Statement>): Table
    decreases stmts
  {
    if stmts == [] then t else Run(Exec(t, index, stmts[0]).0, index, stmts[1..])
  }

  // ---- The two agree, whatever the order of the rows ----

  /** The versions of part of the rows. */
  function Only(versions: Table, ids: set<Id>): Table {
    map id | id in versions && id in ids :: versions[id]
  }

  /** New versions that, once they collide with a row, go on colliding when that row is rewritten too. */
  ghost predicate Steady(t: Table, index: Index, versions: Table) {
    forall a, b :: a in versions && b in versions && b in t && Collides(versions[a], t[b], index) ==>
      Collides(versions[a], versions[b], index)
  }

  lemma StatementsAreSteady(t: Table, index: Index, stmt: Statement)
    requires Fresh(t, stmt)
    ensures Steady(t, index, Versions(t, stmt))
  {
    if stmt.UpsertByMeta? {
      forall a, b | a in Matching(t, stmt.want) && b in Matching(t, stmt.want)
                    && Collides(SetKey(t[a], stmt.k, stmt.v), t[b], index)
        ensures Collides(SetKey(t[a], stmt.k, stmt.v), SetKey(t[b], stmt.k, stmt.v), index)
      {
        CollisionStays(t[a], t[b], stmt.k, stmt.v, index);
      }
    }
  }

  lemma {:induction false} StillDistinct(t: Table, index: Index, id: Id, version: Option<Object>)
    requires PairDistinct(t, index)
    ensures PairDistinct(t[id := version], index) <==> !Blocked(t, index, id, version)
  {
    var t' := t[id := version];
    if Blocked(t, index, id, version) {
      var other :| other in t && other != id && Collides(version, t[other], index);
      assert Collides(t'[id], t'[other], index);
    }
  }

  /** Once some rows are written and two rows collide, no order of the remaining ones helps. */
  lemma CollisionsStay(t: Table, index: Index, versions: Table, done: set<Id>)
    requires PairDistinct(t, index) && Steady(t, index, versions)
    requires !PairDistinct(t + Only(versions, done), index)
    ensures !PairDistinct(t + versions, index)
  {
    var part, all := t + Only(versions, done), t + versions;
    var a, b :| a in part && b in part && a != b && Collides(part[a], part[b], index);
    if a in versions && a in done {
      if b in versions && b !in done { assert Collides(versions[a], versions[b], index); }
    } else if b in versions && b in done {
      if a in versions { assert Collides(versions[b], t[a], index) && Collides(versions[b], versions[a], index); }
    }
    assert Collides(all[a], all[b], index);
  }

  lemma OneMoreVersion(t: Table, versions: Table, done: set<Id>, id: Id)
    requires id in versions
    ensures (t + Only(versions, done))[id := versions[id]] == t + Only(versions, done + {id})
  {
  }

  lemma {:induction false} WritesFrom(t: Table, index: Index, versions: Table, done: set<Id>, order: seq<Id>)
    requires PairDistinct(t, index) && Steady(t, index, versions)
    requires PairDistinct(t + Only(versions, done), index)
    requires IsOrder(order, versions.Keys - done) && done <= versions.Keys
    ensures WriteInOrder(t + Only(versions, done), index, versions, order)
            == if PairDistinct(t + versions, index) then Some(t + versions) else None
    decreases order
  {
    var part := t + Only(versions, done);
    if order == [] {
      OrderCounts(order, versions.Keys - done);
      assert versions.Keys == done + (versions.Keys - done) == done;
      assert Only(versions, done) == versions;
    } else {
      var id, rest := order[0], order[1..];
      assert id in order;
      var more := done + {id};
      OneMoreVersion(t, versions, done, id);
      StillDistinct(part, index, id, versions[id]);
      if Blocked(part, index, id, versions[id]) {
        CollisionsStay(t, index, versions, more);
      } else {
        RestIsOrder(order, versions.Keys, done);
        WritesFrom(t, index, versions, more, rest);
      }
    }
  }

  lemma RestIsOrder(order: seq<Id>, ids: set<Id>, done: set<Id>)
    requires order != [] && IsOrder(order, ids - done)
    ensures IsOrder(order[1..], ids - (done + {order[0]}))
  {
    var rest := order[1..];
    assert order == [order[0]] + rest;
    forall id <- rest
      ensures id in ids - (done + {order[0]})
    {
      var i :| 0 <= i < |rest| && rest[i] == id;
      assert order[0] != order[i + 1] && order[i + 1] in order;
    }
    forall id <- ids - (done + {order[0]})
      ensures id in rest
    {
      assert id in order;
    }
  }

  lemma {:induction false} OrderCounts(order: seq<Id>, ids: set<Id>)
    requires IsOrder(order, ids)
    ensures |order| == |ids|
    decreases order
  {
    if order == [] {
      assert forall id <- ids :: id in order;
      assert ids == {};
    } else {
      assert order[0] in order && ids - {} == ids;
      RestIsOrder(order, ids, {});
      assert {} + {order[0]} == {order[0]};
      OrderCounts(order[1..], ids - {order[0]});
    }
  }

  predicate Deletes(stmt: Statement) {
    stmt.DeleteByMeta? || stmt.DeleteIds?
  }

  /** Deleting rows makes no collision. */
  lemma FewerRowsStayDistinct(t: Table, index: Index, ids: set<Id>)
    requires PairDistinct(t, index)
    ensures PairDistinct(t - ids, index)
  {
  }

  /** Statements that only delete are never rejected. */
  lemma DeletionsPass(t: Table, index: Index, stmt: Statement)
    requires PairDistinct(t, index) && Deletes(stmt)
    ensures Exec(t, index, stmt).1 == Rows(Touched(t, stmt))
  {
    DeletionAsks(t, stmt);
    FewerRowsStayDistinct(t, index, Removed(t, stmt));
  }

  lemma DeletionAsks(t: Table, stmt: Statement)
    requires Deletes(stmt)
    ensures Versions(t, stmt) == map[] && Removed(t, stmt) <= t.Keys
    ensures Asked(t, stmt) == t - Removed(t, stmt) && Touched(t, stmt) == |Removed(t, stmt)|
  {
    assert t + map[] == t;
  }

  /**
   Row by row or as a whole: for every order of its rows, a statement takes effect exactly when the
   rows it asks for are distinct on the pair, and otherwise changes nothing.
   */
  lemma RowByRowIsWhole(t: Table, index: Index, stmt: Statement, order: seq<Id>)
    requires PairDistinct(t, index) && LegalOrder(t, stmt, order)
    ensures Execute(t, index, stmt, order) == Exec(t, index, stmt)
  {
    if Deletes(stmt) {
      DeletionRuns(t, index, stmt, order);
    } else if Fresh(t, stmt) {
      WriteRuns(t, index, stmt, order);
    }
  }

  lemma WriteRuns(t: Table, index: Index, stmt: Statement, order: seq<Id>)
    requires PairDistinct(t, index) && !Deletes(stmt) && Fresh(t, stmt) && LegalOrder(t, stmt, order)
    ensures Execute(t, index, stmt, order) == Exec(t, index, stmt)
  {
    StatementsAreSteady(t, index, stmt);
    WritesWhole(t, index, Versions(t, stmt), order);
    OrderCounts(order, Versions(t, stmt).Keys);
    WritesAsk(t, stmt);
    var all := t + Versions(t, stmt);
    assert all - {} == all;
  }

  lemma DeletionRuns(t: Table, index: Index, stmt: Statement, order: seq<Id>)
    requires PairDistinct(t, index) && Deletes(stmt) && LegalOrder(t, stmt, order)
    ensures Execute(t, index, stmt, order) == (t - Removed(t, stmt), Rows(|Removed(t, stmt)|))
    ensures Execute(t, index, stmt, order) == Exec(t, index, stmt)
  {
    DeletionsPass(t, index, stmt);
    DeletionAsks(t, stmt);
    OrderCounts(order, {});
  }

  lemma WritesAsk(t: Table, stmt: Statement)
    requires !Deletes(stmt)
    ensures Removed(t, stmt) == {}
    ensures Asked(t, stmt) == t + Versions(t, stmt) && Touched(t, stmt) == |Versions(t, stmt).Keys|
  {
  }

  lemma WritesWhole(t: Table, index: Index, versions: Table, order: seq<Id>)
    requires PairDistinct(t, index) && Steady(t, index, versions) && IsOrder(order, versions.Keys)
    ensures WriteInOrder(t, index, versions, order)
            == if PairDistinct(t + versions, index) then Some(t + versions) else None
  {
    assert t + Only(versions, {}) == t;
    assert versions.Keys - {} == versions.Keys;
    WritesFrom(t, index, versions, {}, order);
  }

  /** A run with the order in which each statement reached its rows. */
  ghost predicate LegalOrders(t: Table, index: Index, stmts: seq<Statement>, orders: seq<seq<Id>>)
    decreases stmts
  {
    && |orders| == |stmts|
    && (stmts != [] ==>
          && LegalOrder(t, stmts[0], orders[0])
          && LegalOrders(Execute(t, index, stmts[0], orders[0]).0, index, stmts[1..], orders[1..]))
  }

  ghost function ExecuteAll(t: Table, index: Index, stmts: seq<Statement>, orders: seq<seq<Id>>): Table
    requires LegalOrders(t, index, stmts, orders)
    decreases stmts
  {
    if stmts == [] then t
    else ExecuteAll(Execute(t, index, stmts[0], orders[0]).0, index, stmts[1..], orders[1..])
  }

  // ---- The pair index over runs ----

  lemma {:induction false} WritesStayDistinct(t: Table, index: Index, versions: Table, order: seq<Id>)
    requires PairDistinct(t, index) && forall id <- order :: id in versions
    ensures var result := WriteInOrder(t, index, versions, order);
            result.Some? ==> PairDistinct(result.value, index)
    decreases order
  {
    if order != [] && !Blocked(t, index, order[0], versions[order[0]]) {
      StillDistinct(t, index, order[0], versions[order[0]]);
      WritesStayDistinct(t[order[0] := versions[order[0]]], index, versions, order[1..]);
    }
  }

  lemma ExecuteStaysDistinct(t: Table, index: Index, stmt: Statement, order: seq<Id>)
    requires PairDistinct(t, index) && LegalOrder(t, stmt, order)
    ensures PairDistinct(Execute(t, index, stmt, order).0, index)
  {
    WritesStayDistinct(t, index, Versions(t, stmt), order);
    var result := WriteInOrder(t, index, Versions(t, stmt), order);
    if result.Some? { FewerRowsStayDistinct(result.value, index, Removed(t, stmt)); }
  }

  /**
   The index over every run of statements and every order of their rows: no two rows agree on the
   pair, JSON nulls aside; and the run is that of the statements as wholes.
   */
  lemma {:induction false} PairIndexHolds(t: Table, index: Index, stmts: seq<Statement>, orders: seq<seq<Id>>)
    requires PairDistinct(t, index) && LegalOrders(t, index, stmts, orders)
    ensures var end := ExecuteAll(t, index, stmts, orders);
            && PairDistinct(end, index)
            && forall a, b :: a in end && b in end && a != b ==> !SamePair(end[a], end[b], index)
    ensures ExecuteAll(t, index, stmts, orders) == Run(t, index, stmts)
    decreases stmts
  {
    if stmts != [] {
      ExecuteStaysDistinct(t, index, stmts[0], orders[0]);
      RowByRowIsWhole(t, index, stmts[0], orders[0]);
      PairIndexHolds(Execute(t, index, stmts[0], orders[0]).0, index, stmts[1..], orders[1..]);
    } else {
      DistinctIff(t, index);
    }
  }

  lemma AtMostOne(ids: set<Id>)
    requires forall a, b :: a in ids && b in ids ==> a == b
    ensures |ids| <= 1
  {
    if ids != {} {
      var a :| a in ids;
      assert ids == {a};
    }
  }

  ghost predicate CountsAtMostOne(index: Index, want: Object) {
    forall t: Table :: PairDistinct(t, index) ==> |Matching(t, want)| <= 1
  }

  lemma NonNullPairsAreSole(t: Table, index: Index, want: Object)
    requires PairDistinct(t, index) && index.key1 in want && index.key2 in want
    requires want[index.key1] != JNull && want[index.key2] != JNull
    ensures |Matching(t, want)| <= 1
  {
    forall a, b | a in Matching(t, want) && b in Matching(t, want)
      ensures Collides(t[a], t[b], index)
    {
      assert IndexEntry(t[a], index) == IndexEntry(Some(want), index);
      assert IndexEntry(t[b], index) == IndexEntry(Some(want), index);
    }
    AtMostOne(Matching(t, want));
  }

  /**
   The documented promise that pair-scoped counts are 0 or 1 holds exactly when neither value is a
   JSON null: the index sees null as NULL, and NULLs never collide.
   */
  lemma PairCountsIffNonNull(index: Index, v1: Json, v2: Json)
    ensures var want := Pair(index.key1, v1, index.key2, v2);
            CountsAtMostOne(index, want) <==> want[index.key1] != JNull && want[index.key2] != JNull
  {
    var want := Pair(index.key1, v1, index.key2, v2);
    if want[index.key1] != JNull && want[index.key2] != JNull {
      forall t: Table | PairDistinct(t, index)
        ensures |Matching(t, want)| <= 1
      {
        NonNullPairsAreSole(t, index, want);
      }
    } else {
      var twins: Table := map[0 := Some(want), 1 := Some(want)];
      assert PairDistinct(twins, index);
      assert Matching(twins, want) == {0, 1};
    }
  }

  // ---- Conservation ----

  function Inserted(stmt: Statement): nat {
    if stmt.Insert? then 1 else 0
  }

  lemma RemovalCounts(t: Table, ids: set<Id>)
    requires ids <= t.Keys
    ensures |t| == |t - ids| + |ids|
  {
    assert t.Keys == (t - ids).Keys + ids;
    assert |(t - ids).Keys + ids| == |(t - ids).Keys| + |ids|;
    assert |t| == |t.Keys| && |t - ids| == |(t - ids).Keys|;
  }

  /** Rows before, and rows inserted, are rows after and rows the deletes reported. */
  lemma RowsAreConserved(t: Table, index: Index, stmt: Statement)
    ensures var (t', outcome) := Exec(t, index, stmt);
            match outcome
            case Rejected => t' == t
            case Rows(n) => |t| + Inserted(stmt) == |t'| + (if Deletes(stmt) then n else 0)
  {
    var outcome := Exec(t, index, stmt).1;
    if outcome.Rows? {
      if Deletes(stmt) { DeletionsCount(t, stmt); } else { KeysAfter(t, stmt); }
    }
  }

  lemma DeletionsCount(t: Table, stmt: Statement)
    requires Deletes(stmt)
    ensures |t| == |Asked(t, stmt)| + Touched(t, stmt)
  {
    DeletionAsks(t, stmt);
    RemovalCounts(t, Removed(t, stmt));
  }

  lemma KeysAfter(t: Table, stmt: Statement)
    requires !Deletes(stmt) && Fresh(t, stmt)
    ensures |Asked(t, stmt)| == |t| + Inserted(stmt)
  {
    WritesAsk(t, stmt);
    WritesKnownRows(t, stmt);
    var versions := Versions(t, stmt);
    assert (t + versions).Keys == t.Keys + versions.Keys;
    assert |t + versions| == |(t + versions).Keys| && |t| == |t.Keys|;
    if stmt.Insert? {
      assert t.Keys + versions.Keys == t.Keys + {stmt.id};
    } else {
      assert t.Keys + versions.Keys == t.Keys;
    }
  }

  lemma WritesKnownRows(t: Table, stmt: Statement)
    ensures if stmt.Insert? then Versions(t, stmt).Keys == {stmt.id} else Versions(t, stmt).Keys <= t.Keys
  {
  }

  ghost function InsertCount(t: Table, index: Index, stmts: seq<Statement>): nat
    decreases stmts
  {
    if stmts == [] then 0
    else
      var (t', outcome) := Exec(t, index, stmts[0]);
      (if outcome.Rows? then Inserted(stmts[0]) else 0) + InsertCount(t', index, stmts[1..])
  }

  ghost function DeleteCount(t: Table, index: Index, stmts: seq<Statement>): nat
    decreases stmts
  {
    if stmts == [] then 0
    else
      var (t', outcome) := Exec(t, index, stmts[0]);
      (if outcome.Rows? && Deletes(stmts[0]) then outcome.count else 0) + DeleteCount(t', index, stmts[1..])
  }

  /** Over every run: rows before and accepted inserts are rows after and the deletions reported. */
  lemma {:induction false} RunsConserveRows(t: Table, index: Index, stmts: seq<Statement>)
    ensures |t| + InsertCount(t, index, stmts) == |Run(t, index, stmts)| + DeleteCount(t, index, stmts)
    decreases stmts
  {
    if stmts != [] {
      RowsAreConserved(t, index, stmts[0]);
      RunsConserveRows(Exec(t, index, stmts[0]).0, index, stmts[1..]);
    }
  }

  /** An accepted update by meta: the matching rows hold the new value and keep every other key, others stay. */
  lemma UpsertsTouchMatchesOnly(t: Table, index: Index, want: Object, k: string, v: Json, id: Id, other: string)
    requires id in t && Exec(t, index, UpsertByMeta(want, k, v)).1 != Rejected
    ensures var t' := Exec(t, index, UpsertByMeta(want, k, v)).0;
            && t'.Keys == t.Keys
            && (Contains(t[id], want) ==> Holds(t'[id], k, v))
            && (!Contains(t[id], want) ==> t'[id] == t[id])
            && (other != k && t[id].Some? ==>
                  t'[id].Some? && (other in t'[id].value <==> other in t[id].value)
                  && (other in t[id].value ==> t'[id].value[other] == t[id].value[other]))
  {
  }

  // ---- Rotation in between ----

  /** A statement on meta, or a ping that gives the row `id` the id `newId`. */
  datatype Act = Do(stmt: Statement) | Rotate(id: Id, newId: Id)

  function Rotated(t: Table, id: Id, newId: Id): Table
    requires id in t
  {
    (t - {id})[newId := t[id]]
  }

  /** A rotation writes no meta, so the index has nothing to say; ids are never handed out twice. */
  ghost function Perform(t: Table, index: Index, act: Act): (Table, Outcome) {
    match act
    case Do(stmt) => Exec(t, index, stmt)
    case Rotate(id, newId) => if id in t && newId !in t then (Rotated(t, id, newId), Rows(1)) else (t, Rows(0))
  }

  ghost function PerformAll(t: Table, index: Index, acts: seq<Act>): Table
    decreases acts
  {
    if acts == [] then t else PerformAll(Perform(t, index, acts[0]).0, index, acts[1..])
  }

  /** The id after an act of the row that had `id` before it. */
  function Follow(t: Table, act: Act, id: Id): Id {
    if act.Rotate? && act.id == id && id in t && act.newId !in t then act.newId else id
  }

  ghost function FollowAll(t: Table, index: Index, acts: seq<Act>, id: Id): Id
    decreases acts
  {
    if acts == [] then id
    else FollowAll(Perform(t, index, acts[0]).0, index, acts[1..], Follow(t, acts[0], id))
  }

  lemma RotationStaysDistinct(t: Table, index: Index, id: Id, newId: Id)
    requires PairDistinct(t, index) && id in t && newId !in t
    ensures PairDistinct(Rotated(t, id, newId), index)
  {
    var t' := Rotated(t, id, newId);
    forall a, b | a in t' && b in t' && a != b
      ensures !Collides(t'[a], t'[b], index)
    {
      var a0, b0 := if a == newId then id else a, if b == newId then id else b;
      assert t'[a] == t[a0] && t'[b] == t[b0] && a0 != b0;
    }
  }

  /** The pair index holds over every run with rotations in between as well. */
  lemma {:induction false} RotationsKeepIndex(t: Table, index: Index, acts: seq<Act>)
    requires PairDistinct(t, index)
    ensures PairDistinct(PerformAll(t, index, acts), index)
    decreases acts
  {
    if acts != [] {
      var act := acts[0];
      if act.Rotate? && act.id in t && act.newId !in t {
        RotationStaysDistinct(t, index, act.id, act.newId);
      }
      RotationsKeepIndex(Perform(t, index, act).0, index, acts[1..]);
    }
  }

  // ---- No lost updates ----

  /** An attempt to count up: swap v for v + 1, for whatever v the client last read. */
  predicate CountsUp(act: Act, id: Id, k: string) {
    && act.Do? && act.stmt.Swap? && act.stmt.id == id && act.stmt.k == k
    && act.stmt.expected.JInt? && act.stmt.v == JInt(act.stmt.expected.n + 1)
  }

  /** An act that neither writes key `k` of row `id` nor deletes the row; it may rotate its id. */
  predicate Foreign(t: Table, act: Act, id: Id, k: string) {
    act.Do? ==> match act.stmt
      case Insert(_, _) => true
      case SetMeta(i, _) => i != id
      case UpsertKey(i, j, _) => i != id || j != k
      case Swap(i, j, _, _) => i != id || j != k
      case DropKey(i, j) => i != id || j != k
      case UpsertByMeta(want, j, _) => j != k || id !in Matching(t, want)
      case DeleteByMeta(want) => id !in Matching(t, want)
      case DeleteIds(ids) => id !in ids
  }

  ghost predicate OnlyCounts(t: Table, index: Index, acts: seq<Act>, id: Id, k: string)
    decreases acts
  {
    acts != [] ==>
      && (CountsUp(acts[0], id, k) || Foreign(t, acts[0], id, k))
      && OnlyCounts(Perform(t, index, acts[0]).0, index, acts[1..], Follow(t, acts[0], id), k)
  }

  ghost function Gained(t: Table, index: Index, act: Act, id: Id, k: string): nat {
    if CountsUp(act, id, k) && Perform(t, index, act).1 == Rows(1) then 1 else 0
  }

  ghost function Successes(t: Table, index: Index, acts: seq<Act>, id: Id, k: string): nat
    decreases acts
  {
    if acts == [] then 0
    else
      Gained(t, index, acts[0], id, k)
      + Successes(Perform(t, index, acts[0]).0, index, acts[1..], Follow(t, acts[0], id), k)
  }

  predicate HoldsKey(m: Option<Object>, k: string) {
    m.Some? && k in m.value
  }

  lemma ForeignKeepsKey(t: Table, index: Index, act: Act, id: Id, k: string)
    requires id in t && Foreign(t, act, id, k) && HoldsKey(t[id], k)
    ensures var t', id' := Perform(t, index, act).0, Follow(t, act, id);
            id' in t' && HoldsKey(t'[id'], k) && t'[id'].value[k] == t[id].value[k]
  {
    if act.Do? { ForeignAskKeepsKey(t, act.stmt, id, k); }
  }

  lemma ForeignAskKeepsKey(t: Table, stmt: Statement, id: Id, k: string)
    requires id in t && Foreign(t, Do(stmt), id, k) && HoldsKey(t[id], k)
    ensures Fresh(t, stmt) ==>
              id in Asked(t, stmt) && HoldsKey(Asked(t, stmt)[id], k) && Asked(t, stmt)[id].value[k] == t[id].value[k]
  {
    if Deletes(stmt) { DeletionAsks(t, stmt); } else { WritesAsk(t, stmt); }
  }

  /** An attempt wins exactly if the value is there and the index lets it pass; the count goes up with it. */
  lemma CountStep(t: Table, index: Index, stmt: Statement, k: string, n: int)
    requires stmt.Swap? && CountsUp(Do(stmt), stmt.id, k) && stmt.id in t && Holds(t[stmt.id], k, JInt(n))
    ensures var (t', outcome) := Exec(t, index, stmt);
            stmt.id in t' && Holds(t'[stmt.id], k, JInt(if outcome == Rows(1) then n + 1 else n))
  {
    SingleRow(t, stmt);
  }

  /**
   In any interleaving of swaps from v to v + 1 on one key of a row, with anything foreign to that key
   and any rotation of the row's id in between, the stored value is the initial one plus the number of
   swaps that succeeded.
   */
  lemma {:induction false} NoLostUpdates(t: Table, index: Index, acts: seq<Act>, id: Id, k: string, n: int)
    requires id in t && Holds(t[id], k, JInt(n)) && OnlyCounts(t, index, acts, id, k)
    ensures var t', id' := PerformAll(t, index, acts), FollowAll(t, index, acts, id);
            id' in t' && Holds(t'[id'], k, JInt(n + Successes(t, index, acts, id, k)))
    decreases acts
  {
    if acts != [] {
      var t1, id1 := Perform(t, index, acts[0]).0, Follow(t, acts[0], id);
      var gained := Gained(t, index, acts[0], id, k);
      ActKeepsCount(t, index, acts[0], id, k, n);
      NoLostUpdates(t1, index, acts[1..], id1, k, n + gained);
    }
  }

  lemma ActKeepsCount(t: Table, index: Index, act: Act, id: Id, k: string, n: int)
    requires id in t && Holds(t[id], k, JInt(n)) && (CountsUp(act, id, k) || Foreign(t, act, id, k))
    ensures var t', id' := Perform(t, index, act).0, Follow(t, act, id);
            id' in t' && Holds(t'[id'], k, JInt(n + Gained(t, index, act, id, k)))
  {
    if CountsUp(act, id, k) {
      CountStep(t, index, act.stmt, k, n);
    } else {
      ForeignKeepsKey(t, index, act, id, k);
    }
  }

  ghost predicate OthersSame(t: Table, t': Table, id: Id) {
    t'.Keys == t.Keys && forall other <- t :: other != id ==> t'[other] == t[other]
  }

  /** Swaps on one key leave every other row, and every other key of the row, as they were. */
  lemma {:induction false} SwapsTouchOneKey(t: Table, index: Index, stmts: seq<Statement>, id: Id, k: string)
    requires id in t && t[id].Some? && forall stmt <- stmts :: stmt.Swap? && stmt.id == id && stmt.k == k
    ensures var t' := Run(t, index, stmts);
            && OthersSame(t, t', id)
            && id in t' && t'[id].Some? && t'[id].value - {k} == t[id].value - {k}
    decreases stmts
  {
    if stmts != [] {
      assert stmts[0] in stmts;
      SwapTouchesKey(t, index, stmts[0]);
      SwapsTouchOneKey(Exec(t, index, stmts[0]).0, index, stmts[1..], id, k);
    }
  }

  lemma SwapTouchesKey(t: Table, index: Index, stmt: Statement)
    requires stmt.Swap? && stmt.id in t && t[stmt.id].Some?
    ensures var t' := Exec(t, index, stmt).0;
            && OthersSame(t, t', stmt.id)
            && t'[stmt.id].Some? && t'[stmt.id].value - {stmt.k} == t[stmt.id].value - {stmt.k}
  {
    SingleRow(t, stmt);
    OtherKeysStay(t[stmt.id].value, stmt.k, stmt.v);
  }

  lemma OtherKeysStay(m: Object, k: string, v: Json)
    ensures m[k := v] - {k} == m - {k}
  {
  }

  // ---- What each statement does, row by row ----

  /** `@>` is inclusion of the wanted pairs. */
  lemma ContainsIff(m: Option<Object>, want: Object)
    ensures Contains(m, want) <==> m.Some? && want.Items <= m.value.Items
  {
    if m.Some? {
      if Contains(m, want) {
        assert forall item <- want.Items :: item.0 in want && want[item.0] == item.1;
      }
      if want.Items <= m.value.Items {
        assert forall k <- want :: (k, want[k]) in want.Items;
      }
    }
  }

  /** A delete removes exactly the rows it names, by meta or by id, and counts them. */
  lemma DeletesExactly(t: Table, index: Index, stmt: Statement)
    requires PairDistinct(t, index) && Deletes(stmt)
    ensures var (t', outcome) := Exec(t, index, stmt);
            var doomed := set id |
              id in t && if stmt.DeleteByMeta? then t[id].Some? && stmt.want.Items <= t[id].value.Items
                         else id in stmt.ids;
            && (forall id :: id in t' <==> id in t && id !in doomed)
            && (forall id <- t' :: t'[id] == t[id])
            && outcome == Rows(|doomed|)
  {
    DeletionsPass(t, index, stmt);
    DeletionAsks(t, stmt);
    RemovedSays(t, stmt);
  }

  lemma RemovedSays(t: Table, stmt: Statement)
    requires Deletes(stmt)
    ensures Removed(t, stmt)
            == set id | id in t && if stmt.DeleteByMeta? then t[id].Some? && stmt.want.Items <= t[id].value.Items
                                   else id in stmt.ids
  {
    if stmt.DeleteByMeta? { MatchingSays(t, stmt.want); }
  }

  /** What an accepted write does to the one row it names. */
  lemma WriteSays(t: Table, index: Index, stmt: Statement)
    requires stmt.Insert? || stmt.SetMeta? || stmt.UpsertKey? || stmt.Swap? || stmt.DropKey?
    requires Exec(t, index, stmt).1 != Rejected
    ensures var (t', outcome) := Exec(t, index, stmt);
            match stmt
            case Insert(id, meta) => id !in t && t' == t[id := meta] && outcome == Rows(1)
            case SetMeta(id, meta) =>
              if id in t then t' == t[id := meta] && outcome == Rows(1) else t' == t && outcome == Rows(0)
            case UpsertKey(id, k, v) =>
              if id !in t then t' == t && outcome == Rows(0)
              else t' == t[id := Some((if t[id].Some? then t[id].value else map[])[k := v])] && outcome == Rows(1)
            case Swap(id, k, expected, v) =>
              if id in t && t[id].Some? && k in t[id].value && t[id].value[k] == expected
              then t' == t[id := Some(t[id].value[k := v])] && outcome == Rows(1)
              else t' == t && outcome == Rows(0)
            case DropKey(id, k) =>
              if id !in t then t' == t && outcome == Rows(0)
              else t' == t[id := if t[id].Some? then Some(t[id].value - {k}) else None] && outcome == Rows(1)
            case _ => true
  {
    if stmt.Insert? { InsertAsks(t, stmt); } else { SingleRow(t, stmt); }
  }

  lemma InsertAsks(t: Table, stmt: Statement)
    requires stmt.Insert?
    ensures Asked(t, stmt) == t[stmt.id := stmt.meta] && Touched(t, stmt) == 1
  {
    WritesAsk(t, stmt);
    OneVersion(t, stmt.id, Versions(t, stmt));
  }

  /** What an accepted update by meta does to every row. */
  lemma UpsertSays(t: Table, index: Index, want: Object, k: string, v: Json)
    requires Exec(t, index, UpsertByMeta(want, k, v)).1 != Rejected
    ensures var (t', outcome) := Exec(t, index, UpsertByMeta(want, k, v));
            var named := set id | id in t && t[id].Some? && want.Items <= t[id].value.Items;
            && t'.Keys == t.Keys && outcome == Rows(|named|)
            && forall id <- t :: t'[id] == if id in named then Some(t[id].value[k := v]) else t[id]
  {
    UpsertVerdict(t, index, want, k, v);
    MatchingSays(t, want);
    UpsertLeaves(t, want, k, v);
  }

  /** The rows an update by meta is to leave: the key set wherever the wanted pairs are. */
  function Upserted(t: Table, want: Object, k: string, v: Json): Table {
    map id | id in t :: if Contains(t[id], want) then Some(t[id].value[k := v]) else t[id]
  }

  /** It is rejected exactly if two of the rows it would leave agree on the pair. */
  lemma UpsertRejectedIff(t: Table, index: Index, want: Object, k: string, v: Json)
    ensures var left := Upserted(t, want, k, v);
            Exec(t, index, UpsertByMeta(want, k, v)).1 == Rejected
            <==> exists a, b :: a in left && b in left && a != b && SamePair(left[a], left[b], index)
  {
    UpsertVerdict(t, index, want, k, v);
    UpsertLeaves(t, want, k, v);
    DistinctIff(Upserted(t, want, k, v), index);
  }

  lemma UpsertLeaves(t: Table, want: Object, k: string, v: Json)
    ensures t + Versions(t, UpsertByMeta(want, k, v)) == Upserted(t, want, k, v)
  {
    UpsertRows(t, want, k, v);
  }

  lemma MatchingSays(t: Table, want: Object)
    ensures Matching(t, want) == set id | id in t && t[id].Some? && want.Items <= t[id].value.Items
  {
    forall id <- t
      ensures Contains(t[id], want) <==> t[id].Some? && want.Items <= t[id].value.Items
    {
      ContainsIff(t[id], want);
    }
  }

  lemma BlockedIff(t: Table, index: Index, id: Id, version: Option<Object>)
    ensures Blocked(t, index, id, version)
            <==> exists other <- t :: other != id && SamePair(version, t[other], index)
  {
    forall other <- t
      ensures Collides(version, t[other], index) <==> SamePair(version, t[other], index)
    {
      CollidesIff(version, t[other], index);
    }
  }

  /**
   A write of one row is rejected exactly if it inserts a taken id, or if its new version agrees on the
   pair with another row; dropping a key never is.
   */
  lemma WriteRejectedIff(t: Table, index: Index, stmt: Statement)
    requires PairDistinct(t, index)
    requires stmt.Insert? || stmt.SetMeta? || stmt.UpsertKey? || stmt.Swap? || stmt.DropKey?
    ensures Exec(t, index, stmt).1 == Rejected
            <==> match stmt
                 case Insert(id, meta) =>
                   id in t || exists other <- t :: other != id && SamePair(meta, t[other], index)
                 case SetMeta(id, meta) =>
                   id in t && exists other <- t :: other != id && SamePair(meta, t[other], index)
                 case UpsertKey(id, k, v) =>
                   id in t && exists other <- t :: other != id && SamePair(SetKey(t[id], k, v), t[other], index)
                 case Swap(id, k, expected, v) =>
                   && id in t && Holds(t[id], k, expected)
                   && exists other <- t :: other != id && SamePair(SetKey(t[id], k, v), t[other], index)
                 case _ => false
  {
    match stmt
    case Insert(id, meta) =>
      InsertAsks(t, stmt);
      if id !in t {
        StillDistinct(t, index, id, meta);
        BlockedIff(t, index, id, meta);
      }
    case DropKey(id, k) => DropIsNeverRejected(t, index, id, k);
    case SetMeta(id, meta) => UpdateRejectedIff(t, index, stmt);
    case UpsertKey(id, k, v) => UpdateRejectedIff(t, index, stmt);
    case Swap(id, k, expected, v) => UpdateRejectedIff(t, index, stmt);
  }

  lemma UpdateRejectedIff(t: Table, index: Index, stmt: Statement)
    requires PairDistinct(t, index) && (stmt.SetMeta? || stmt.UpsertKey? || stmt.Swap?)
    ensures var versions := Versions(t, stmt);
            Exec(t, index, stmt).1 == Rejected
            <==> versions != map[] && stmt.id in versions
                 && exists other <- t :: other != stmt.id && SamePair(versions[stmt.id], t[other], index)
  {
    RowVerdict(t, index, stmt);
    SingleRow(t, stmt);
    var versions := Versions(t, stmt);
    if versions != map[] {
      StillDistinct(t, index, stmt.id, versions[stmt.id]);
      BlockedIff(t, index, stmt.id, versions[stmt.id]);
    }
  }

  lemma DropIsNeverRejected(t: Table, index: Index, id: Id, k: string)
    requires PairDistinct(t, index)
    ensures Exec(t, index, DropKey(id, k)).1 != Rejected
  {
    RowVerdict(t, index, DropKey(id, k));
    if id in t {
      var version := Dropped(t[id], k);
      DropsNoEntry(t[id], k, index);
      SameEntryPasses(t, index, id, version);
      StillDistinct(t, index, id, version);
    }
  }

  function Dropped(m: Option<Object>, k: string): Option<Object> {
    if m.Some? then Some(m.value - {k}) else None
  }

  lemma DropsNoEntry(m: Option<Object>, k: string, index: Index)
    ensures IndexEntry(Dropped(m, k), index).Some? ==> IndexEntry(Dropped(m, k), index) == IndexEntry(m, index)
  {
  }

  /** A new version with the index entry of the old one, or with none, collides with nothing. */
  lemma SameEntryPasses(t: Table, index: Index, id: Id, version: Option<Object>)
    requires PairDistinct(t, index) && id in t
    requires IndexEntry(version, index).Some? ==> IndexEntry(version, index) == IndexEntry(t[id], index)
    ensures !Blocked(t, index, id, version)
  {
    forall other <- t | other != id
      ensures !Collides(version, t[other], index)
    {
      assert !Collides(t[id], t[other], index);
    }
  }

  /** The number a decimal text stands for. */
  function Number(s: string): int {
    if s == [] then 0
    else 10 * Number(s[..|s| - 1]) + (s[|s| - 1] as int - '0' as int)
  }

  lemma {:induction false} DigitsCount(n: nat)
    ensures Number(Digits(n)) == n && forall c <- Digits(n) :: '0' <= c <= '9'
  {
    assert forall d: nat :: d < 10 ==> "0123456789"[d] as int == '0' as int + d;
    if n < 10 {
      assert Digits(n)[..0] == [];
    } else {
      DigitsCount(n / 10);
      assert Digits(n)[..|Digits(n)| - 1] == Digits(n / 10);
    }
  }

  /** `->>` gives no text for null alone, a string its own text, a number its decimal text. */
  lemma TextSays(v: Json)
    ensures match v
            case JNull => Text(v) == None
            case JBool(b) => Text(v) == Some(if b then "true" else "false")
            case JStr(s) => Text(v) == Some(s)
            case JInt(n) =>
              && Text(v).Some? && Text(v).value != []
              && if n < 0 then Text(v).value[0] == '-' && Number(Text(v).value[1..]) == -n
                 else Text(v).value[0] != '-' && Number(Text(v).value) == n
  {
    if v.JInt? {
      var n: nat := if v.n < 0 then -v.n else v.n;
      DigitsCount(n);
      assert Digits(n)[0] in Digits(n);
      assert ("-" + Digits(n))[1..] == Digits(n);
    }
  }

  // ---- The cached session ----

  /** After an accepted replacement the meta given is the row's exactly if the id named a row. */
  lemma ReplacementReachesRowIff(t: Table, index: Index, id: Id, meta: Object)
    requires Exec(t, index, SetMeta(id, Some(meta))).1 != Rejected
    ensures var t' := Exec(t, index, SetMeta(id, Some(meta))).0;
            id in t' && t'[id] == Some(meta) <==> id in t
  {
    SingleRow(t, SetMeta(id, Some(meta)));
  }

  /** A rotation in between loses the write: no row changes, and the row's meta is what it was. */
  lemma RotationLosesReplacement(t: Table, index: Index, id: Id, newId: Id, meta: Object)
    requires PairDistinct(t, index) && id in t && newId !in t
    ensures var t1 := Perform(t, index, Rotate(id, newId)).0;
            Perform(t1, index, Do(SetMeta(id, Some(meta)))) == (t1, Rows(0)) && newId in t1 && t1[newId] == t[id]
  {
    var t1 := Rotated(t, id, newId);
    RotationStaysDistinct(t, index, id, newId);
    SingleRow(t1, SetMeta(id, Some(meta)));
  }

  /**
   The full verdict on a swap: it touches nothing where the key is absent or another value is there,
   is rejected where another row has the new version's index entry, and else succeeds.
   */
  lemma SwapSucceedsIff(t: Table, index: Index, id: Id, k: string, expected: Json, v: Json)
    requires PairDistinct(t, index)
    ensures Exec(t, index, Swap(id, k, expected, v)).1
            == if id !in t || !Holds(t[id], k, expected) then Rows(0)
               else if Blocked(t, index, id, SetKey(t[id], k, v)) then Rejected
               else Rows(1)
    ensures id in t && k != index.key1 && k != index.key2 ==> !Blocked(t, index, id, SetKey(t[id], k, v))
  {
    if id in t && k != index.key1 && k != index.key2 { OutsideIndexPasses(t, index, id, k, v); }
    if id !in t || !Holds(t[id], k, expected) {
      SwapMisses(t, index, id, k, expected, v);
    } else {
      SwapHits(t, index, id, k, expected, v);
    }
  }

  /** Writing a key the index does not cover leaves the row's entry, so it collides with nothing. */
  lemma OutsideIndexPasses(t: Table, index: Index, id: Id, k: string, v: Json)
    requires PairDistinct(t, index) && id in t && k != index.key1 && k != index.key2
    ensures !Blocked(t, index, id, SetKey(t[id], k, v))
  {
    SameEntryPasses(t, index, id, SetKey(t[id], k, v));
  }

  lemma SwapMisses(t: Table, index: Index, id: Id, k: string, expected: Json, v: Json)
    requires PairDistinct(t, index) && (id !in t || !Holds(t[id], k, expected))
    ensures Exec(t, index, Swap(id, k, expected, v)) == (t, Rows(0))
  {
    SingleRow(t, Swap(id, k, expected, v));
  }

  lemma SwapHits(t: Table, index: Index, id: Id, k: string, expected: Json, v: Json)
    requires PairDistinct(t, index) && id in t && Holds(t[id], k, expected)
    ensures var version := SetKey(t[id], k, v);
            Exec(t, index, Swap(id, k, expected, v))
            == if Blocked(t, index, id, version) then (t, Rejected) else (t[id := version], Rows(1))
  {
    SwapAsks(t, id, k, expected, v);
    StillDistinct(t, index, id, SetKey(t[id], k, v));
  }

  lemma SwapAsks(t: Table, id: Id, k: string, expected: Json, v: Json)
    requires id in t && Holds(t[id], k, expected)
    ensures Asked(t, Swap(id, k, expected, v)) == t[id := SetKey(t[id], k, v)]
    ensures Touched(t, Swap(id, k, expected, v)) == 1
  {
    assert Versions(t, Swap(id, k, expected, v)) == map[id := SetKey(t[id], k, v)];
    SingleRow(t, Swap(id, k, expected, v));
  }

  /** A statement that writes at most one row asks for the table with that row updated. */
  lemma SingleRow(t: Table, stmt: Statement)
    requires stmt.SetMeta? || stmt.UpsertKey? || stmt.Swap? || stmt.DropKey?
    ensures Versions(t, stmt) == map[] ==> Asked(t, stmt) == t && Touched(t, stmt) == 0
    ensures Versions(t, stmt) != map[] ==>
              && stmt.id in t && Versions(t, stmt).Keys == {stmt.id} && Touched(t, stmt) == 1
              && Asked(t, stmt) == t[stmt.id := Versions(t, stmt)[stmt.id]]
  {
    WritesAsk(t, stmt);
    var versions := Versions(t, stmt);
    OneVersion(t, stmt.id, versions);
  }

  lemma OneVersion(t: Table, id: Id, versions: Table)
    ensures versions == map[] ==> t + versions == t && |versions.Keys| == 0
    ensures versions.Keys == {id} ==> t + versions == t[id := versions[id]] && |versions.Keys| == 1
  {
  }

  // ---- The implementation ----

  /** Once a row's new version collides with an old one, that row's own new version collides too. */
  lemma CollisionStays(m: Option<Object>, n: Option<Object>, k: string, v: Json, index: Index)
    requires Collides(SetKey(m, k, v), n, index)
    ensures Collides(SetKey(m, k, v), SetKey(n, k, v), index)
  {
  }

  /** What the update of one row comes to. */
  lemma RowVerdict(t: Table, index: Index, stmt: Statement)
    requires PairDistinct(t, index) && (stmt.SetMeta? || stmt.UpsertKey? || stmt.Swap? || stmt.DropKey?)
    ensures var versions := Versions(t, stmt);
            Exec(t, index, stmt)
            == if versions == map[] then (t, Rows(0))
               else if PairDistinct(t[stmt.id := versions[stmt.id]], index)
               then (t[stmt.id := versions[stmt.id]], Rows(1)) else (t, Rejected)
  {
    SingleRow(t, stmt);
  }

  lemma UpsertVerdict(t: Table, index: Index, want: Object, k: string, v: Json)
    ensures var versions := Versions(t, UpsertByMeta(want, k, v));
            Exec(t, index, UpsertByMeta(want, k, v))
            == if PairDistinct(t + versions, index) then (t + versions, Rows(|Matching(t, want)|)) else (t, Rejected)
  {
    UpsertAsks(t, want, k, v);
  }

  lemma UpsertAsks(t: Table, want: Object, k: string, v: Json)
    ensures Asked(t, UpsertByMeta(want, k, v)) == t + Versions(t, UpsertByMeta(want, k, v))
    ensures Touched(t, UpsertByMeta(want, k, v)) == |Matching(t, want)|
  {
    WritesAsk(t, UpsertByMeta(want, k, v));
    UpsertRows(t, want, k, v);
  }

  lemma UpsertRows(t: Table, want: Object, k: string, v: Json)
    ensures Versions(t, UpsertByMeta(want, k, v)).Keys == Matching(t, want)
  {
  }

  class MetaTable {
    const index: Index
    var rows: Table

    ghost predicate Valid()
      reads this
    {
      PairDistinct(rows, index)
    }

    constructor (index: Index)
      ensures this.index == index && rows == map[] && Valid()
    {
      this.index := index;
      rows := map[];
    }

    /** The index lookup for a new row version: another row with the same entry, if there is one. */
    method FindCollision(id: Id, version: Option<Object>) returns (found: Option<Id>)
      ensures found == None ==> forall other <- rows :: other != id ==> !Collides(version, rows[other], index)
      ensures found.Some? ==> found.value in rows && found.value != id && Collides(version, rows[found.value], index)
    {
      var others := set other | other in rows && other != id && Collides(version, rows[other], index);
      if others == {} {
        assert forall other <- rows :: other != id && Collides(version, rows[other], index) ==> other in others;
        return None;
      }
      var other :| other in others;
      return Some(other);
    }

    /** One row version, inserted or updated, unless it collides. */
    method WriteRow(id: Id, version: Option<Object>) returns (written: bool)
      requires Valid()
      modifies this
      ensures Valid()
      ensures written <==> PairDistinct(old(rows)[id := version], index)
      ensures rows == if written then old(rows)[id := version] else old(rows)
    {
      StillDistinct(rows, index, id, version);
      var other := FindCollision(id, version);
      if other.Some? {
        return false;
      }
      rows := rows[id := version];
      return true;
    }

    /** The row versions of a statement, written one by one and undone on a collision. */
    method WriteRows(versions: Table) returns (written: bool)
      requires Valid() && Steady(rows, index, versions)
      modifies this
      ensures Valid()
      ensures written <==> PairDistinct(old(rows) + versions, index)
      ensures rows == if written then old(rows) + versions else old(rows)
    {
      var before := rows;
      var pending := versions.Keys;
      assert before + Only(versions, versions.Keys - pending) == before;
      while pending != {}
        invariant pending <= versions.Keys && Valid()
        invariant rows == before + Only(versions, versions.Keys - pending)
        decreases pending
      {
        var id :| id in pending;
        ghost var done := versions.Keys - (pending - {id});
        assert rows[id := versions[id]] == before + Only(versions, done);
        pending := pending - {id};
        var ok := WriteRow(id, versions[id]);
        if !ok {
          CollisionsStay(before, index, versions, done);
          rows := before;
          return false;
        }
      }
      assert Only(versions, versions.Keys - pending) == versions;
      return true;
    }

    /** Both `upsert_auth_sessions_meta_key_by_meta` and its pair-scoped form, by what `want` holds. */
    method UpsertByMetaPairs(want: Object, k: string, v: Json) returns (outcome: Outcome)
      requires Valid()
      modifies this
      ensures Valid()
      ensures rows == Exec(old(rows), index, UpsertByMeta(want, k, v)).0
      ensures outcome == Exec(old(rows), index, UpsertByMeta(want, k, v)).1
    {
      UpsertVerdict(rows, index, want, k, v);
      StatementsAreSteady(rows, index, UpsertByMeta(want, k, v));
      var count := |Matching(rows, want)|;
      var written := WriteRows(Versions(rows, UpsertByMeta(want, k, v)));
      outcome := if written then Rows(count) else Rejected;
    }

    method CompareAndSwap(id: Id, k: string, expected: Json, v: Json) returns (outcome: Outcome)
      requires Valid()
      modifies this
      ensures Valid()
      ensures rows == Exec(old(rows), index, Swap(id, k, expected, v)).0
      ensures outcome == Exec(old(rows), index, Swap(id, k, expected, v)).1
    {
      RowVerdict(rows, index, Swap(id, k, expected, v));
      if id !in rows || !Holds(rows[id], k, expected) {
        return Rows(0);
      }
      var written := WriteRow(id, SetKey(rows[id], k, v));
      outcome := if written then Rows(1) else Rejected;
    }

    method UpsertMetaKey(id: Id, k: string, v: Json) returns (outcome: Outcome)
      requires Valid()
      modifies this
      ensures Valid()
      ensures rows == Exec(old(rows), index, UpsertKey(id, k, v)).0
      ensures outcome == Exec(old(rows), index, UpsertKey(id, k, v)).1
    {
      RowVerdict(rows, index, UpsertKey(id, k, v));
      if id !in rows {
        return Rows(0);
      }
      var written := WriteRow(id, SetKey(rows[id], k, v));
      outcome := if written then Rows(1) else Rejected;
    }

    method UpdateMeta(id: Id, meta: Object) returns (outcome: Outcome)
      requires Valid()
      modifies this
      ensures Valid()
      ensures rows == Exec(old(rows), index, SetMeta(id, Some(meta))).0
      ensures outcome == Exec(old(rows), index, SetMeta(id, Some(meta))).1
    {
      RowVerdict(rows, index, SetMeta(id, Some(meta)));
      if id !in rows {
        return Rows(0);
      }
      var written := WriteRow(id, Some(meta));
      outcome := if written then Rows(1) else Rejected;
    }

    method DeleteByMetaPairs(want: Object) returns (count: nat)
      requires Valid()
      modifies this
      ensures Valid()
      ensures (rows, Rows(count)) == Exec(old(rows), index, DeleteByMeta(want))
      ensures forall id :: id in rows <==> id in old(rows) && !Contains(old(rows)[id], want)
      ensures forall id <- rows :: rows[id] == old(rows)[id]
      ensures |old(rows)| == |rows| + count
    {
      DeletionsPass(rows, index, DeleteByMeta(want));
      DeletionsCount(rows, DeleteByMeta(want));
      DeletionAsks(rows, DeleteByMeta(want));
      FewerRowsStayDistinct(rows, index, Matching(rows, want));
      var matching := Matching(rows, want);
      rows := rows - matching;
      count := |matching|;
    }
  }

  /** The token's wrappers around the statements, which keep `auth_session` in step with its row. */
  class HeaderToken {
    const table: MetaTable
    const uniqueId: Id
    var cached: Option<Option<Object>>

    constructor (table: MetaTable, uniqueId: Id)
      requires uniqueId in table.rows
      ensures this.table == table && this.uniqueId == uniqueId && cached == Some(table.rows[uniqueId])
    {
      this.table, this.uniqueId, cached := table, uniqueId, Some(table.rows[uniqueId]);
    }

    /** A swap that went through shows in the cache; one that did not leaves cache and table alone. */
    method CompareAndSwap(k: string, expected: Json, v: Json) returns (swapped: Result<bool, ()>)
      requires table.Valid()
      modifies this, table
      ensures table.Valid()
      ensures table.rows == Exec(old(table.rows), table.index, Swap(uniqueId, k, expected, v)).0
      ensures swapped == Ok(true) ==>
                && uniqueId in table.rows && cached == Some(table.rows[uniqueId]) && Holds(table.rows[uniqueId], k, v)
                && uniqueId in old(table.rows) && Holds(old(table.rows)[uniqueId], k, expected)
      ensures swapped != Ok(true) ==> cached == old(cached) && table.rows == old(table.rows)
      ensures swapped == Ok(false) <==> !(uniqueId in old(table.rows) && Holds(old(table.rows)[uniqueId], k, expected))
    {
      SingleRow(table.rows, Swap(uniqueId, k, expected, v));
      var outcome := table.CompareAndSwap(uniqueId, k, expected, v);
      if outcome == Rejected {
        return Err(());
      }
      if outcome == Rows(1) {
        cached := Some(table.rows[uniqueId]);
        return Ok(true);
      }
      return Ok(false);
    }

    method UpsertMetaKey(k: string, v: Json) returns (done: Result<(), ()>)
      requires table.Valid()
      modifies this, table
      ensures table.Valid()
      ensures table.rows == Exec(old(table.rows), table.index, UpsertKey(uniqueId, k, v)).0
      ensures done.Ok? && uniqueId in table.rows ==>
                cached == Some(table.rows[uniqueId]) && Holds(table.rows[uniqueId], k, v)
      ensures done.Err? || uniqueId !in table.rows ==> cached == old(cached) && table.rows == old(table.rows)
    {
      SingleRow(table.rows, UpsertKey(uniqueId, k, v));
      var outcome := table.UpsertMetaKey(uniqueId, k, v);
      if outcome == Rejected {
        return Err(());
      }
      if outcome == Rows(1) {
        cached := Some(table.rows[uniqueId]);
      }
      return Ok(());
    }

    /** A replacement shows in the cache even when the row is gone, and then only there. */
    method UpdateMeta(meta: Object) returns (done: Result<(), ()>)
      requires table.Valid()
      modifies this, table
      ensures table.Valid()
      ensures table.rows == Exec(old(table.rows), table.index, SetMeta(uniqueId, Some(meta))).0
      ensures done.Err? ==> cached == old(cached) && table.rows == old(table.rows)
      ensures done.Ok? && old(cached).Some? ==>
                cached == Some(Some(meta)) && (uniqueId in table.rows ==> table.rows[uniqueId] == Some(meta))
      ensures uniqueId !in old(table.rows) ==> done.Ok? && table.rows == old(table.rows)
      ensures done.Ok? && old(cached).Some? ==>
                (uniqueId in table.rows && cached == Some(table.rows[uniqueId]) <==> uniqueId in old(table.rows))
      ensures done.Ok? && old(cached).None? ==> cached == None
    {
      SingleRow(table.rows, SetMeta(uniqueId, Some(meta)));
      var outcome := table.UpdateMeta(uniqueId, meta);
      if outcome == Rejected {
        return Err(());
      }
      if cached.Some? {
        cached := Some(Some(meta));
      }
      return Ok(());
    }
  }
}
