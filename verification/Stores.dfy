/**
 The in-memory file store: one flat map from full path to text, where a folder is whatever lies
 under a path, component by component. Folder moves and copies walk the keys in hash order.
 */
module Stores {
  import opened Common

  /** The components of a full path. */
  type Key = seq<string>

  type Files = map<Key, string>

  datatype FileError = NotFound(path: Key)

  // ---- One file ----

  function DeleteIn(m: Files, p: Key): (Files, Result<(), FileError>) {
    if p in m then (m - {p}, Ok(())) else (m, Err(NotFound(p)))
  }

  function MoveIn(m: Files, from: Key, to: Key): (Files, Result<(), FileError>) {
    if from in m then ((m - {from})[to := m[from]], Ok(())) else (m, Err(NotFound(from)))
  }

  function CopyIn(m: Files, from: Key, to: Key): (Files, Result<(), FileError>) {
    if from in m then (m[to := m[from]], Ok(())) else (m, Err(NotFound(from)))
  }

  // ---- Folders ----

  /** `Path::starts_with`: component-wise, and a path starts with itself. */
  predicate Under(dir: Key, key: Key) {
    dir <= key
  }

  function FolderKeys(m: Files, dir: Key): set<Key> {
    set k | k in m && Under(dir, k)
  }

  /** The key with its `from` prefix swapped for `to`. */
  function Rebase(from: Key, to: Key, key: Key): Key
    requires Under(from, key)
  {
    to + key[|from|..]
  }

  function DeleteFolderIn(m: Files, dir: Key): (Files, Result<(), FileError>) {
    var keys := FolderKeys(m, dir);
    if keys == {} then (m, Err(NotFound(dir))) else (m - keys, Ok(()))
  }

  /** A folder delete, told by its keys: the subtree goes, the rest stays, and an empty one is not found. */
  lemma FolderIsDeleted(m: Files, dir: Key, m': Files, r: Result<(), FileError>)
    ensures (m', r) == DeleteFolderIn(m, dir)
            <==> && r == (if exists k <- m :: dir <= k then Ok(()) else Err(NotFound(dir)))
                 && (forall k :: k in m' <==> k in m && !(dir <= k))
                 && (forall k <- m' :: m'[k] == m[k])
  {
    var keys := FolderKeys(m, dir);
    if k :| k in m && dir <= k {
      assert k in keys;
    } else {
      assert keys == {};
      assert m - keys == m;
    }
    if (forall k :: k in m' <==> k in m && !(dir <= k)) && (forall k <- m' :: m'[k] == m[k]) {
      assert m' == m - keys;
    }
  }

  /** Every key of the set, once, in some order. */
  ghost predicate IsOrder(order: seq<Key>, keys: set<Key>) {
    && (forall k :: k in order <==> k in keys)
    && (forall i, j :: 0 <= i < j < |order| ==> order[i] != order[j])
  }

  /** The keys moved one after the other, each into the map the moves before it left. */
  ghost function MoveInOrder(m: Files, from: Key, to: Key, order: seq<Key>): Files
    requires forall k <- order :: Under(from, k)
  {
    if order == [] then m
    else
      var k := order[|order| - 1];
      var before := MoveInOrder(m, from, to, order[..|order| - 1]);
      if k in before then (before - {k})[Rebase(from, to, k) := before[k]] else before
  }

  ghost function CopyInOrder(m: Files, from: Key, to: Key, order: seq<Key>): Files
    requires forall k <- order :: Under(from, k)
  {
    if order == [] then m
    else
      var k := order[|order| - 1];
      var before := CopyInOrder(m, from, to, order[..|order| - 1]);
      if k in before then before[Rebase(from, to, k) := before[k]] else before
  }

  /** `j` is where a key of `keys` goes. */
  ghost predicate IsTarget(from: Key, to: Key, keys: set<Key>, j: Key) {
    Under(to, j) && from + j[|to|..] in keys
  }

  ghost function Targets(from: Key, to: Key, keys: set<Key>): set<Key>
    requires forall k <- keys :: Under(from, k)
  {
    set k | k in keys :: Rebase(from, to, k)
  }

  /** The keys of `keys` relocated all at once: the meaning a folder move has if order does not matter. */
  ghost function Moved(m: Files, from: Key, to: Key, keys: set<Key>): Files
    requires forall k <- keys :: k in m && Under(from, k)
  {
    map j | j in m.Keys + Targets(from, to, keys) && (IsTarget(from, to, keys, j) || (j in m && j !in keys)) ::
      if IsTarget(from, to, keys, j) then m[from + j[|to|..]] else m[j]
  }

  ghost function Copied(m: Files, from: Key, to: Key, keys: set<Key>): Files
    requires forall k <- keys :: k in m && Under(from, k)
  {
    map j | j in m.Keys + Targets(from, to, keys) && (IsTarget(from, to, keys, j) || j in m) ::
      if IsTarget(from, to, keys, j) then m[from + j[|to|..]] else m[j]
  }

  /** No key has to go where another key still waits to be moved. */
  ghost predicate MoveSettled(m: Files, from: Key, to: Key) {
    forall k <- FolderKeys(m, from) ::
      Rebase(from, to, k) == k || Rebase(from, to, k) !in FolderKeys(m, from)
  }

  /** No key is copied over another key with a different text that still waits to be copied. */
  ghost predicate CopySettled(m: Files, from: Key, to: Key) {
    forall k <- FolderKeys(m, from) ::
      Rebase(from, to, k) in FolderKeys(m, from) ==> m[Rebase(from, to, k)] == m[k]
  }

  predicate Disjoint(from: Key, to: Key) {
    !Under(from, to) && !Under(to, from)
  }

  lemma RebaseInverts(from: Key, to: Key, k: Key)
    requires Under(from, k)
    ensures Under(to, Rebase(from, to, k)) && from + Rebase(from, to, k)[|to|..] == k
  {
  }

  lemma TargetIsRebase(from: Key, to: Key, keys: set<Key>, j: Key)
    requires forall k <- keys :: Under(from, k)
    ensures IsTarget(from, to, keys, j) <==> j in Targets(from, to, keys)
    ensures IsTarget(from, to, keys, j) ==> Rebase(from, to, from + j[|to|..]) == j
  {
    if j in Targets(from, to, keys) {
      var k :| k in keys && j == Rebase(from, to, k);
      RebaseInverts(from, to, k);
    }
    if IsTarget(from, to, keys, j) {
      assert Rebase(from, to, from + j[|to|..]) == j;
    }
  }

  lemma DisjointSettles(m: Files, from: Key, to: Key)
    requires Disjoint(from, to)
    ensures MoveSettled(m, from, to) && CopySettled(m, from, to)
  {
    forall k <- FolderKeys(m, from)
      ensures !Under(from, Rebase(from, to, k))
    {
      DisjointSubtrees(from, to, Rebase(from, to, k));
    }
  }

  lemma SharedKeyNests(a: Key, b: Key, key: Key)
    requires Under(a, key) && Under(b, key)
    ensures Under(a, b) || Under(b, a)
  {
    if |a| <= |b| {
      assert key[..|b|][..|a|] == key[..|a|];
    } else {
      assert key[..|a|][..|b|] == key[..|b|];
    }
  }

  /** Nothing lies under two disjoint folders. */
  lemma DisjointSubtrees(from: Key, to: Key, key: Key)
    requires Disjoint(from, to)
    ensures !(Under(from, key) && Under(to, key))
  {
    if Under(from, key) && Under(to, key) {
      SharedKeyNests(from, to, key);
    }
  }

  ghost function ToSet(order: seq<Key>): set<Key> {
    set k | k in order
  }

  lemma TargetsGrow(from: Key, to: Key, keys: set<Key>, q: Key, j: Key)
    requires Under(from, q) && forall k <- keys :: Under(from, k)
    ensures IsTarget(from, to, keys + {q}, j) <==> IsTarget(from, to, keys, j) || j == Rebase(from, to, q)
  {
    RebaseInverts(from, to, q);
    TargetIsRebase(from, to, keys + {q}, j);
  }

  lemma MovedStep(m: Files, from: Key, to: Key, keys: set<Key>, q: Key)
    requires q in m && Under(from, q) && forall k <- keys :: k in m && Under(from, k)
    requires q !in keys && !IsTarget(from, to, keys, q)
    ensures var before := Moved(m, from, to, keys);
            && q in before && before[q] == m[q]
            && (before - {q})[Rebase(from, to, q) := m[q]] == Moved(m, from, to, keys + {q})
  {
    var before, after := Moved(m, from, to, keys), Moved(m, from, to, keys + {q});
    var next := (before - {q})[Rebase(from, to, q) := m[q]];
    RebaseInverts(from, to, q);
    forall j
      ensures j in next <==> j in after
      ensures j in next ==> next[j] == after[j]
    {
      TargetsGrow(from, to, keys, q, j);
      TargetIsRebase(from, to, keys, j);
      TargetIsRebase(from, to, keys + {q}, j);
    }
  }

  lemma {:induction false} SettledMove(m: Files, from: Key, to: Key, order: seq<Key>)
    requires MoveSettled(m, from, to)
    requires forall k <- order :: k in m && Under(from, k)
    requires forall i, j :: 0 <= i < j < |order| ==> order[i] != order[j]
    ensures MoveInOrder(m, from, to, order) == Moved(m, from, to, ToSet(order))
  {
    if order == [] {
      assert Moved(m, from, to, {}) == m;
    } else {
      var init, q := order[..|order| - 1], order[|order| - 1];
      SettledMove(m, from, to, init);
      var keys := ToSet(init);
      assert ToSet(order) == keys + {q} && q !in keys;
      TargetIsRebase(from, to, keys, q);
      assert !IsTarget(from, to, keys, q);
      MovedStep(m, from, to, keys, q);
    }
  }

  lemma CopiedStep(m: Files, from: Key, to: Key, keys: set<Key>, q: Key)
    requires q in m && Under(from, q) && forall k <- keys :: k in m && Under(from, k)
    ensures var before := Copied(m, from, to, keys);
            q in before && before[Rebase(from, to, q) := m[q]] == Copied(m, from, to, keys + {q})
  {
    var before, after := Copied(m, from, to, keys), Copied(m, from, to, keys + {q});
    var next := before[Rebase(from, to, q) := m[q]];
    RebaseInverts(from, to, q);
    forall j
      ensures j in next <==> j in after
      ensures j in next ==> next[j] == after[j]
    {
      TargetsGrow(from, to, keys, q, j);
      TargetIsRebase(from, to, keys, j);
      TargetIsRebase(from, to, keys + {q}, j);
    }
  }

  lemma {:induction false} SettledCopy(m: Files, from: Key, to: Key, order: seq<Key>)
    requires CopySettled(m, from, to)
    requires forall k <- order :: k in m && Under(from, k)
    ensures CopyInOrder(m, from, to, order) == Copied(m, from, to, ToSet(order))
  {
    if order == [] {
      assert Copied(m, from, to, {}) == m;
    } else {
      var init, q := order[..|order| - 1], order[|order| - 1];
      SettledCopy(m, from, to, init);
      var keys := ToSet(init);
      assert ToSet(order) == keys + {q};
      CopiedStep(m, from, to, keys, q);
      TargetIsRebase(from, to, keys, q);
      if IsTarget(from, to, keys, q) {
        var k := from + q[|to|..];
        assert k in FolderKeys(m, from) && q in FolderKeys(m, from);
      }
      assert Copied(m, from, to, keys)[q] == m[q];
    }
  }

  lemma {:induction false} SomeOrder(keys: set<Key>) returns (order: seq<Key>)
    ensures IsOrder(order, keys)
    decreases keys
  {
    if keys == {} {
      order := [];
    } else {
      var k :| k in keys;
      order := SomeOrder(keys - {k});
      order := order + [k];
    }
  }

  ghost predicate MoveOrderFree(m: Files, from: Key, to: Key) {
    forall order :: IsOrder(order, FolderKeys(m, from)) ==>
      MoveInOrder(m, from, to, order) == Moved(m, from, to, FolderKeys(m, from))
  }

  ghost predicate CopyOrderFree(m: Files, from: Key, to: Key) {
    forall order :: IsOrder(order, FolderKeys(m, from)) ==>
      CopyInOrder(m, from, to, order) == Copied(m, from, to, FolderKeys(m, from))
  }

  lemma OrderEndingWith(keys: set<Key>, last: Key) returns (init: seq<Key>)
    requires last in keys
    ensures IsOrder(init + [last], keys) && (init + [last])[..|init|] == init
    ensures last !in init && forall k <- init :: k in keys
  {
    init := SomeOrder(keys - {last});
  }

  lemma OrderBetween(keys: set<Key>, first: Key, last: Key) returns (rest: seq<Key>, init: seq<Key>)
    requires first in keys && last in keys && first != last
    ensures init == [first] + rest && first !in rest
    ensures IsOrder(init + [last], keys) && (init + [last])[..|init|] == init
    ensures forall k <- init :: k in keys
  {
    rest := SomeOrder(keys - {first, last});
    init := [first] + rest;
  }

  /** Only a move onto itself leaves a key where it is. */
  lemma RebaseMovesAll(from: Key, to: Key, j: Key)
    requires Under(from, j)
    ensures Rebase(from, to, j) == j <==> from == to
  {
    var moved := Rebase(from, to, j);
    if moved == j {
      assert |moved| == |to| + |j| - |from|;
      assert to == moved[..|to|] == j[..|from|] == from;
    }
  }

  lemma LastMovedLeaves(m: Files, from: Key, to: Key, init: seq<Key>, last: Key)
    requires Under(from, last) && forall k <- init :: Under(from, k)
    requires Rebase(from, to, last) != last && (init + [last])[..|init|] == init
    ensures last !in MoveInOrder(m, from, to, init + [last])
  {
  }

  lemma UnsettledMoveDepends(m: Files, from: Key, to: Key)
    requires !MoveSettled(m, from, to)
    ensures !MoveOrderFree(m, from, to)
  {
    var keys := FolderKeys(m, from);
    var k :| k in keys && Rebase(from, to, k) != k && Rebase(from, to, k) in keys;
    var k' := Rebase(from, to, k);
    var init := OrderEndingWith(keys, k');
    RebaseInverts(from, to, k);
    RebaseMovesAll(from, to, k);
    RebaseMovesAll(from, to, k');
    LastMovedLeaves(m, from, to, init, k');
    TargetIsRebase(from, to, keys, k');
    assert k' in Moved(m, from, to, keys);
  }

  /** A folder move relocates the subtree as a whole, in whatever order, exactly when it is settled. */
  lemma MoveIsOrderFreeIffSettled(m: Files, from: Key, to: Key)
    ensures MoveOrderFree(m, from, to) <==> MoveSettled(m, from, to)
  {
    if MoveSettled(m, from, to) {
      forall order | IsOrder(order, FolderKeys(m, from))
        ensures MoveInOrder(m, from, to, order) == Moved(m, from, to, FolderKeys(m, from))
      {
        SettledMove(m, from, to, order);
        assert ToSet(order) == FolderKeys(m, from);
      }
    } else {
      UnsettledMoveDepends(m, from, to);
    }
  }

  lemma {:induction false} FirstCopyStays(m: Files, from: Key, to: Key, k: Key, rest: seq<Key>)
    requires k in FolderKeys(m, from) && k !in rest
    requires forall q <- [k] + rest :: Under(from, q)
    ensures var m' := CopyInOrder(m, from, to, [k] + rest);
            Rebase(from, to, k) in m' && m'[Rebase(from, to, k)] == m[k]
    ensures forall q <- m :: q in CopyInOrder(m, from, to, [k] + rest)
  {
    var all := [k] + rest;
    if rest == [] {
      assert all[..0] == [];
    } else {
      var init := rest[..|rest| - 1];
      assert all[..|all| - 1] == [k] + init;
      FirstCopyStays(m, from, to, k, init);
      RebaseInverts(from, to, k);
      RebaseInverts(from, to, all[|all| - 1]);
    }
  }

  lemma LastCopyLands(m: Files, from: Key, to: Key, init: seq<Key>, last: Key)
    requires Under(from, last) && forall k <- init :: Under(from, k)
    requires (init + [last])[..|init|] == init && last in CopyInOrder(m, from, to, init)
    ensures var before, after := CopyInOrder(m, from, to, init), CopyInOrder(m, from, to, init + [last]);
            Rebase(from, to, last) in after && after[Rebase(from, to, last)] == before[last]
  {
  }

  lemma UnsettledCopyDepends(m: Files, from: Key, to: Key)
    requires !CopySettled(m, from, to)
    ensures !CopyOrderFree(m, from, to)
  {
    var keys := FolderKeys(m, from);
    var k :| k in keys && Rebase(from, to, k) in keys && m[Rebase(from, to, k)] != m[k];
    var k' := Rebase(from, to, k);
    var rest, init := OrderBetween(keys, k, k');
    FirstCopyStays(m, from, to, k, rest);
    LastCopyLands(m, from, to, init, k');
    LastCopyDiffers(m, from, to, init, k, k');
  }

  /** The last key copied had another text by then: the copy is not the one all at once. */
  lemma LastCopyDiffers(m: Files, from: Key, to: Key, init: seq<Key>, k: Key, last: Key)
    requires k in FolderKeys(m, from) && last in FolderKeys(m, from) && m[last] != m[k]
    requires forall q <- init :: Under(from, q)
    requires IsOrder(init + [last], FolderKeys(m, from))
    requires var before, after := CopyInOrder(m, from, to, init), CopyInOrder(m, from, to, init + [last]);
             && last in before && before[last] == m[k]
             && Rebase(from, to, last) in after && after[Rebase(from, to, last)] == before[last]
    ensures !CopyOrderFree(m, from, to)
  {
    var keys, j := FolderKeys(m, from), Rebase(from, to, last);
    RebaseInverts(from, to, last);
    TargetIsRebase(from, to, keys, j);
    assert Copied(m, from, to, keys)[j] == m[last];
    assert CopyInOrder(m, from, to, init + [last]) != Copied(m, from, to, keys);
  }

  /** The same for a copy, where only the texts can come out different. */
  lemma CopyIsOrderFreeIffSettled(m: Files, from: Key, to: Key)
    ensures CopyOrderFree(m, from, to) <==> CopySettled(m, from, to)
  {
    if CopySettled(m, from, to) {
      forall order | IsOrder(order, FolderKeys(m, from))
        ensures CopyInOrder(m, from, to, order) == Copied(m, from, to, FolderKeys(m, from))
      {
        SettledCopy(m, from, to, order);
        assert ToSet(order) == FolderKeys(m, from);
      }
    } else {
      UnsettledCopyDepends(m, from, to);
    }
  }

  /** A key whose turn has not come is still there. */
  lemma {:induction false} UnwalkedStays(m: Files, from: Key, to: Key, order: seq<Key>, j: Key)
    requires j in m && j !in order && forall k <- order :: Under(from, k)
    ensures j in MoveInOrder(m, from, to, order)
  {
    if order != [] {
      UnwalkedStays(m, from, to, order[..|order| - 1], j);
    }
  }

  /** If no target lies under the source, the walk only ever takes keys away from it. */
  lemma {:induction false} WalkEmpties(m: Files, from: Key, to: Key, order: seq<Key>)
    requires forall k <- order :: k in m && Under(from, k) && !Under(from, Rebase(from, to, k))
    ensures FolderKeys(MoveInOrder(m, from, to, order), from) <= FolderKeys(m, from) - ToSet(order)
  {
    if order != [] {
      var init, k := order[..|order| - 1], order[|order| - 1];
      WalkEmpties(m, from, to, init);
      assert ToSet(order) == ToSet(init) + {k};
      assert forall j <- FolderKeys(MoveInOrder(m, from, to, order), from) ::
          j in FolderKeys(MoveInOrder(m, from, to, init), from) && j != k;
    }
  }

  ghost predicate AlwaysEmpties(m: Files, from: Key, to: Key) {
    forall order :: IsOrder(order, FolderKeys(m, from)) ==>
      (forall k <- order :: Under(from, k)) && FolderKeys(MoveInOrder(m, from, to, order), from) == {}
  }

  /**
   A folder move leaves nothing under its source, in whatever order the keys come, exactly when no
   file is rebased back under it.
   */
  lemma MoveEmptiesSource(m: Files, from: Key, to: Key)
    ensures AlwaysEmpties(m, from, to) <==> forall k <- FolderKeys(m, from) :: !Under(from, Rebase(from, to, k))
  {
    var keys := FolderKeys(m, from);
    if forall k <- keys :: !Under(from, Rebase(from, to, k)) {
      forall order | IsOrder(order, keys)
        ensures (forall k <- order :: Under(from, k)) && FolderKeys(MoveInOrder(m, from, to, order), from) == {}
      {
        assert forall k <- order :: k in keys;
        WalkEmpties(m, from, to, order);
        assert ToSet(order) == keys;
      }
    } else {
      var k :| k in keys && Under(from, Rebase(from, to, k));
      var init := OrderEndingWith(keys, k);
      LastMovedLands(m, from, to, init, k);
      assert Rebase(from, to, k) in FolderKeys(MoveInOrder(m, from, to, init + [k]), from);
    }
  }

  lemma LastMovedLands(m: Files, from: Key, to: Key, init: seq<Key>, last: Key)
    requires last in m && last !in init && (init + [last])[..|init|] == init
    requires Under(from, last) && forall k <- init :: Under(from, k)
    ensures Rebase(from, to, last) in MoveInOrder(m, from, to, init + [last])
  {
    UnwalkedStays(m, from, to, init, last);
  }

  /** A folder moved into itself, or onto itself, is never gone from its source, in any order. */
  lemma {:induction false} MoveIntoItselfStays(m: Files, from: Key, to: Key, order: seq<Key>)
    requires Under(from, to)
    requires order != [] && forall k <- order :: k in m && Under(from, k)
    ensures FolderKeys(MoveInOrder(m, from, to, order), from) != {}
  {
    var init, k := order[..|order| - 1], order[|order| - 1];
    if k in MoveInOrder(m, from, to, init) {
      assert Under(from, Rebase(from, to, k));
      assert Rebase(from, to, k) in FolderKeys(MoveInOrder(m, from, to, order), from);
    } else {
      assert init != [];
      MoveIntoItselfStays(m, from, to, init);
    }
  }

  /** Between disjoint folders every file goes to its place with its text, and nothing else changes. */
  lemma DisjointMove(m: Files, from: Key, to: Key, key: Key)
    requires Disjoint(from, to)
    ensures var m' := Moved(m, from, to, FolderKeys(m, from));
            && (Under(from, key) ==> key !in m')
            && (key in FolderKeys(m, from) ==> Rebase(from, to, key) in m' && m'[Rebase(from, to, key)] == m[key])
            && (!Under(from, key) && !Under(to, key) ==> (key in m' <==> key in m) && (key in m ==> m'[key] == m[key]))
  {
    var keys := FolderKeys(m, from);
    DisjointSubtrees(from, to, key);
    TargetIsRebase(from, to, keys, key);
    if key in keys {
      RebaseInverts(from, to, key);
      TargetIsRebase(from, to, keys, Rebase(from, to, key));
    }
  }

  lemma DisjointCopy(m: Files, from: Key, to: Key, key: Key)
    requires Disjoint(from, to)
    ensures var m' := Copied(m, from, to, FolderKeys(m, from));
            && (key in FolderKeys(m, from) ==> Rebase(from, to, key) in m' && m'[Rebase(from, to, key)] == m[key])
            && (!Under(to, key) ==> (key in m' <==> key in m) && (key in m ==> m'[key] == m[key]))
  {
    var keys := FolderKeys(m, from);
    TargetIsRebase(from, to, keys, key);
    if key in keys {
      RebaseInverts(from, to, key);
      TargetIsRebase(from, to, keys, Rebase(from, to, key));
    }
  }

  /** Hash order, or any other: the folder's keys get walked in an order nobody chose. */
  class MemStore {
    var files: Files

    constructor ()
      ensures files == map[]
    {
      files := map[];
    }

    method ReadFile(p: Key) returns (r: Result<string, FileError>)
      ensures r == if p in files then Ok(files[p]) else Err(NotFound(p))
    {
      r := if p in files then Ok(files[p]) else Err(NotFound(p));
    }

    method Exists(p: Key) returns (b: bool)
      ensures b <==> p in files
    {
      b := p in files;
    }

    method WriteFile(p: Key, data: string)
      modifies this
      ensures files == old(files)[p := data]
    {
      files := files[p := data];
    }

    method DeleteFile(p: Key) returns (r: Result<(), FileError>)
      modifies this
      ensures r == if p in old(files) then Ok(()) else Err(NotFound(p))
      ensures files == old(files) - {p}
    {
      if p !in files {
        return Err(NotFound(p));
      }
      files := files - {p};
      return Ok(());
    }

    method MoveFile(from: Key, to: Key) returns (r: Result<(), FileError>)
      modifies this
      ensures r == if from in old(files) then Ok(()) else Err(NotFound(from))
      ensures files == if from in old(files) then (old(files) - {from})[to := old(files)[from]] else old(files)
    {
      if from !in files {
        return Err(NotFound(from));
      }
      var contents := files[from];
      files := files - {from};
      files := files[to := contents];
      return Ok(());
    }

    method CopyFile(from: Key, to: Key) returns (r: Result<(), FileError>)
      modifies this
      ensures r == if from in old(files) then Ok(()) else Err(NotFound(from))
      ensures files == if from in old(files) then old(files)[to := old(files)[from]] else old(files)
    {
      if from !in files {
        return Err(NotFound(from));
      }
      files := files[to := files[from]];
      return Ok(());
    }

    method DeleteFolder(dir: Key) returns (r: Result<(), FileError>)
      modifies this
      ensures r == if exists k <- old(files) :: dir <= k then Ok(()) else Err(NotFound(dir))
      ensures forall k :: k in files <==> k in old(files) && !(dir <= k)
      ensures forall k <- files :: files[k] == old(files)[k]
    {
      var keys := FolderKeys(files, dir);
      FolderIsDeleted(files, dir, DeleteFolderIn(files, dir).0, DeleteFolderIn(files, dir).1);
      if keys == {} {
        return Err(NotFound(dir));
      }
      var pending := keys;
      while pending != {}
        invariant pending <= keys
        invariant files == old(files) - (keys - pending)
        decreases pending
      {
        var key :| key in pending;
        files := files - {key};
        pending := pending - {key};
      }
      assert files == old(files) - keys;
      return Ok(());
    }

    method MoveFolder(from: Key, to: Key) returns (r: Result<(), FileError>, ghost order: seq<Key>)
      modifies this
      ensures r == if FolderKeys(old(files), from) == {} then Err(NotFound(from)) else Ok(())
      ensures IsOrder(order, FolderKeys(old(files), from))
      ensures files == MoveInOrder(old(files), from, to, order)
    {
      var keys := FolderKeys(files, from);
      order := [];
      if keys == {} {
        return Err(NotFound(from)), [];
      }
      var pending := keys;
      while pending != {}
        invariant pending <= keys && pending <= files.Keys
        invariant IsOrder(order, keys - pending)
        invariant files == MoveInOrder(old(files), from, to, order)
        decreases pending
      {
        var key :| key in pending;
        var newKey := Rebase(from, to, key);
        var contents := files[key];
        files := files - {key};
        files := files[newKey := contents];
        pending := pending - {key};
        ghost var longer := order + [key];
        assert longer[..|longer| - 1] == order;
        order := longer;
      }
      return Ok(()), order;
    }

    method CopyFolder(from: Key, to: Key) returns (r: Result<(), FileError>, ghost order: seq<Key>)
      modifies this
      ensures r == if FolderKeys(old(files), from) == {} then Err(NotFound(from)) else Ok(())
      ensures IsOrder(order, FolderKeys(old(files), from))
      ensures files == CopyInOrder(old(files), from, to, order)
    {
      var keys := FolderKeys(files, from);
      order := [];
      if keys == {} {
        return Err(NotFound(from)), [];
      }
      var pending := keys;
      while pending != {}
        invariant pending <= keys <= files.Keys
        invariant IsOrder(order, keys - pending)
        invariant files == CopyInOrder(old(files), from, to, order)
        decreases pending
      {
        var key :| key in pending;
        files := files[Rebase(from, to, key) := files[key]];
        pending := pending - {key};
        ghost var longer := order + [key];
        assert longer[..|longer| - 1] == order;
        order := longer;
      }
      return Ok(()), order;
    }
  }
}
