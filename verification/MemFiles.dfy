/** One editable buffer over a store, with batched saves and a flush when it is dropped. */
module MemFiles {
  import opened Common
  import opened Edits
  import opened Stores

  const SAVE_THRESHOLD := 5

  datatype Backend = Blocking | Async

  /** What a buffer holds: its text, and how many single-character edits it has not saved. */
  datatype Buffer = Buffer(text: string, unsaved: nat)

  // ---- Specification: a buffer beside the stored files ----

  function SingleEdit(b: Buffer, m: Files, p: Key, text: string): (Buffer, Files) {
    if b.unsaved + 1 >= SAVE_THRESHOLD then (Buffer(text, 0), m[p := text])
    else (Buffer(text, b.unsaved + 1), m)
  }

  function BulkEdit(m: Files, p: Key, text: string): (Buffer, Files) {
    (Buffer(text, 0), m[p := text])
  }

  /** One operation, by the length of its run; a swap is a delete and then an insert. */
  function ApplyOp(b: Buffer, m: Files, p: Key, op: Operation): (Buffer, Files)
    decreases if op.Swap? then 1 else 0
  {
    match op
    case Insert(_, content) =>
      if |content| == 0 then (b, m)
      else if |content| == 1 then SingleEdit(b, m, p, Edit(b.text, op))
      else BulkEdit(m, p, Edit(b.text, op))
    case Delete(_, length) =>
      if length == 0 then (b, m)
      else if length == 1 then SingleEdit(b, m, p, Edit(b.text, op))
      else BulkEdit(m, p, Edit(b.text, op))
    case Swap(position, length, content) =>
      var (b', m') := ApplyOp(b, m, p, Delete(position, length));
      ApplyOp(b', m', p, Insert(position, content))
  }

  function ApplyOps(b: Buffer, m: Files, p: Key, ops: Transaction): (Buffer, Files)
    decreases ops
  {
    if ops == [] then (b, m)
    else
      var (b', m') := ApplyOp(b, m, p, ops[0]);
      ApplyOps(b', m', p, ops[1..])
  }

  lemma OpMeansEdit(b: Buffer, m: Files, p: Key, op: Operation)
    ensures ApplyOp(b, m, p, op).0.text == Edit(b.text, op)
    ensures ApplyOp(b, m, p, op).1 - {p} == m - {p}
    decreases if op.Swap? then 1 else 0
  {
    match op
    case Insert(position, content) =>
      assert content == "" ==> Edit(b.text, op) == b.text;
    case Delete(position, length) =>
      assert length == 0 ==> Edit(b.text, op) == b.text;
    case Swap(position, length, content) =>
      OpMeansEdit(b, m, p, Delete(position, length));
      var (b', m') := ApplyOp(b, m, p, Delete(position, length));
      OpMeansEdit(b', m', p, Insert(position, content));
      SwapIsDeleteThenInsert(b.text, position, length, content);
  }

  /**
   A transaction leaves the text the documented edits give, whichever save path each edit takes,
   and touches no other stored file.
   */
  lemma {:induction false} TransactionMeansEdits(b: Buffer, m: Files, p: Key, ops: Transaction)
    ensures ApplyOps(b, m, p, ops).0.text == EditAll(b.text, ops)
    ensures ApplyOps(b, m, p, ops).1 - {p} == m - {p}
    decreases ops
  {
    if ops != [] {
      OpMeansEdit(b, m, p, ops[0]);
      var (b', m') := ApplyOp(b, m, p, ops[0]);
      TransactionMeansEdits(b', m', p, ops[1..]);
    }
  }

  lemma {:induction false} ApplyOpsAppends(b: Buffer, m: Files, p: Key, first: Transaction, rest: Transaction)
    ensures ApplyOps(b, m, p, first + rest) == ApplyOps(ApplyOps(b, m, p, first).0, ApplyOps(b, m, p, first).1, p, rest)
    decreases first
  {
    if first == [] {
      assert first + rest == rest;
    } else {
      assert (first + rest)[1..] == first[1..] + rest;
      var (b', m') := ApplyOp(b, m, p, first[0]);
      ApplyOpsAppends(b', m', p, first[1..], rest);
    }
  }

  // ---- When an edit reaches the store ----

  /**
   An edit of one character is stored only if it is the fifth unsaved one; a longer edit is stored at
   once; and an empty one does nothing.
   */
  lemma EditIsStoredIff(b: Buffer, m: Files, p: Key, op: Operation)
    requires !op.Swap?
    ensures var (b', m') := ApplyOp(b, m, p, op);
            var size := if op.Insert? then |op.content| else op.length;
            if size == 0 then (b', m') == (b, m)
            else if size == 1 && b.unsaved < 4 then b' == Buffer(Edit(b.text, op), b.unsaved + 1) && m' == m
            else b' == Buffer(Edit(b.text, op), 0) && m' == m[p := Edit(b.text, op)]
  {
  }

  lemma OneOp(b: Buffer, m: Files, p: Key, op: Operation)
    ensures ApplyOps(b, m, p, [op]) == ApplyOp(b, m, p, op)
  {
    assert [op][1..] == [];
  }

  lemma LastOp(b: Buffer, m: Files, p: Key, ops: Transaction)
    requires ops != []
    ensures var (b1, m1) := ApplyOps(b, m, p, ops[..|ops| - 1]);
            ApplyOps(b, m, p, ops) == ApplyOp(b1, m1, p, ops[|ops| - 1])
  {
    var init, last := ops[..|ops| - 1], ops[|ops| - 1];
    assert ops == init + [last];
    ApplyOpsAppends(b, m, p, init, [last]);
    OneOp(ApplyOps(b, m, p, init).0, ApplyOps(b, m, p, init).1, p, last);
  }

  /** Only every fifth of the edits stored the text: the store has all but the last `b'.unsaved` of them. */
  ghost predicate FifthsStored(b: Buffer, m: Files, p: Key, ops: Transaction, b': Buffer, m': Files)
    requires b.unsaved < 5
  {
    && b'.unsaved == (b.unsaved + |ops|) % 5
    && if b.unsaved + |ops| < 5 then m' == m else m' == m[p := EditAll(b.text, ops[..|ops| - b'.unsaved])]
  }

  /** Over any run of single-character edits, every fifth one stores the text, and no other does. */
  lemma {:induction false} EveryFifthEditSaves(b: Buffer, m: Files, p: Key, ops: Transaction)
    requires b.unsaved < 5 && forall op <- ops :: IsSingle(op)
    ensures FifthsStored(b, m, p, ops, ApplyOps(b, m, p, ops).0, ApplyOps(b, m, p, ops).1)
    decreases |ops|
  {
    if ops != [] {
      var init, last := ops[..|ops| - 1], ops[|ops| - 1];
      assert last in ops && ops == init + [last];
      EveryFifthEditSaves(b, m, p, init);
      LastOp(b, m, p, ops);
      var (b1, m1) := ApplyOps(b, m, p, init);
      TransactionMeansEdits(b, m, p, init);
      EditIsStoredIff(b1, m1, p, last);
      var (b', m') := ApplyOp(b1, m1, p, last);
      if b1.unsaved < 4 {
        OneMoreUnsaved(b, m, p, init, last, b1, m1, b');
      } else {
        OneMoreSaved(b, m, p, init, last, b1, m1, b', m');
      }
    }
  }

  lemma OneMoreUnsaved(b: Buffer, m: Files, p: Key, init: Transaction, last: Operation, b1: Buffer, m1: Files,
                       b': Buffer)
    requires b.unsaved < 5 && FifthsStored(b, m, p, init, b1, m1)
    requires b1.unsaved < 4 && b'.unsaved == b1.unsaved + 1
    ensures FifthsStored(b, m, p, init + [last], b', m1)
  {
    var n := b.unsaved + |init|;
    NextCount(n);
    if n >= 5 {
      assert (init + [last])[..|init| - b1.unsaved] == init[..|init| - b1.unsaved];
    } else {
      assert n + 1 < 5;
    }
  }

  lemma OneMoreSaved(b: Buffer, m: Files, p: Key, init: Transaction, last: Operation, b1: Buffer, m1: Files,
                     b': Buffer, m': Files)
    requires b.unsaved < 5 && FifthsStored(b, m, p, init, b1, m1) && b1.text == EditAll(b.text, init)
    requires b1.unsaved >= 4 && b' == Buffer(Edit(b1.text, last), 0) && m' == m1[p := b'.text]
    ensures FifthsStored(b, m, p, init + [last], b', m')
  {
    var n := b.unsaved + |init|;
    NextCount(n);
    OneMoreEdit(b.text, init, last);
    var all := init + [last];
    assert all[..|all|] == all;
    if n >= 5 { StoredTwice(m, p, EditAll(b.text, init[..|init| - b1.unsaved]), b'.text); }
  }

  lemma NextCount(n: nat)
    ensures (n + 1) % 5 == if n % 5 == 4 then 0 else n % 5 + 1
    ensures n >= 5 ==> n % 5 <= n - 5
    ensures n < 5 ==> n % 5 == n
  {
  }

  lemma StoredTwice(m: Files, p: Key, first: string, second: string)
    ensures m[p := first][p := second] == m[p := second]
  {
  }

  // ---- How far the store can lag behind a buffer ----

  predicate IsSingle(op: Operation) {
    match op
    case Insert(_, content) => |content| == 1
    case Delete(_, length) => length == 1
    case Swap(_, _, _) => false
  }

  /** The inserts and deletes an operation amounts to, without the empty ones. */
  function Primitives(op: Operation): Transaction {
    match op
    case Insert(_, content) => if content == "" then [] else [op]
    case Delete(_, length) => if length == 0 then [] else [op]
    case Swap(position, length, content) =>
      (if length == 0 then [] else [Delete(position, length)])
      + (if content == "" then [] else [Insert(position, content)])
  }

  function AllPrimitives(ops: Transaction): Transaction {
    if ops == [] then [] else Primitives(ops[0]) + AllPrimitives(ops[1..])
  }

  lemma {:induction false} PrimitivesArePlain(ops: Transaction)
    ensures forall op <- AllPrimitives(ops) :: !op.Swap? && Primitives(op) == [op]
    decreases ops
  {
    if ops != [] { PrimitivesArePlain(ops[1..]); }
  }

  lemma OpIsItsPrimitives(b: Buffer, m: Files, p: Key, op: Operation)
    ensures ApplyOps(b, m, p, Primitives(op)) == ApplyOp(b, m, p, op)
    decreases if op.Swap? then 1 else 0
  {
    match op
    case Insert(_, _) => assert [op][1..] == [];
    case Delete(_, _) => assert [op][1..] == [];
    case Swap(position, length, content) =>
      var first, second := Delete(position, length), Insert(position, content);
      assert Primitives(op) == Primitives(first) + Primitives(second);
      ApplyOpsAppends(b, m, p, Primitives(first), Primitives(second));
      OpIsItsPrimitives(b, m, p, first);
      OpIsItsPrimitives(ApplyOp(b, m, p, first).0, ApplyOp(b, m, p, first).1, p, second);
  }

  /** A transaction is its inserts and deletes, swaps taken apart and empty edits left out. */
  lemma {:induction false} TransactionIsItsPrimitives(b: Buffer, m: Files, p: Key, ops: Transaction)
    ensures ApplyOps(b, m, p, AllPrimitives(ops)) == ApplyOps(b, m, p, ops)
    decreases ops
  {
    if ops != [] {
      var (b', m') := ApplyOp(b, m, p, ops[0]);
      ApplyOpsAppends(b, m, p, Primitives(ops[0]), AllPrimitives(ops[1..]));
      OpIsItsPrimitives(b, m, p, ops[0]);
      TransactionIsItsPrimitives(b', m', p, ops[1..]);
    }
  }

  /** The buffer is `t0` after `saved` and then `tail`; the store has all but `tail`, a few single edits. */
  ghost predicate Lags(t0: string, saved: Transaction, tail: Transaction, b: Buffer, m: Files, p: Key) {
    && b.unsaved == |tail| < SAVE_THRESHOLD
    && b.text == EditAll(t0, saved + tail)
    && p in m && m[p] == EditAll(t0, saved)
    && forall op <- tail :: IsSingle(op)
  }

  lemma OneMoreEdit(t0: string, done: Transaction, op: Operation)
    ensures EditAll(t0, done + [op]) == Edit(EditAll(t0, done), op)
  {
    EditAllAppends(t0, done, [op]);
    assert [op][1..] == [];
  }

  /** A primitive either saves the whole text or adds one single-character edit to the unsaved ones. */
  lemma PrimitiveSavesOrCounts(b: Buffer, m: Files, p: Key, op: Operation)
    requires !op.Swap? && Primitives(op) == [op]
    ensures var (b', m') := ApplyOp(b, m, p, op);
            && b'.text == Edit(b.text, op)
            && (|| (b'.unsaved == 0 && m' == m[p := b'.text])
                || (b'.unsaved == b.unsaved + 1 < SAVE_THRESHOLD && m' == m && IsSingle(op)))
  {
  }

  lemma PrimitiveKeepsLag(t0: string, saved: Transaction, tail: Transaction, b: Buffer, m: Files, p: Key, op: Operation)
    returns (saved': Transaction, tail': Transaction)
    requires Lags(t0, saved, tail, b, m, p) && !op.Swap? && Primitives(op) == [op]
    ensures saved' + tail' == saved + tail + [op]
    ensures Lags(t0, saved', tail', ApplyOp(b, m, p, op).0, ApplyOp(b, m, p, op).1, p)
  {
    OneMoreEdit(t0, saved + tail, op);
    PrimitiveSavesOrCounts(b, m, p, op);
    var (b', m') := ApplyOp(b, m, p, op);
    if b'.unsaved == 0 {
      saved', tail' := saved + tail + [op], [];
      assert saved' + tail' == saved';
    } else {
      saved', tail' := saved, tail + [op];
      assert saved' + tail' == saved + tail + [op];
    }
  }

  lemma OpKeepsLag(t0: string, saved: Transaction, tail: Transaction, b: Buffer, m: Files, p: Key, op: Operation)
    returns (saved': Transaction, tail': Transaction)
    requires Lags(t0, saved, tail, b, m, p)
    ensures saved' + tail' == saved + tail + Primitives(op)
    ensures Lags(t0, saved', tail', ApplyOp(b, m, p, op).0, ApplyOp(b, m, p, op).1, p)
    decreases if op.Swap? then 1 else 0
  {
    if op.Swap? {
      var first, second := Delete(op.position, op.length), Insert(op.position, op.content);
      saved', tail' := OpKeepsLag(t0, saved, tail, b, m, p, first);
      var (b', m') := ApplyOp(b, m, p, first);
      saved', tail' := OpKeepsLag(t0, saved', tail', b', m', p, second);
    } else if Primitives(op) == [] {
      saved', tail' := saved, tail;
    } else {
      saved', tail' := PrimitiveKeepsLag(t0, saved, tail, b, m, p, op);
    }
  }

  lemma Regroup(done: Transaction, first: Transaction, rest: Transaction)
    ensures done + first + rest == done + (first + rest)
  {
  }

  lemma {:induction false} OpsKeepLag(t0: string, saved: Transaction, tail: Transaction, done: Transaction,
                                      b: Buffer, m: Files, p: Key, ops: Transaction)
    returns (saved': Transaction, tail': Transaction)
    requires Lags(t0, saved, tail, b, m, p) && saved + tail == done
    ensures saved' + tail' == done + AllPrimitives(ops)
    ensures Lags(t0, saved', tail', ApplyOps(b, m, p, ops).0, ApplyOps(b, m, p, ops).1, p)
    decreases ops
  {
    if ops == [] {
      saved', tail' := saved, tail;
    } else {
      var first := Primitives(ops[0]);
      var (b1, m1) := ApplyOp(b, m, p, ops[0]);
      var saved1, tail1 := OpKeepsLag(t0, saved, tail, b, m, p, ops[0]);
      var done1 := done + first;
      assert saved1 + tail1 == done1;
      saved', tail' := OpsKeepLag(t0, saved1, tail1, done1, b1, m1, p, ops[1..]);
      Regroup(done, first, AllPrimitives(ops[1..]));
    }
  }

  /**
   From a buffer that was just loaded or saved, any transaction leaves the stored text behind the
   buffer by fewer than SAVE_THRESHOLD edits, each of a single character, and by nothing else.
   */
  lemma StoreLagsByFewEdits(text: string, m: Files, p: Key, ops: Transaction)
    requires p in m && m[p] == text
    ensures var (b, m') := ApplyOps(Buffer(text, 0), m, p, ops);
            var done := AllPrimitives(ops);
            && b.unsaved < 5 && b.unsaved <= |done|
            && p in m' && m'[p] == EditAll(text, done[..|done| - b.unsaved])
            && (forall op <- done[|done| - b.unsaved..] :: IsSingle(op))
            && b.text == EditAll(text, done) == EditAll(text, ops)
  {
    var done := AllPrimitives(ops);
    assert EditAll(text, []) == text;
    var saved, tail := OpsKeepLag(text, [], [], [], Buffer(text, 0), m, p, ops);
    assert saved + tail == done;
    assert done[..|done| - |tail|] == saved && done[|done| - |tail|..] == tail;
    TransactionMeansEdits(Buffer(text, 0), m, p, ops);
  }

  // ---- The buffer ----

  class MemFile {
    const path: Key
    const store: MemStore
    const backend: Backend
    var text: string
    var opsSinceSave: nat
    var flushOnDrop: bool

    ghost function Value(): Buffer
      reads this
    {
      Buffer(text, opsSinceSave)
    }

    constructor FromString(path: Key, store: MemStore, backend: Backend, contents: string)
      ensures this.path == path && this.store == store && this.backend == backend
      ensures Value() == Buffer(contents, 0) && flushOnDrop
    {
      this.path, this.store, this.backend := path, store, backend;
      text, opsSinceSave, flushOnDrop := contents, 0, true;
    }

    method Save()
      modifies this, store
      ensures Value() == Buffer(old(text), 0) && flushOnDrop == old(flushOnDrop)
      ensures store.files == old(store.files)[path := text]
    {
      store.WriteFile(path, text);
      opsSinceSave := 0;
    }

    method RecordSingleEdit()
      modifies this, store
      ensures flushOnDrop == old(flushOnDrop)
      ensures (Value(), store.files)
              == SingleEdit(old(Value()), old(store.files), path, old(text))
    {
      opsSinceSave := opsSinceSave + 1;
      if opsSinceSave >= SAVE_THRESHOLD {
        Save();
      }
    }

    method InsertChar(position: CursorIndex, character: char)
      modifies this, store
      ensures flushOnDrop == old(flushOnDrop)
      ensures (Value(), store.files)
              == ApplyOp(old(Value()), old(store.files), path, Insert(position, [character]))
    {
      text := InsertText(text, position, [character]);
      RecordSingleEdit();
    }

    method DeleteChar(position: CursorIndex)
      modifies this, store
      ensures flushOnDrop == old(flushOnDrop)
      ensures (Value(), store.files)
              == ApplyOp(old(Value()), old(store.files), path, Delete(position, 1))
    {
      text := DeleteRange(text, position, 1);
      RecordSingleEdit();
    }

    method DeleteRun(position: CursorIndex, delta: nat)
      requires delta > 1
      modifies this, store
      ensures flushOnDrop == old(flushOnDrop)
      ensures (Value(), store.files)
              == ApplyOp(old(Value()), old(store.files), path, Delete(position, delta))
    {
      text := DeleteRange(text, position, delta);
      Save();
    }

    method InsertRun(position: CursorIndex, data: string)
      requires |data| > 1
      modifies this, store
      ensures flushOnDrop == old(flushOnDrop)
      ensures (Value(), store.files)
              == ApplyOp(old(Value()), old(store.files), path, Insert(position, data))
    {
      text := InsertText(text, position, data);
      Save();
    }

    method ApplyInsert(position: CursorIndex, content: string)
      modifies this, store
      ensures flushOnDrop == old(flushOnDrop)
      ensures (Value(), store.files)
              == ApplyOp(old(Value()), old(store.files), path, Insert(position, content))
    {
      if |content| == 1 {
        assert content == [content[0]];
        InsertChar(position, content[0]);
      } else if |content| > 1 {
        InsertRun(position, content);
      }
    }

    method ApplyDelete(position: CursorIndex, length: nat)
      modifies this, store
      ensures flushOnDrop == old(flushOnDrop)
      ensures (Value(), store.files)
              == ApplyOp(old(Value()), old(store.files), path, Delete(position, length))
    {
      if length == 1 {
        DeleteChar(position);
      } else if length > 1 {
        DeleteRun(position, length);
      }
    }

    method ApplyTransactionOps(transaction: Transaction)
      modifies this, store
      ensures flushOnDrop == old(flushOnDrop)
      ensures (Value(), store.files) == ApplyOps(old(Value()), old(store.files), path, transaction)
    {
      assert transaction[0..] == transaction;
      for i := 0 to |transaction|
        invariant flushOnDrop == old(flushOnDrop)
        invariant ApplyOps(Value(), store.files, path, transaction[i..])
                  == ApplyOps(old(Value()), old(store.files), path, transaction)
      {
        assert transaction[i..][0] == transaction[i] && transaction[i..][1..] == transaction[i + 1..];
        match transaction[i] {
          case Insert(position, content) =>
            ApplyInsert(position, content);
          case Delete(position, length) =>
            ApplyDelete(position, length);
          case Swap(position, length, content) =>
            ApplyDelete(position, length);
            ApplyInsert(position, content);
        }
      }
      assert transaction[|transaction|..] == [];
    }

    /** `Drop`: the blocking backend flushes, the async one cannot. */
    method Drop()
      modifies store
      ensures store.files == if flushOnDrop && backend == Blocking then old(store.files)[path := text]
                             else old(store.files)
    {
      if flushOnDrop {
        if backend == Blocking {
          store.WriteFile(path, text);
        }
      }
    }
  }
}
